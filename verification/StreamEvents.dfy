/** What counts as an event, as visible content and as a failure in a peeked body (cmd/api/model_runtime.go). */
module StreamEvents {
  import opened Wrappers
  import opened ContextTrim
  import opened StreamPeek
  import Utf8

  predicate AsciiPad(s: string) { forall k | 0 <= k < |s| :: s[k] == ' ' || '\t' <= s[k] <= '\r' }

  predicate Printable(c: char) { '!' <= c <= '~' }

  lemma PadIsSpace(s: string)
    requires s != [] && (s[0] == ' ' || '\t' <= s[0] <= '\r')
    ensures Utf8.SpaceLength(s) == 1
  {
  }

  lemma {:induction false} TrimLeftPad(pad: string, s: string)
    requires AsciiPad(pad) && (s == [] || Printable(s[0]))
    ensures Utf8.TrimLeft(pad + s) == s
  {
    if pad == [] {
      assert pad + s == s;
    } else {
      PadIsSpace(pad + s);
      assert (pad + s)[1..] == pad[1..] + s;
      TrimLeftPad(pad[1..], s);
    }
  }

  lemma PrintableIsNoSpace(t: string)
    requires 1 <= |t| <= 3 && Printable(t[|t| - 1])
    ensures Utf8.SpaceLength(t) != |t|
  {
    if |t| == 3 { assert t[..3][2] == t[2]; }
  }

  lemma PrintableEnds(s: string)
    requires s != [] && Printable(s[|s| - 1])
    ensures !Utf8.EndsInSpace(s, 1) && !Utf8.EndsInSpace(s, 2) && !Utf8.EndsInSpace(s, 3)
  {
    hide Utf8.SpaceLength;
    PrintableIsNoSpace(s[|s| - 1..]);
    if |s| >= 2 { PrintableIsNoSpace(s[|s| - 2..]); }
    if |s| >= 3 { PrintableIsNoSpace(s[|s| - 3..]); }
  }

  lemma {:induction false} TrimRightPad(s: string, pad: string)
    requires AsciiPad(pad) && (s == [] || Printable(s[|s| - 1]))
    ensures Utf8.TrimRight(s + pad) == s
  {
    if pad == [] {
      assert s + pad == s;
      if s != [] { PrintableEnds(s); }
    } else {
      var n := |pad| - 1;
      PadEnds(s, pad);
      assert (s + pad)[..|s + pad| - 1] == s + pad[..n];
      TrimRightPad(s, pad[..n]);
    }
  }

  lemma PadEnds(s: string, pad: string)
    requires AsciiPad(pad) && pad != []
    ensures Utf8.EndsInSpace(s + pad, 1)
  {
    assert (s + pad)[|s + pad| - 1..] == [pad[|pad| - 1]];
    PadIsSpace([pad[|pad| - 1]]);
  }

  lemma TrimmedOfPads(lead: string, core: string, trail: string)
    requires AsciiPad(lead) && AsciiPad(trail) && (core != [] ==> Printable(core[0]) && Printable(core[|core| - 1]))
    ensures Utf8.TrimSpace(lead + core + trail) == core
  {
    hide Utf8.TrimLeft, Utf8.TrimRight;
    if core == [] {
      assert lead + core + trail == (lead + trail) + [] && AsciiPad(lead + trail);
      TrimLeftPad(lead + trail, []);
      TrimRightPad([], []);
      assert "" + "" == "";
    } else {
      assert lead + core + trail == lead + (core + trail);
      TrimLeftPad(lead, core + trail);
      TrimRightPad(core, trail);
    }
  }

  /** A data line carries what is between its mark and its end, without the blanks around it. */
  lemma EventPayload(lead: string, pad: string, core: string, trail: string)
    requires AsciiPad(lead) && AsciiPad(pad) && AsciiPad(trail) && core != [] && Printable(core[0]) &&
             Printable(core[|core| - 1])
    ensures Payload(lead + ("data:" + pad + core) + trail) == Some(core)
  {
    hide Utf8.TrimSpace;
    var event := "data:" + pad + core;
    assert event[0] == 'd' && event[|event| - 1] == core[|core| - 1];
    TrimmedOfPads(lead, event, trail);
    TrimmedOfPads(pad, core, []);
    assert event[5..] == pad + core && pad + core + [] == pad + core;
    assert event[..5] == "data:";
  }

  /** Any other line says nothing. */
  lemma OtherLinesAreSilent(lead: string, core: string, trail: string, decode: string -> Option<Value>,
                            failure: string -> int)
    requires AsciiPad(lead) && AsciiPad(trail) && (core != [] ==> Printable(core[0]) && Printable(core[|core| - 1]))
    requires !("data:" <= core)
    ensures Classify(lead + core + trail, decode, failure) == Silent
  {
    hide Utf8.TrimSpace;
    TrimmedOfPads(lead, core, trail);
  }

  /** What an event says: the end and visible content commit, and only what does not can fail. */
  lemma EventMeans(line: string, p: string, decode: string -> Option<Value>, failure: string -> int)
    requires Payload(line) == Some(p)
    ensures Classify(line, decode, failure) ==
            if p == "[DONE]" then Commits
            else if Visible(decode(p)) then Commits
            else if failure(p) != 0 then Fails(p, failure(p))
            else Silent
  {
  }

  /** An event shows what one of its choices shows. */
  lemma EventShows(event: Option<Value>)
    ensures Visible(event) <==>
            && event.Some? && event.value.Dict? && Find(event.value.fields, "choices").Some?
            && Find(event.value.fields, "choices").value.List?
            && exists choice :: choice in Find(event.value.fields, "choices").value.items && Shows(choice)
  {
    hide Shows;
  }

  /** ASCII text is visible exactly if it is not all blanks. */
  lemma AsciiTextShows(choice: Value, part: string, message: Value, text: string)
    requires part == "delta" || part == "message"
    requires choice.Dict? && Find(choice.fields, part) == Some(message)
    requires message.Dict? && Find(message.fields, "content") == Some(Str(text))
    requires exists lead, core, trail ::
               text == lead + core + trail && AsciiPad(lead) && AsciiPad(trail)
               && core != [] && Printable(core[0]) && Printable(core[|core| - 1])
    ensures Shows(choice)
  {
    hide Utf8.TrimSpace;
    var lead, core, trail :| text == lead + core + trail && AsciiPad(lead) && AsciiPad(trail)
                             && core != [] && Printable(core[0]) && Printable(core[|core| - 1]);
    TrimmedOfPads(lead, core, trail);
  }

  /** A choice whose delta and message have no text but blanks shows nothing. */
  lemma BlankTextHides(choice: Value)
    requires forall part | part in {"delta", "message"} ::
               var v := Find(Fields(Some(choice)), part);
               v.None? || !v.value.Dict? || Find(v.value.fields, "content").None?
               || !Find(v.value.fields, "content").value.Str? || AsciiPad(Find(v.value.fields, "content").value.text)
    ensures !Shows(choice)
  {
    hide Utf8.TrimSpace;
    forall pad | AsciiPad(pad) ensures Utf8.TrimSpace(pad) == [] {
      TrimmedOfPads(pad, [], []);
      assert pad + [] + [] == pad;
    }
    TrimmedOfPads([], [], []);
    assert "" + "" + "" == "";
    assert "delta" in {"delta", "message"} && "message" in {"delta", "message"};
  }

  /** A failure is reported from a body that is read as JSON exactly if its first two MiB carry it and do not break off;
      a body that breaks off in them is an error. */
  lemma JsonFailureIff(s: string, end: End, failure: string -> int, p: string, status: int)
    ensures JsonOutcome(s, end, failure) == Failed(p, status) <==>
            && p <= s && |p| == (if |s| < 2097152 then |s| else 2097152)
            && (end == Eof || |s| >= 2097152) && failure(p) == status != 0
    ensures JsonOutcome(s, end, failure) == ReadError <==> end == Broken && |s| < 2097152
  {
    if p <= s && |p| == (if |s| < 2097152 then |s| else 2097152) { assert Prefix(s, 2097152) == p; }
  }
}
