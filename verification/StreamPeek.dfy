/** Peeking into a successful response for a provider failure hidden in it (cmd/api/model_runtime.go).

  Bodies are byte strings (see Utf8); a body ends cleanly or breaks off.  JSON decoding and the recognition
  of a provider's failure are parameters: decode, and failure with 0 for none.

  The reading loop is proved equal to judging the body line by line, and the theorems are about that judgement:
  when a failure is reported, that nothing the user could have seen came before it, and what is said of a
  stream that decides nothing.  A stream that passes is handed on byte for byte.
 */
module StreamPeek {
  import opened Wrappers
  import opened ContextTrim
  import Utf8

  const STREAM_LIMIT := 512 * 1024
  const JSON_LIMIT := 2 * 1024 * 1024

  datatype End = Eof | Broken

  /** A network body, read from the front. */
  class Source {
    var rest: string
    var closed: bool
    const end: End

    constructor (bytes: string, end: End)
      ensures rest == bytes && this.end == end && !closed
    {
      rest, closed, this.end := bytes, false, end;
    }

    /** bufio's ReadString up to a newline. */
    method ReadLine() returns (line: string, err: Option<End>)
      modifies this`rest
      ensures line == FirstLine(old(rest)) && rest == old(rest)[|line|..]
      ensures err == if '\n' in old(rest) then None else Some(end)
    {
      line := FirstLine(rest);
      err := if '\n' in rest then None else Some(end);
      rest := rest[|line|..];
    }

    /** Everything up to a limit; the end is only noticed before the limit. */
    method ReadUpTo(limit: nat) returns (raw: string, err: bool)
      modifies this`rest
      ensures raw == Prefix(old(rest), limit) && rest == old(rest)[|raw|..]
      ensures err <==> |old(rest)| < limit && end == Broken
    {
      raw := Prefix(rest, limit);
      err := |rest| < limit && end == Broken;
      rest := rest[|raw|..];
    }

    method Close()
      modifies this`closed
      ensures closed
    {
      closed := true;
    }
  }

  /** What the response's body has become: itself, or captured bytes with or without the rest of the network body. */
  datatype Body = Original | Replay(captured: string, more: bool)

  class Response {
    const status: int
    const eventStream: bool
    const json: bool
    const length: int
    const source: Source
    var body: Body

    constructor (status: int, eventStream: bool, json: bool, length: int, source: Source)
      ensures body == Original && this.source == source
    {
      this.status, this.eventStream, this.json, this.length, this.source := status, eventStream, json, length, source;
      body := Original;
    }

    /** What reading the body to its end yields, and how it ends. */
    function Readable(): (string, End)
      reads this, source
    {
      match body
      case Original => (source.rest, source.end)
      case Replay(captured, true) => (captured + source.rest, source.end)
      case Replay(captured, false) => (captured, Eof)
    }
  }

  function Prefix(s: string, n: nat): string { if |s| <= n then s else s[..n] }

  /** Up to and including the first newline. */
  function FirstLine(s: string): (line: string)
    ensures |line| <= |s| && s[..|line|] == line && (s != [] ==> line != [])
  {
    if s == [] then [] else if s[0] == '\n' then s[..1] else [s[0]] + FirstLine(s[1..])
  }

  // ------------------------------------------------------------------- events

  function Fields(v: Option<Value>): seq<Field> {
    if v.Some? && v.value.Dict? then v.value.fields else []
  }

  predicate HasText(v: Option<Value>) {
    Utf8.TrimSpace(TextOf(Find(Fields(v), "content"))) != ""
  }

  predicate Shows(choice: Value) {
    HasText(Find(Fields(Some(choice)), "delta")) || HasText(Find(Fields(Some(choice)), "message"))
  }

  /** sseEventHasVisibleContent, on the decoded event. */
  predicate Visible(event: Option<Value>) {
    var choices := Find(Fields(event), "choices");
    choices.Some? && choices.value.List? && exists i | 0 <= i < |choices.value.items| :: Shows(choices.value.items[i])
  }

  method SseEventHasVisibleContent(event: Option<Value>) returns (visible: bool)
    ensures visible == Visible(event)
  {
    hide HasText;
    if event.None? || !event.value.Dict? { return false; }
    var choices := Find(event.value.fields, "choices");
    if choices.None? || !choices.value.List? { return false; }
    var items := choices.value.items;
    for i := 0 to |items|
      invariant forall j | 0 <= j < i :: !Shows(items[j])
    {
      if HasText(Find(Fields(Some(items[i])), "delta")) { return true; }
      if HasText(Find(Fields(Some(items[i])), "message")) { return true; }
    }
    return false;
  }

  const DATA := "data:"

  function Payload(line: string): Option<string> {
    var trimmed := Utf8.TrimSpace(line);
    if DATA <= trimmed then Some(Utf8.TrimSpace(trimmed[|DATA|..])) else None
  }

  datatype Meaning = Silent | Commits | Fails(payload: string, status: int)

  function Classify(line: string, decode: string -> Option<Value>, failure: string -> int): Meaning {
    match Payload(line)
    case None => Silent
    case Some(p) =>
      if p == "[DONE]" || Visible(decode(p)) then Commits
      else if failure(p) != 0 then Fails(p, failure(p))
      else Silent
  }

  /** The lines of a stream are judged one by one, by a meaning such as this. */
  function Meanings(decode: string -> Option<Value>, failure: string -> int): string -> Meaning {
    line => Classify(line, decode, failure)
  }

  datatype Verdict = Passed | Failed(payload: string, status: int) | ReadError

  /** The verdict on a stream of which the given number of bytes has been captured in silence. */
  function Outcome(s: string, end: End, captured: nat, meaning: string -> Meaning): Verdict
    decreases |s|
  {
    if captured >= STREAM_LIMIT then Passed
    else
      var line := FirstLine(s);
      match meaning(line)
      case Commits => Passed
      case Fails(p, status) => Failed(p, status)
      case Silent =>
        if '\n' !in s then (if end == Eof then Passed else ReadError)
        else Outcome(s[|line|..], end, captured + |line|, meaning)
  }

  /** The verdict on a whole body that is read as JSON. */
  function JsonOutcome(s: string, end: End, failure: string -> int): Verdict {
    var raw := Prefix(s, JSON_LIMIT);
    if |s| < JSON_LIMIT && end == Broken then ReadError
    else if failure(raw) != 0 then Failed(raw, failure(raw))
    else Passed
  }

  method ClassifyLine(line: string, decode: string -> Option<Value>, failure: string -> int) returns (m: Meaning)
    ensures m == Meanings(decode, failure)(line)
  {
    hide Visible;
    var payload := Payload(line);
    if payload.Some? {
      if payload.value == "[DONE]" { return Commits; }
      var visible := SseEventHasVisibleContent(decode(payload.value));
      if visible { return Commits; }
      if failure(payload.value) != 0 { return Fails(payload.value, failure(payload.value)); }
    }
    return Silent;
  }

  lemma OutcomeStep(s: string, end: End, captured: nat, meaning: string -> Meaning)
    requires captured < STREAM_LIMIT
    ensures Outcome(s, end, captured, meaning) ==
      var line := FirstLine(s);
      match meaning(line)
      case Commits => Passed
      case Fails(p, status) => Failed(p, status)
      case Silent =>
        if '\n' !in s then (if end == Eof then Passed else ReadError)
        else Outcome(s[|line|..], end, captured + |line|, meaning)
  {
  }

  lemma OutcomeAtLimit(s: string, end: End, captured: nat, meaning: string -> Meaning)
    requires captured >= STREAM_LIMIT
    ensures Outcome(s, end, captured, meaning) == Passed
  {
  }

  lemma Resplit(captured: string, line: string, rest: string)
    requires |line| <= |rest| && rest[..|line|] == line
    ensures captured + rest == (captured + line) + rest[|line|..]
  {
  }

  method InspectEventStream(resp: Response, decode: string -> Option<Value>, failure: string -> int)
    returns (v: Verdict)
    requires resp.body == Original
    modifies resp, resp.source
    ensures v == Outcome(old(resp.source.rest), resp.source.end, 0, Meanings(decode, failure))
    ensures v == Passed ==> resp.Readable() == old(resp.Readable())
    ensures v == Passed ==> resp.body.Replay? && (resp.body.more ==> resp.source.closed == old(resp.source.closed))
    ensures v != Passed ==> resp.source.closed
  {
    hide Classify, FirstLine, Outcome, Meanings;
    var source := resp.source;
    ghost var meaning := Meanings(decode, failure);
    var captured := "";
    while |captured| < STREAM_LIMIT
      invariant captured + source.rest == old(source.rest)
      invariant resp.body == Original && source.closed == old(source.closed)
      invariant Outcome(old(source.rest), source.end, 0, meaning) ==
                Outcome(source.rest, source.end, |captured|, meaning)
      decreases |source.rest|
    {
      ghost var before := source.rest;
      OutcomeStep(before, source.end, |captured|, meaning);
      var line, err := source.ReadLine();
      Resplit(captured, line, before);
      captured := captured + line;
      var m := ClassifyLine(line, decode, failure);
      if m.Commits? {
        resp.body := Replay(captured, true);
        return Passed;
      }
      if m.Fails? {
        source.Close();
        return Failed(m.payload, m.status);
      }
      if err.Some? {
        NoNewlineIsOneLine(before);
        if err.value == Eof {
          resp.body := Replay(captured, false);
          source.Close();
          return Passed;
        }
        source.Close();
        return ReadError;
      }
    }
    OutcomeAtLimit(source.rest, source.end, |captured|, meaning);
    resp.body := Replay(captured, true);
    return Passed;
  }

  /** A response that passes reads exactly as before, to the byte and to the way it ends; another is closed. */
  method InspectHermesSoftFailure(resp: Response?, decode: string -> Option<Value>, failure: string -> int)
    returns (v: Verdict)
    requires resp != null ==> resp.body == Original
    modifies if resp == null then {} else {resp, resp.source}
    ensures resp == null || resp.status != 200 ==> v == Passed
    ensures resp != null && resp.status == 200 ==>
      v == if resp.eventStream then Outcome(old(resp.source.rest), resp.source.end, 0, Meanings(decode, failure))
           else if resp.json || 0 <= resp.length <= 2097152
           then JsonOutcome(old(resp.source.rest), resp.source.end, failure)
           else Passed
    ensures resp != null && v == Passed ==> resp.Readable() == old(resp.Readable())
    ensures resp != null && v == Passed && (resp.body.Replay? ==> resp.body.more) ==>
              resp.source.closed == old(resp.source.closed)
    ensures v != Passed ==> resp != null && resp.source.closed
  {
    hide Outcome;
    if resp == null || resp.status != 200 { return Passed; }
    if resp.eventStream {
      v := InspectEventStream(resp, decode, failure);
      return v;
    }
    var source := resp.source;
    if resp.json || 0 <= resp.length <= JSON_LIMIT {
      var raw, err := source.ReadUpTo(JSON_LIMIT);
      if err {
        source.Close();
        return ReadError;
      }
      if failure(raw) != 0 {
        source.Close();
        return Failed(raw, failure(raw));
      }
      resp.body := Replay(raw, true);
      assert raw + source.rest == old(source.rest);
    }
    return Passed;
  }

  lemma {:induction false} NoNewlineIsOneLine(s: string)
    requires '\n' !in s
    ensures FirstLine(s) == s
  {
    if s != [] { NoNewlineIsOneLine(s[1..]); }
  }

  // ------------------------------------------------------- what a verdict means

  /** The lines of a body; only the last one lacks its newline (it may be empty). */
  function Lines(s: string): (lines: seq<string>)
    ensures lines != []
    decreases |s|
  {
    if '\n' !in s then [FirstLine(s)] else [FirstLine(s)] + Lines(s[|FirstLine(s)|..])
  }

  function Joined(lines: seq<string>): string {
    if lines == [] then "" else lines[0] + Joined(lines[1..])
  }

  lemma {:induction false} LinesJoin(s: string)
    ensures Joined(Lines(s)) == s
    decreases |s|
  {
    var line := FirstLine(s);
    if '\n' !in s {
      NoNewlineIsOneLine(s);
      assert Joined([s]) == s + Joined([]);
    } else {
      LinesJoin(s[|line|..]);
      assert ([line] + Lines(s[|line|..]))[1..] == Lines(s[|line|..]);
      assert line + s[|line|..] == s;
    }
  }

  /** Where line k starts. */
  function Offset(lines: seq<string>, k: nat): nat
    requires k <= |lines|
  {
    if k == 0 then 0 else Offset(lines, k - 1) + |lines[k - 1]|
  }

  lemma {:induction false} OffsetShifts(line: string, rest: seq<string>, k: nat)
    requires k <= |rest|
    ensures Offset([line] + rest, k + 1) == |line| + Offset(rest, k)
  {
    if k > 0 { OffsetShifts(line, rest, k - 1); }
  }

  /** Line k is looked at, and is the first that is not silent. */
  ghost predicate Decides(lines: seq<string>, captured: nat, k: nat, meaning: string -> Meaning) {
    && k < |lines| && captured + Offset(lines, k) < 524288
    && (forall j | 0 <= j < k :: meaning(lines[j]) == Silent)
    && meaning(lines[k]) != Silent
  }

  /** No line that is looked at says anything. */
  ghost predicate AllSilent(lines: seq<string>, captured: nat, meaning: string -> Meaning) {
    forall k | 0 <= k < |lines| && captured + Offset(lines, k) < 524288 :: meaning(lines[k]) == Silent
  }

  /** The verdict as a walk over lines that have already been split. */
  function LinesOutcome(lines: seq<string>, end: End, captured: nat, meaning: string -> Meaning): Verdict
    requires lines != []
  {
    if captured >= STREAM_LIMIT then Passed
    else
      match meaning(lines[0])
      case Commits => Passed
      case Fails(p, status) => Failed(p, status)
      case Silent =>
        if |lines| == 1 then (if end == Eof then Passed else ReadError)
        else LinesOutcome(lines[1..], end, captured + |lines[0]|, meaning)
  }

  lemma {:induction false} OutcomeByLines(s: string, end: End, captured: nat, meaning: string -> Meaning)
    ensures Outcome(s, end, captured, meaning) == LinesOutcome(Lines(s), end, captured, meaning)
    decreases |s|
  {
    var line := FirstLine(s);
    if captured < STREAM_LIMIT && '\n' in s {
      OutcomeByLines(s[|line|..], end, captured + |line|, meaning);
      hide FirstLine;
      assert Lines(s)[0] == line && Lines(s)[1..] == Lines(s[|line|..]);
    }
  }

  lemma DecidesLater(lines: seq<string>, captured: nat, k: nat, meaning: string -> Meaning)
    requires k > 0 && Decides(lines, captured, k, meaning)
    ensures meaning(lines[0]) == Silent && captured < STREAM_LIMIT
    ensures Decides(lines[1..], captured + |lines[0]|, k - 1, meaning)
  {
    assert lines == [lines[0]] + lines[1..];
    OffsetShifts(lines[0], lines[1..], k - 1);
    assert meaning(lines[0]) == Silent;
    assert forall j | 0 <= j < k - 1 :: lines[1..][j] == lines[j + 1];
  }

  /** The verdict is that of the first line that says anything, among those starting within the limit. */
  lemma {:induction false} DecisionIsVerdict(lines: seq<string>, end: End, captured: nat, k: nat,
                                             meaning: string -> Meaning)
    requires Decides(lines, captured, k, meaning)
    ensures LinesOutcome(lines, end, captured, meaning)
         == match meaning(lines[k]) case Fails(p, status) => Failed(p, status) case _ => Passed
    decreases k
  {
    if k > 0 {
      DecidesLater(lines, captured, k, meaning);
      DecisionIsVerdict(lines[1..], end, captured + |lines[0]|, k - 1, meaning);
      hide Decides;
      assert lines[1..][k - 1] == lines[k];
    }
  }

  lemma SilentLater(lines: seq<string>, captured: nat, meaning: string -> Meaning)
    requires lines != [] && AllSilent(lines, captured, meaning) && captured < STREAM_LIMIT
    ensures meaning(lines[0]) == Silent && AllSilent(lines[1..], captured + |lines[0]|, meaning)
  {
    assert Offset(lines, 0) == 0;
    assert lines == [lines[0]] + lines[1..];
    forall k | 0 <= k < |lines| - 1 && captured + |lines[0]| + Offset(lines[1..], k) < STREAM_LIMIT
      ensures meaning(lines[1..][k]) == Silent
    {
      OffsetShifts(lines[0], lines[1..], k);
      assert lines[1..][k] == lines[k + 1];
    }
  }

  /** If no line that is looked at says anything it passes, unless the body breaks off within the limit. */
  lemma {:induction false} SilenceIsVerdict(lines: seq<string>, end: End, captured: nat, meaning: string -> Meaning)
    requires lines != [] && AllSilent(lines, captured, meaning)
    ensures LinesOutcome(lines, end, captured, meaning)
         == if end == Broken && captured + Offset(lines, |lines| - 1) < 524288 then ReadError else Passed
  {
    hide AllSilent;
    assert Offset(lines, 0) == 0;
    if captured < STREAM_LIMIT {
      SilentLater(lines, captured, meaning);
      if |lines| > 1 {
        var rest := lines[1..];
        OffsetShifts(lines[0], rest, |rest| - 1);
        assert lines == [lines[0]] + rest;
        hide Offset;
        SilenceIsVerdict(rest, end, captured + |lines[0]|, meaning);
      }
    }
  }

  lemma {:induction false} OffsetGrows(lines: seq<string>, j: nat, k: nat)
    requires j <= k <= |lines|
    ensures Offset(lines, j) <= Offset(lines, k)
    decreases k
  {
    if j < k { OffsetGrows(lines, j, k - 1); }
  }

  /** Every stream has a deciding line or none that is looked at says anything. */
  lemma {:induction false} FirstThatSpeaks(lines: seq<string>, captured: nat, n: nat, meaning: string -> Meaning)
    returns (k: nat)
    requires n <= |lines|
    requires forall j | 0 <= j < |lines| - n :: meaning(lines[j]) == Silent
    ensures Decides(lines, captured, k, meaning) || AllSilent(lines, captured, meaning)
    decreases n
  {
    k := |lines| - n;
    if n > 0 {
      if meaning(lines[k]) == Silent {
        k := FirstThatSpeaks(lines, captured, n - 1, meaning);
      } else if captured + Offset(lines, k) >= STREAM_LIMIT {
        forall j | 0 <= j < |lines| && captured + Offset(lines, j) < STREAM_LIMIT ensures meaning(lines[j]) == Silent {
          if j >= k { OffsetGrows(lines, k, j); }
        }
      }
    }
  }

  /** The first line that says anything, within the first 512 KiB, is k, and it carries this failure. */
  ghost predicate FailsAt(s: string, k: nat, meaning: string -> Meaning, p: string, status: int) {
    Decides(Lines(s), 0, k, meaning) && meaning(Lines(s)[k]) == Fails(p, status)
  }

  lemma FailureWasFirst(s: string, end: End, meaning: string -> Meaning) returns (k: nat)
    requires Outcome(s, end, 0, meaning).Failed?
    ensures var v := Outcome(s, end, 0, meaning); FailsAt(s, k, meaning, v.payload, v.status)
  {
    hide Outcome, LinesOutcome, Lines, AllSilent;
    OutcomeByLines(s, end, 0, meaning);
    k := FirstThatSpeaks(Lines(s), 0, |Lines(s)|, meaning);
    if Decides(Lines(s), 0, k, meaning) {
      DecisionIsVerdict(Lines(s), end, 0, k, meaning);
    } else {
      SilenceIsVerdict(Lines(s), end, 0, meaning);
    }
  }

  /** A failure is reported from an event stream exactly when some event within the first 512 KiB carries it
      and no earlier line ended the stream or showed the user anything. */
  lemma FailureIffNothingShown(s: string, end: End, meaning: string -> Meaning, p: string, status: int)
    ensures Outcome(s, end, 0, meaning) == Failed(p, status) <==> exists k: nat :: FailsAt(s, k, meaning, p, status)
  {
    forall k: nat | FailsAt(s, k, meaning, p, status) ensures Outcome(s, end, 0, meaning) == Failed(p, status) {
      OutcomeByLines(s, end, 0, meaning);
      DecisionIsVerdict(Lines(s), end, 0, k, meaning);
      hide Outcome, LinesOutcome, Lines;
    }
    hide Outcome, FailsAt;
    if Outcome(s, end, 0, meaning) == Failed(p, status) {
      var k := FailureWasFirst(s, end, meaning);
    }
  }

  /** In particular nothing up to the failure was visible content or the end of the stream. */
  lemma FailureHidesNothing(s: string, end: End, decode: string -> Option<Value>, failure: string -> int)
    returns (k: nat)
    requires Outcome(s, end, 0, Meanings(decode, failure)).Failed?
    ensures k < |Lines(s)| && Payload(Lines(s)[k]) == Some(Outcome(s, end, 0, Meanings(decode, failure)).payload)
    ensures var v := Outcome(s, end, 0, Meanings(decode, failure)); failure(v.payload) == v.status != 0
    ensures forall j | 0 <= j <= k && Payload(Lines(s)[j]).Some? ::
              Payload(Lines(s)[j]).value != "[DONE]" && !Visible(decode(Payload(Lines(s)[j]).value))
  {
    hide Outcome, Payload, Visible, Lines;
    var meaning := Meanings(decode, failure);
    k := FailureWasFirst(s, end, meaning);
    forall j | 0 <= j <= k && Payload(Lines(s)[j]).Some?
      ensures Payload(Lines(s)[j]).value != "[DONE]" && !Visible(decode(Payload(Lines(s)[j]).value))
    {
      assert j < k ==> meaning(Lines(s)[j]) == Silent;
    }
  }
}
