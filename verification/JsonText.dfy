/** The JSON repairer and the JSON extractor for generated files (cmd/api/file_artifacts.go).

  Both are character machines.  They are proved against a printer that lays out any JSON value
  (RFC 8259, sections 2 to 7) with arbitrary insignificant whitespace and, where asked, a trailing
  comma after the last element of a container.
 */
module JsonText {
  import opened Wrappers
  import opened Text

  /** Where a scanner stands relative to string literals. */
  datatype Mode = Outside | Inside | Escaped

  function Next(mode: Mode, c: char): Mode {
    match mode
    case Outside => if c == '"' then Inside else Outside
    case Inside => if c == '\\' then Escaped else if c == '"' then Outside else Inside
    case Escaped => Inside
  }

  function ModeOf(inString: bool, escaped: bool): Mode {
    if !inString then Outside else if escaped then Escaped else Inside
  }

  predicate IsPad(c: char) {
    c == ' ' || c == '\n' || c == '\r' || c == '\t'
  }

  predicate IsOpener(c: char) {
    c == '{' || c == '['
  }

  predicate IsCloser(c: char) {
    c == '}' || c == ']'
  }

  // ------------------------------------------------------- the two machines

  function PadLength(s: string): (n: nat)
    ensures n <= |s|
  {
    if s != [] && IsPad(s[0]) then 1 + PadLength(s[1..]) else 0
  }

  /** The next significant character is a closing bracket. */
  predicate ClosesNext(s: string) {
    PadLength(s) < |s| && IsCloser(s[PadLength(s)])
  }

  /** What the repairer still has to write when s is left to read. */
  function Repaired(s: string, mode: Mode): string {
    if s == [] then []
    else if mode.Outside? && s[0] == ',' && ClosesNext(s[1..]) then Repaired(s[1..], Outside)
    else [s[0]] + Repaired(s[1..], Next(mode, s[0]))
  }

  lemma PadStep(s: string, j: nat)
    requires j < |s| && IsPad(s[j])
    ensures PadLength(s[j..]) == 1 + PadLength(s[j + 1..])
  {
    assert s[j..][1..] == s[j + 1..];
  }

  lemma RepairedStep(s: string, i: nat, mode: Mode)
    requires i < |s|
    ensures Repaired(s[i..], mode) ==
            if mode.Outside? && s[i] == ',' && ClosesNext(s[i + 1..]) then Repaired(s[i + 1..], Outside)
            else [s[i]] + Repaired(s[i + 1..], Next(mode, s[i]))
  {
    assert s[i..][1..] == s[i + 1..];
  }

  lemma ClosesAt(s: string, i: nat, j: nat)
    requires i <= j <= |s| && PadLength(s[i..]) == j - i + PadLength(s[j..]) && (j == |s| || !IsPad(s[j]))
    ensures ClosesNext(s[i..]) <==> j < |s| && IsCloser(s[j])
  {
  }

  method RemoveGeneratedJSONTrailingCommas(content: string) returns (out: string)
    ensures out == Repaired(content, Outside)
  {
    hide Repaired, ClosesNext, IsPad, PadLength;
    out := [];
    var inString, escaped := false, false;
    var i := 0;
    assert content[0..] == content;
    while i < |content|
      invariant 0 <= i <= |content|
      invariant escaped ==> inString
      invariant out + Repaired(content[i..], ModeOf(inString, escaped)) == Repaired(content, Outside)
    {
      var c := content[i];
      RepairedStep(content, i, ModeOf(inString, escaped));
      var drop := false;
      if !inString && c == ',' {
        var j := i + 1;
        while j < |content| && IsPad(content[j])
          invariant i + 1 <= j <= |content|
          invariant PadLength(content[i + 1..]) == j - (i + 1) + PadLength(content[j..])
        {
          PadStep(content, j);
          j := j + 1;
        }
        ClosesAt(content, i + 1, j);
        drop := j < |content| && IsCloser(content[j]);
      }
      if !drop {
        out := out + [c];
        if inString {
          if escaped {
            escaped := false;
          } else if c == '\\' {
            escaped := true;
          } else if c == '"' {
            inString := false;
          }
        } else if c == '"' {
          inString := true;
        }
      }
      i := i + 1;
    }
    RepairedNothing(content[i..], ModeOf(inString, escaped));
  }

  lemma RepairedNothing(s: string, mode: Mode)
    requires s == []
    ensures Repaired(s, mode) == []
  {
  }

  /** Length of the balanced text at the front of s, if the scan reaches depth zero. */
  function Balanced(s: string, depth: int, mode: Mode): (end: Option<nat>)
    ensures end.Some? ==> end.value <= |s|
  {
    if s == [] then None
    else if mode.Outside? && IsCloser(s[0]) && depth <= 1 then
      if depth == 1 then Some(1) else None
    else
      var deeper := if !mode.Outside? then depth
                    else if IsOpener(s[0]) then depth + 1
                    else if IsCloser(s[0]) then depth - 1
                    else depth;
      Shift(1, Balanced(s[1..], deeper, Next(mode, s[0])))
  }

  function Shift(n: nat, end: Option<nat>): Option<nat> {
    match end
    case None => None
    case Some(m) => Some(n + m)
  }

  function FirstOpener(s: string): (n: nat)
    ensures n <= |s|
    ensures n < |s| ==> IsOpener(s[n])
    ensures forall k | 0 <= k < n :: !IsOpener(s[k])
  {
    if s == [] || IsOpener(s[0]) then 0 else 1 + FirstOpener(s[1..])
  }

  function Extracted(content: string): string {
    var text := TrimSpace(content);
    var start := FirstOpener(text);
    if start == |text| then ""
    else
      match Balanced(text[start..], 0, Outside)
      case None => ""
      case Some(n) => TrimSpace(text[start..start + n])
  }

  /** The scan position left by reading one more character. */
  lemma BalancedStep(text: string, i: nat, depth: int, mode: Mode)
    requires i < |text|
    ensures var c := text[i];
            Balanced(text[i..], depth, mode) ==
            if mode.Outside? && IsCloser(c) && depth <= 1 then (if depth == 1 then Some(1) else None)
            else
              var deeper := if !mode.Outside? then depth
                            else if IsOpener(c) then depth + 1
                            else if IsCloser(c) then depth - 1
                            else depth;
              Shift(1, Balanced(text[i + 1..], deeper, Next(mode, c)))
  {
    assert text[i..][1..] == text[i + 1..];
  }

  method ExtractGeneratedJSONCandidate(content: string) returns (candidate: string)
    ensures candidate == Extracted(content)
  {
    hide Balanced, TrimSpace;
    var text := TrimSpace(content);
    var start := 0;
    while start < |text| && !IsOpener(text[start])
      invariant 0 <= start <= |text|
      invariant forall k | 0 <= k < start :: !IsOpener(text[k])
    {
      start := start + 1;
    }
    assert start == FirstOpener(text);
    hide FirstOpener;
    if start == |text| { return ""; }
    var depth, inString, escaped := 0, false, false;
    ghost var whole := Balanced(text[start..], 0, Outside);
    for i := start to |text|
      invariant escaped ==> inString
      invariant depth >= 0
      invariant whole == Shift(i - start, Balanced(text[i..], depth, ModeOf(inString, escaped)))
    {
      var c := text[i];
      BalancedStep(text, i, depth, ModeOf(inString, escaped));
      if inString {
        if escaped {
          escaped := false;
        } else if c == '\\' {
          escaped := true;
        } else if c == '"' {
          inString := false;
        }
      } else if c == '"' {
        inString := true;
      } else if IsOpener(c) {
        depth := depth + 1;
      } else if IsCloser(c) {
        depth := depth - 1;
        if depth == 0 {
          return TrimSpace(text[start..i + 1]);
        }
        if depth < 0 {
          return "";
        }
      }
    }
    BalancedEnd(depth, ModeOf(inString, escaped));
    assert text[|text|..] == [];
    return "";
  }

  lemma BalancedEnd(depth: int, mode: Mode)
    ensures Balanced([], depth, mode) == None
  {
  }

  // ------------------------------------------------------- a printer for JSON

  /** One unit of a string literal: a character that stands for itself, or a backslash and the
      character it escapes (the hex digits of a \u escape are plain glyphs after it). */
  datatype Glyph = Plain(c: char) | Escape(c: char)

  datatype Value =
    | Scalar(text: string)
    | Literal(glyphs: seq<Glyph>)
    | Container(keyed: bool, body: Body)

  datatype Body = Blank(pad: string) | Filled(first: Item, rest: Rest)

  datatype Item = Item(before: string, key: Option<Key>, value: Value, after: string)

  datatype Key = Key(glyphs: seq<Glyph>, beforeColon: string, afterColon: string)

  /** What follows an element; Close(Some(pad)) is where a trailing comma may stand. */
  datatype Rest = Close(trailing: Option<string>) | More(item: Item, rest: Rest)

  predicate PadOk(pad: string) {
    forall k | 0 <= k < |pad| :: pad[k] == ' ' || pad[k] == '\n' || pad[k] == '\r' || pad[k] == '\t'
  }

  /** true, false, null and the characters of RFC 8259 numbers. */
  predicate ScalarOk(text: string) {
    text != [] && forall k | 0 <= k < |text| ::
      var c := text[k]; 'a' <= c <= 'z' || 'A' <= c <= 'Z' || '0' <= c <= '9' || c == '+' || c == '-' || c == '.'
  }

  predicate GlyphsOk(glyphs: seq<Glyph>) {
    forall k | 0 <= k < |glyphs| :: glyphs[k].Plain? ==> glyphs[k].c != '"' && glyphs[k].c != '\\'
  }

  predicate ValueOk(v: Value) {
    match v
    case Scalar(text) => ScalarOk(text)
    case Literal(glyphs) => GlyphsOk(glyphs)
    case Container(keyed, body) => BodyOk(body, keyed)
  }

  predicate BodyOk(b: Body, keyed: bool) {
    match b
    case Blank(pad) => PadOk(pad)
    case Filled(first, rest) => ItemOk(first, keyed) && RestOk(rest, keyed)
  }

  predicate ItemOk(item: Item, keyed: bool) {
    && PadOk(item.before) && PadOk(item.after) && ValueOk(item.value)
    && item.key.Some? == keyed
    && (item.key.Some? ==>
          GlyphsOk(item.key.value.glyphs) && PadOk(item.key.value.beforeColon) && PadOk(item.key.value.afterColon))
  }

  predicate RestOk(r: Rest, keyed: bool) {
    match r
    case Close(trailing) => trailing.Some? ==> PadOk(trailing.value)
    case More(item, rest) => ItemOk(item, keyed) && RestOk(rest, keyed)
  }

  function Spell(glyphs: seq<Glyph>): string {
    if glyphs == [] then []
    else (match glyphs[0] case Plain(c) => [c] case Escape(c) => ['\\', c]) + Spell(glyphs[1..])
  }

  function Quote(glyphs: seq<Glyph>): string {
    "\"" + Spell(glyphs) + "\""
  }

  function Opening(keyed: bool): string { if keyed then "{" else "[" }

  function Closing(keyed: bool): string { if keyed then "}" else "]" }

  /** The text of v; commas says whether the trailing commas are written. */
  function Print(v: Value, commas: bool): string {
    match v
    case Scalar(text) => text
    case Literal(glyphs) => Quote(glyphs)
    case Container(keyed, body) => Opening(keyed) + PrintBody(body, commas) + Closing(keyed)
  }

  function PrintBody(b: Body, commas: bool): string {
    match b
    case Blank(pad) => pad
    case Filled(first, rest) => PrintItem(first, commas) + PrintRest(rest, commas)
  }

  function PrintKey(key: Option<Key>): string {
    match key
    case None => ""
    case Some(k) => Quote(k.glyphs) + k.beforeColon + ":" + k.afterColon
  }

  function PrintItem(item: Item, commas: bool): string {
    item.before + PrintKey(item.key) + Print(item.value, commas) + item.after
  }

  function PrintRest(r: Rest, commas: bool): string {
    match r
    case Close(None) => ""
    case Close(Some(pad)) => (if commas then "," else "") + pad
    case More(item, rest) => "," + PrintItem(item, commas) + PrintRest(rest, commas)
  }

  // ------------------------------------------------------------ the repairer

  /** Outside a string literal the repairer turns the fragment p into q, whatever follows. */
  ghost predicate Rewrites(p: string, q: string) {
    forall rest :: Repaired(p + rest, Outside) == q + Repaired(rest, Outside)
  }

  lemma RewritesJoin(p: string, q: string, p': string, q': string)
    requires Rewrites(p, q) && Rewrites(p', q')
    ensures Rewrites(p + p', q + q')
  {
    forall rest ensures Repaired((p + p') + rest, Outside) == (q + q') + Repaired(rest, Outside) {
      assert (p + p') + rest == p + (p' + rest);
      assert (q + q') + Repaired(rest, Outside) == q + (q' + Repaired(rest, Outside));
    }
  }

  lemma {:induction false} CopyStep(p: string, rest: string)
    requires forall k | 0 <= k < |p| :: p[k] != ',' && p[k] != '"'
    ensures Repaired(p + rest, Outside) == p + Repaired(rest, Outside)
  {
    if p == [] {
      assert p + rest == rest;
    } else {
      assert (p + rest)[1..] == p[1..] + rest;
      CopyStep(p[1..], rest);
    }
  }

  /** Characters that neither open a string nor can be a trailing comma are copied. */
  lemma RepairCopies(p: string)
    requires forall k | 0 <= k < |p| :: p[k] != ',' && p[k] != '"'
    ensures Rewrites(p, p)
  {
    forall rest { CopyStep(p, rest); }
  }

  lemma {:induction false} RepairSpelling(glyphs: seq<Glyph>, rest: string)
    requires GlyphsOk(glyphs)
    ensures Repaired(Spell(glyphs) + "\"" + rest, Inside) == Spell(glyphs) + "\"" + Repaired(rest, Outside)
  {
    hide Repaired;
    var text := Spell(glyphs) + "\"" + rest;
    if glyphs == [] {
      assert text == "\"" + rest;
      RepairQuoteEnd(rest);
    } else {
      var tail := Spell(glyphs[1..]) + "\"" + rest;
      RepairSpelling(glyphs[1..], rest);
      match glyphs[0] {
        case Plain(c) =>
          assert text == [c] + tail;
          RepairPlain(c, tail);
        case Escape(c) =>
          assert text == ['\\', c] + tail;
          RepairEscape(c, tail);
      }
    }
  }

  lemma RepairQuoteEnd(rest: string)
    ensures Repaired("\"" + rest, Inside) == "\"" + Repaired(rest, Outside)
  {
    assert ("\"" + rest)[1..] == rest;
  }

  lemma RepairPlain(c: char, tail: string)
    requires c != '"' && c != '\\'
    ensures Repaired([c] + tail, Inside) == [c] + Repaired(tail, Inside)
  {
    assert ([c] + tail)[1..] == tail;
  }

  lemma RepairEscape(c: char, tail: string)
    ensures Repaired(['\\', c] + tail, Inside) == ['\\', c] + Repaired(tail, Inside)
  {
    var text := ['\\', c] + tail;
    assert text[1..] == [c] + tail && ([c] + tail)[1..] == tail;
    assert Repaired([c] + tail, Escaped) == [c] + Repaired(tail, Inside);
  }

  lemma RepairQuote(glyphs: seq<Glyph>)
    requires GlyphsOk(glyphs)
    ensures Rewrites(Quote(glyphs), Quote(glyphs))
  {
    forall rest ensures Repaired(Quote(glyphs) + rest, Outside) == Quote(glyphs) + Repaired(rest, Outside) {
      assert (Quote(glyphs) + rest)[1..] == Spell(glyphs) + "\"" + rest;
      RepairSpelling(glyphs, rest);
    }
  }

  lemma {:induction false} PadSkips(pad: string, s: string)
    requires PadOk(pad)
    ensures PadLength(pad + s) == |pad| + PadLength(s)
  {
    if pad == [] {
      assert pad + s == s;
    } else {
      assert (pad + s)[1..] == pad[1..] + s;
      PadSkips(pad[1..], s);
    }
  }

  /** The key, if any, and the value: what starts the significant text of an element. */
  function PrintEntry(item: Item, commas: bool): string {
    PrintKey(item.key) + Print(item.value, commas)
  }

  lemma EntryStarts(item: Item, keyed: bool, commas: bool)
    requires ItemOk(item, keyed)
    ensures PrintEntry(item, commas) != []
    ensures var c := PrintEntry(item, commas)[0]; !IsPad(c) && !IsCloser(c)
  {
    match item.value
    case Scalar(text) => assert Print(item.value, commas)[0] == text[0];
    case Literal(glyphs) => assert Print(item.value, commas)[0] == '"';
    case Container(inner, body) => assert Print(item.value, commas)[0] == Opening(inner)[0];
  }

  /** A comma before an element is kept: the element does not start with a closing bracket. */
  lemma SeparatorIsKept(item: Item, keyed: bool, commas: bool, q: string)
    requires ItemOk(item, keyed) && Rewrites(PrintItem(item, commas), q)
    ensures Rewrites("," + PrintItem(item, commas), "," + q)
  {
    hide ItemOk, PrintItem, ClosesNext;
    forall rest
      ensures Repaired(("," + PrintItem(item, commas)) + rest, Outside) == ("," + q) + Repaired(rest, Outside)
    {
      NoCloserAhead(item, keyed, commas, rest);
      var text := PrintItem(item, commas) + rest;
      assert ("," + PrintItem(item, commas)) + rest == "," + text && ("," + text)[1..] == text;
      assert Repaired(text, Outside) == q + Repaired(rest, Outside);
    }
  }

  lemma NoCloserAhead(item: Item, keyed: bool, commas: bool, rest: string)
    requires ItemOk(item, keyed)
    ensures !ClosesNext(PrintItem(item, commas) + rest)
  {
    EntryStarts(item, keyed, commas);
    var entry := PrintEntry(item, commas);
    var s := entry + (item.after + rest);
    var text := PrintItem(item, commas) + rest;
    assert text == item.before + s;
    PadSkips(item.before, s);
    assert s[0] == entry[0];
    assert PadLength(s) == 0 && text[|item.before|] == s[0];
  }

  lemma DropStep(pad: string, keyed: bool, rest: string)
    requires PadOk(pad)
    ensures Repaired("," + (pad + (Closing(keyed) + rest)), Outside) == Repaired(pad + (Closing(keyed) + rest), Outside)
  {
    var close := Closing(keyed) + rest;
    var text := "," + (pad + close);
    assert text[1..] == pad + close;
    PadSkips(pad, close);
    assert PadLength(close) == 0 && (pad + close)[|pad|] == close[0];
  }

  /** A comma before the closing bracket is dropped, and only the comma. */
  lemma TrailingCommaIsDropped(pad: string, keyed: bool)
    requires PadOk(pad)
    ensures Rewrites("," + pad + Closing(keyed), pad + Closing(keyed))
  {
    var end := pad + Closing(keyed);
    forall rest ensures Repaired(("," + pad + Closing(keyed)) + rest, Outside) == end + Repaired(rest, Outside) {
      assert ("," + pad + Closing(keyed)) + rest == "," + (pad + (Closing(keyed) + rest));
      DropStep(pad, keyed, rest);
      assert pad + (Closing(keyed) + rest) == end + rest;
      CopyStep(end, rest);
    }
  }

  lemma {:induction false} RepairValue(v: Value, commas: bool)
    requires ValueOk(v)
    ensures Rewrites(Print(v, commas), Print(v, false))
    decreases v
  {
    hide Rewrites;
    match v
    case Scalar(text) => RepairCopies(text);
    case Literal(glyphs) => RepairQuote(glyphs);
    case Container(keyed, body) =>
      RepairCopies(Opening(keyed));
      RepairBody(body, keyed, commas);
      RewritesJoin(Opening(keyed), Opening(keyed), PrintBody(body, commas) + Closing(keyed),
                   PrintBody(body, false) + Closing(keyed));
      assert Print(v, commas) == Opening(keyed) + (PrintBody(body, commas) + Closing(keyed));
      assert Print(v, false) == Opening(keyed) + (PrintBody(body, false) + Closing(keyed));
  }

  lemma {:induction false} RepairBody(b: Body, keyed: bool, commas: bool)
    requires BodyOk(b, keyed)
    ensures Rewrites(PrintBody(b, commas) + Closing(keyed), PrintBody(b, false) + Closing(keyed))
    decreases b
  {
    hide Rewrites;
    match b
    case Blank(pad) => RepairCopies(pad + Closing(keyed));
    case Filled(first, rest) =>
      RepairItem(first, keyed, commas);
      RepairRest(rest, keyed, commas);
      RewritesJoin(PrintItem(first, commas), PrintItem(first, false), PrintRest(rest, commas) + Closing(keyed),
                   PrintRest(rest, false) + Closing(keyed));
      assert PrintBody(b, commas) + Closing(keyed) ==
             PrintItem(first, commas) + (PrintRest(rest, commas) + Closing(keyed));
      assert PrintBody(b, false) + Closing(keyed) ==
             PrintItem(first, false) + (PrintRest(rest, false) + Closing(keyed));
  }

  lemma RepairKey(key: Option<Key>)
    requires key.Some? ==> GlyphsOk(key.value.glyphs) && PadOk(key.value.beforeColon) && PadOk(key.value.afterColon)
    ensures Rewrites(PrintKey(key), PrintKey(key))
  {
    hide Rewrites;
    match key
    case None => RepairCopies("");
    case Some(k) =>
      var colon := k.beforeColon + ":" + k.afterColon;
      RepairQuote(k.glyphs);
      RepairCopies(colon);
      RewritesJoin(Quote(k.glyphs), Quote(k.glyphs), colon, colon);
      assert PrintKey(key) == Quote(k.glyphs) + colon;
  }

  lemma {:induction false} RepairItem(item: Item, keyed: bool, commas: bool)
    requires ItemOk(item, keyed)
    ensures Rewrites(PrintItem(item, commas), PrintItem(item, false))
    decreases item
  {
    hide Rewrites;
    RepairCopies(item.before);
    RepairKey(item.key);
    RewritesJoin(item.before, item.before, PrintKey(item.key), PrintKey(item.key));
    var head := item.before + PrintKey(item.key);
    RepairValue(item.value, commas);
    RewritesJoin(head, head, Print(item.value, commas), Print(item.value, false));
    RepairCopies(item.after);
    RewritesJoin(head + Print(item.value, commas), head + Print(item.value, false), item.after, item.after);
  }

  lemma {:induction false} RepairRest(r: Rest, keyed: bool, commas: bool)
    requires RestOk(r, keyed)
    ensures Rewrites(PrintRest(r, commas) + Closing(keyed), PrintRest(r, false) + Closing(keyed))
    decreases r
  {
    hide Rewrites;
    match r
    case Close(None) => RepairCopies(PrintRest(r, commas) + Closing(keyed));
    case Close(Some(pad)) =>
      assert PrintRest(r, false) == pad;
      if commas {
        TrailingCommaIsDropped(pad, keyed);
      } else {
        RepairCopies(pad + Closing(keyed));
      }
    case More(item, tail) =>
      RepairItem(item, keyed, commas);
      SeparatorIsKept(item, keyed, commas, PrintItem(item, false));
      RepairRest(tail, keyed, commas);
      RewritesJoin("," + PrintItem(item, commas), "," + PrintItem(item, false),
                   PrintRest(tail, commas) + Closing(keyed), PrintRest(tail, false) + Closing(keyed));
      assert PrintRest(r, commas) + Closing(keyed) ==
             ("," + PrintItem(item, commas)) + (PrintRest(tail, commas) + Closing(keyed));
      assert PrintRest(r, false) + Closing(keyed) ==
             ("," + PrintItem(item, false)) + (PrintRest(tail, false) + Closing(keyed));
  }

  lemma RewritesWhole(p: string, q: string)
    requires Rewrites(p, q)
    ensures Repaired(p, Outside) == q
  {
    assert p + [] == p;
    assert Repaired(p + [], Outside) == q + Repaired([], Outside);
  }

  /** Repair round trip: from any printed JSON text, with or without trailing commas, the repairer
      returns the same text without them.  With commas == false it is the identity on valid JSON. */
  lemma RepairRoundTrip(lead: string, v: Value, trail: string, commas: bool)
    requires ValueOk(v) && PadOk(lead) && PadOk(trail)
    ensures Repaired(lead + Print(v, commas) + trail, Outside) == lead + Print(v, false) + trail
  {
    hide Rewrites, Repaired;
    RepairCopies(lead);
    RepairValue(v, commas);
    RepairCopies(trail);
    RewritesJoin(lead, lead, Print(v, commas), Print(v, false));
    RewritesJoin(lead + Print(v, commas), lead + Print(v, false), trail, trail);
    RewritesWhole(lead + Print(v, commas) + trail, lead + Print(v, false) + trail);
  }

  /** On arbitrary text one pass need not be enough: a doubled comma leaves a new trailing comma. */
  lemma RepairIsNotIdempotent()
    ensures Repaired("[1,,]", Outside) == "[1,]"
    ensures Repaired("[1,]", Outside) == "[1]"
  {
    CopyStep("[1", ",,]");
    CopyStep("[1", ",]");
    CopyStep("]", "");
    assert "[1" + ",,]" == "[1,,]" && "[1" + ",]" == "[1,]";
    assert ",,]"[1..] == ",]" && ",]"[1..] == "]" && "]"[1..] == "";
    assert PadLength(",]") == 0 && PadLength("]") == 0;
    assert "]" + "" == "]";
    assert Repaired(",]", Outside) == "]";
    assert Repaired(",,]", Outside) == ",]";
  }

  // ----------------------------------------- when a second repair changes nothing

  function RunLength(s: string): (n: nat)
    ensures n <= |s|
  {
    if s != [] && (IsPad(s[0]) || s[0] == ',') then 1 + RunLength(s[1..]) else 0
  }

  /** s starts with a run of pads and commas, at least one comma among them, that ends at a closing bracket. */
  predicate MoreCommas(s: string) {
    var n := RunLength(s);
    n < |s| && IsCloser(s[n]) && ',' in s[..n]
  }

  /** Where the scanner stands after i characters. */
  function ModeAt(s: string, i: nat, mode: Mode): Mode
    requires i <= |s|
  {
    if i == 0 then mode else ModeAt(s[1..], i - 1, Next(mode, s[0]))
  }

  predicate DoubledAt(s: string, i: nat, mode: Mode)
    requires i < |s|
  {
    ModeAt(s, i, mode).Outside? && s[i] == ',' && MoreCommas(s[i + 1..])
  }

  /** No comma outside a string literal is followed by another on the way to a closing bracket. */
  predicate Single(s: string, mode: Mode) {
    forall i | 0 <= i < |s| :: !DoubledAt(s, i, mode)
  }

  predicate Dropped(s: string, mode: Mode) {
    s != [] && mode.Outside? && s[0] == ',' && ClosesNext(s[1..])
  }

  predicate NothingDropped(s: string, mode: Mode) {
    s == [] || (!Dropped(s, mode) && NothingDropped(s[1..], Next(mode, s[0])))
  }

  lemma SingleStep(s: string, mode: Mode)
    requires s != []
    ensures Single(s, mode) <==>
            !(mode.Outside? && s[0] == ',' && MoreCommas(s[1..])) && Single(s[1..], Next(mode, s[0]))
  {
    hide MoreCommas;
    var rest := s[1..];
    assert DoubledAt(s, 0, mode) <==> mode.Outside? && s[0] == ',' && MoreCommas(s[1..]);
    forall i | 0 <= i < |rest| ensures DoubledAt(rest, i, Next(mode, s[0])) <==> DoubledAt(s, i + 1, mode) {
      assert rest[i + 1..] == s[i + 2..];
    }
    if Single(s, mode) {
      forall i | 0 <= i < |rest| ensures !DoubledAt(rest, i, Next(mode, s[0])) { assert !DoubledAt(s, i + 1, mode); }
    }
    if !DoubledAt(s, 0, mode) && Single(rest, Next(mode, s[0])) {
      forall i | 0 <= i < |s| ensures !DoubledAt(s, i, mode) {
        if i > 0 { assert !DoubledAt(rest, i - 1, Next(mode, s[0])); }
      }
    }
  }

  lemma {:induction false} UnchangedIff(s: string, mode: Mode)
    ensures |Repaired(s, mode)| <= |s|
    ensures Repaired(s, mode) == s <==> NothingDropped(s, mode)
  {
    hide ClosesNext;
    if s != [] {
      UnchangedIff(s[1..], Next(mode, s[0]));
      assert s == [s[0]] + s[1..];
      if Dropped(s, mode) { assert Next(mode, s[0]) == Outside; }
    }
  }

  lemma {:induction false} ClosesStill(s: string)
    requires ClosesNext(s)
    ensures ClosesNext(Repaired(s, Outside))
  {
    if IsPad(s[0]) {
      ClosesStill(s[1..]);
      EmitStep(s[0], Repaired(s[1..], Outside));
    } else {
      EmitStep(s[0], Repaired(s[1..], Next(Outside, s[0])));
    }
  }

  lemma EmitStep(c: char, s: string)
    ensures ([c] + s)[1..] == s
    ensures ClosesNext([c] + s) <==> if IsPad(c) then ClosesNext(s) else IsCloser(c)
  {
    assert ([c] + s)[1..] == s;
  }

  /** A pad carries a run on, and so does a comma; the run through the rest closes in one way or the other. */
  lemma RunStep(s: string)
    requires s != []
    ensures IsPad(s[0]) ==> (ClosesNext(s) <==> ClosesNext(s[1..])) && (MoreCommas(s) <==> MoreCommas(s[1..]))
    ensures s[0] == ',' ==> !ClosesNext(s) && (MoreCommas(s) <==> ClosesNext(s[1..]) || MoreCommas(s[1..]))
    ensures !IsPad(s[0]) && s[0] != ',' ==> !MoreCommas(s) && (ClosesNext(s) <==> IsCloser(s[0]))
  {
    var rest := s[1..];
    if IsPad(s[0]) || s[0] == ',' {
      var n := RunLength(rest);
      assert s[..n + 1] == [s[0]] + rest[..n];
      PadsAreARun(rest);
    }
  }

  lemma {:induction false} PadsAreARun(s: string)
    ensures ClosesNext(s) <==> RunLength(s) < |s| && IsCloser(s[RunLength(s)]) && ',' !in s[..RunLength(s)]
  {
    if s != [] && (IsPad(s[0]) || s[0] == ',') {
      PadsAreARun(s[1..]);
      assert s[..RunLength(s)] == [s[0]] + s[1..][..RunLength(s[1..])];
    }
  }

  /** A kept comma comes to stand before a closing bracket exactly if all between them are dropped. */
  lemma {:induction false} ClosesAfterRepair(s: string)
    requires Single(s, Outside) && !ClosesNext(s)
    ensures ClosesNext(Repaired(s, Outside)) <==> MoreCommas(s)
  {
    hide Single, ClosesNext, MoreCommas;
    if s == [] {
      NothingCloses();
    } else {
      RunStep(s);
      SingleStep(s, Outside);
      EmitStep(s[0], Repaired(s[1..], Next(Outside, s[0])));
      if IsPad(s[0]) {
        ClosesAfterRepair(s[1..]);
      } else if Dropped(s, Outside) {
        ClosesStill(s[1..]);
      }
    }
  }

  lemma NothingCloses()
    ensures !ClosesNext([]) && !MoreCommas([])
  {
  }

  lemma {:induction false} NothingLeftIff(s: string, mode: Mode)
    ensures NothingDropped(Repaired(s, mode), mode) <==> Single(s, mode)
  {
    hide Single, ClosesNext, MoreCommas;
    if s == [] {
      NothingSingle(mode);
    } else {
      RunStep(s);
      SingleStep(s, mode);
      NothingLeftIff(s[1..], Next(mode, s[0]));
      if Dropped(s, mode) {
        ClosersDiffer(s[1..]);
      } else {
        var rest := Repaired(s[1..], Next(mode, s[0]));
        EmitStep(s[0], rest);
        if mode.Outside? && s[0] == ',' && Single(s[1..], Outside) { ClosesAfterRepair(s[1..]); }
      }
    }
  }

  lemma NothingSingle(mode: Mode)
    ensures Single([], mode)
  {
  }

  lemma ClosersDiffer(s: string)
    requires ClosesNext(s)
    ensures !MoreCommas(s)
  {
    PadsAreARun(s);
  }

  /** A second repair changes nothing exactly when no comma outside a string literal is followed by a run of pads
      and commas, with a comma in it, that ends at a closing bracket. */
  lemma RepairIsIdempotentIff(s: string)
    ensures Repaired(Repaired(s, Outside), Outside) == Repaired(s, Outside) <==> Single(s, Outside)
  {
    UnchangedIff(Repaired(s, Outside), Outside);
    NothingLeftIff(s, Outside);
  }

  // ----------------------------------------------------------- the extractor

  /** Inside some bracket, scanning the fragment p moves past it and changes neither the depth
      nor the string state. */
  ghost predicate Neutral(p: string) {
    forall rest, depth | depth >= 1 :: Balanced(p + rest, depth, Outside) == Shift(|p|, Balanced(rest, depth, Outside))
  }

  lemma NeutralJoin(p: string, p': string)
    requires Neutral(p) && Neutral(p')
    ensures Neutral(p + p')
  {
    hide Balanced;
    forall rest, depth | depth >= 1
      ensures Balanced((p + p') + rest, depth, Outside) == Shift(|p + p'|, Balanced(rest, depth, Outside))
    {
      assert (p + p') + rest == p + (p' + rest);
      assert Balanced(p + (p' + rest), depth, Outside) == Shift(|p|, Balanced(p' + rest, depth, Outside));
      assert Balanced(p' + rest, depth, Outside) == Shift(|p'|, Balanced(rest, depth, Outside));
    }
  }

  lemma {:induction false} ScanStep(p: string, rest: string, depth: int)
    requires forall k | 0 <= k < |p| :: p[k] != '"' && !IsOpener(p[k]) && !IsCloser(p[k])
    ensures Balanced(p + rest, depth, Outside) == Shift(|p|, Balanced(rest, depth, Outside))
  {
    if p == [] {
      assert p + rest == rest;
    } else {
      assert (p + rest)[1..] == p[1..] + rest;
      ScanStep(p[1..], rest, depth);
    }
  }

  lemma ScanCopies(p: string)
    requires forall k | 0 <= k < |p| :: p[k] != '"' && !IsOpener(p[k]) && !IsCloser(p[k])
    ensures Neutral(p)
  {
    forall rest, depth | depth >= 1 { ScanStep(p, rest, depth); }
  }

  lemma {:induction false} ScanSpelling(glyphs: seq<Glyph>, rest: string, depth: int)
    requires GlyphsOk(glyphs)
    ensures Balanced(Spell(glyphs) + "\"" + rest, depth, Inside)
            == Shift(|Spell(glyphs)| + 1, Balanced(rest, depth, Outside))
  {
    var text := Spell(glyphs) + "\"" + rest;
    if glyphs == [] {
      assert text[1..] == rest;
    } else {
      var tail := Spell(glyphs[1..]) + "\"" + rest;
      ScanSpelling(glyphs[1..], rest, depth);
      match glyphs[0] {
        case Plain(c) => assert text == [c] + tail; assert text[1..] == tail;
        case Escape(c) =>
          assert text == ['\\', c] + tail;
          assert text[1..][1..] == tail;
          assert Balanced(text[1..], depth, Escaped) == Shift(1, Balanced(tail, depth, Inside));
      }
    }
  }

  lemma ScanQuote(glyphs: seq<Glyph>)
    requires GlyphsOk(glyphs)
    ensures Neutral(Quote(glyphs))
  {
    forall rest, depth | depth >= 1
      ensures Balanced(Quote(glyphs) + rest, depth, Outside) == Shift(|Quote(glyphs)|, Balanced(rest, depth, Outside))
    {
      assert (Quote(glyphs) + rest)[1..] == Spell(glyphs) + "\"" + rest;
      ScanSpelling(glyphs, rest, depth);
    }
  }

  /** A bracketed neutral text: from depth 0 the scan ends at its closing bracket. */
  lemma ScanBracketed(keyed: bool, inner: string, rest: string, depth: int)
    requires Neutral(inner) && depth >= 0
    ensures var text := Opening(keyed) + inner + Closing(keyed);
            Balanced(text + rest, depth, Outside) ==
            if depth == 0 then Some(|text|) else Shift(|text|, Balanced(rest, depth, Outside))
  {
    hide Balanced, Neutral;
    var text := Opening(keyed) + inner + Closing(keyed);
    var close := Closing(keyed) + rest;
    assert text + rest == Opening(keyed) + (inner + close);
    ScanOpening(keyed, inner + close, depth);
    ScanNeutral(inner, close, depth + 1);
    ScanClosing(keyed, rest, depth + 1);
  }

  lemma ScanOpening(keyed: bool, rest: string, depth: int)
    requires depth >= 0
    ensures Balanced(Opening(keyed) + rest, depth, Outside) == Shift(1, Balanced(rest, depth + 1, Outside))
  {
    assert (Opening(keyed) + rest)[1..] == rest;
  }

  lemma ScanNeutral(inner: string, rest: string, depth: int)
    requires Neutral(inner) && depth >= 1
    ensures Balanced(inner + rest, depth, Outside) == Shift(|inner|, Balanced(rest, depth, Outside))
  {
    hide Balanced;
  }

  lemma ScanClosing(keyed: bool, rest: string, depth: int)
    requires depth >= 1
    ensures Balanced(Closing(keyed) + rest, depth, Outside) ==
            if depth == 1 then Some(1) else Shift(1, Balanced(rest, depth - 1, Outside))
  {
    assert (Closing(keyed) + rest)[1..] == rest;
  }

  /** Scanning a printed value restores depth and string state. */
  lemma {:induction false} ScanValue(v: Value, commas: bool)
    requires ValueOk(v)
    ensures Neutral(Print(v, commas))
    decreases v
  {
    match v
    case Scalar(text) => ScanCopies(text);
    case Literal(glyphs) => ScanQuote(glyphs);
    case Container(keyed, body) =>
      ScanBody(body, keyed, commas);
      forall rest, depth | depth >= 1 { ScanBracketed(keyed, PrintBody(body, commas), rest, depth); }
  }

  lemma {:induction false} ScanBody(b: Body, keyed: bool, commas: bool)
    requires BodyOk(b, keyed)
    ensures Neutral(PrintBody(b, commas))
    decreases b
  {
    hide Neutral;
    match b
    case Blank(pad) => ScanCopies(pad);
    case Filled(first, rest) =>
      ScanItem(first, keyed, commas);
      ScanRest(rest, keyed, commas);
      NeutralJoin(PrintItem(first, commas), PrintRest(rest, commas));
  }

  lemma ScanKey(key: Option<Key>)
    requires key.Some? ==> GlyphsOk(key.value.glyphs) && PadOk(key.value.beforeColon) && PadOk(key.value.afterColon)
    ensures Neutral(PrintKey(key))
  {
    hide Neutral;
    match key
    case None => ScanCopies("");
    case Some(k) =>
      var colon := k.beforeColon + ":" + k.afterColon;
      ScanQuote(k.glyphs);
      ScanCopies(colon);
      NeutralJoin(Quote(k.glyphs), colon);
      assert PrintKey(key) == Quote(k.glyphs) + colon;
  }

  lemma {:induction false} ScanItem(item: Item, keyed: bool, commas: bool)
    requires ItemOk(item, keyed)
    ensures Neutral(PrintItem(item, commas))
    decreases item
  {
    hide Neutral;
    ScanCopies(item.before);
    ScanKey(item.key);
    NeutralJoin(item.before, PrintKey(item.key));
    ScanValue(item.value, commas);
    NeutralJoin(item.before + PrintKey(item.key), Print(item.value, commas));
    ScanCopies(item.after);
    NeutralJoin(item.before + PrintKey(item.key) + Print(item.value, commas), item.after);
  }

  lemma {:induction false} ScanRest(r: Rest, keyed: bool, commas: bool)
    requires RestOk(r, keyed)
    ensures Neutral(PrintRest(r, commas))
    decreases r
  {
    hide Neutral;
    match r
    case Close(_) => ScanCopies(PrintRest(r, commas));
    case More(item, tail) =>
      ScanCopies(",");
      ScanItem(item, keyed, commas);
      NeutralJoin(",", PrintItem(item, commas));
      ScanRest(tail, keyed, commas);
      NeutralJoin("," + PrintItem(item, commas), PrintRest(tail, commas));
  }

  lemma {:induction false} FirstOpenerAfter(p: string, s: string)
    requires forall k | 0 <= k < |p| :: !IsOpener(p[k])
    requires s != [] && IsOpener(s[0])
    ensures FirstOpener(p + s) == |p|
  {
    if p == [] {
      assert p + s == s;
    } else {
      assert (p + s)[1..] == p[1..] + s;
      FirstOpenerAfter(p[1..], s);
    }
  }

  /** Extraction: whatever surrounds it, a printed object or array is cut out exactly, provided
      nothing before it opens a bracket. */
  lemma ExtractsThePrintedValue(prefix: string, v: Value, suffix: string, commas: bool)
    requires ValueOk(v) && v.Container?
    requires forall c | c in prefix :: !IsOpener(c)
    ensures Extracted(prefix + Print(v, commas) + suffix) == Print(v, commas)
  {
    hide PrintBody, Neutral, Balanced, TrimLeft, TrimRight, TrimSpace, FirstOpener, Extracted;
    var core := Print(v, commas);
    assert core[|core| - 1] == Closing(v.keyed)[0];
    ScanBody(v.body, v.keyed, commas);
    ScanBracketed(v.keyed, PrintBody(v.body, commas), TrimRight(suffix), 0);
    TrimAround(prefix, core, suffix);
    var lead, tail := TrimLeft(prefix), TrimRight(suffix);
    TrimLeftIsSuffix(prefix);
    FirstOpenerAfter(lead, core + tail);
    TrimmedCore(core);
    ExtractedFrom(prefix + core + suffix, lead, core, tail);
  }

  lemma TrimmedCore(core: string)
    requires core != [] && !IsSpace(core[0]) && !IsSpace(core[|core| - 1])
    ensures TrimSpace(core) == core
  {
    TrimAround([], core, []);
    assert [] + core + [] == core && [] + core == core && core + [] == core;
  }

  lemma ExtractedFrom(content: string, lead: string, core: string, tail: string)
    requires TrimSpace(content) == lead + core + tail && core != []
    requires FirstOpener(lead + (core + tail)) == |lead| && Balanced(core + tail, 0, Outside) == Some(|core|)
    requires TrimSpace(core) == core
    ensures Extracted(content) == core
  {
    hide TrimSpace, FirstOpener, Balanced;
    var text := lead + core + tail;
    assert text == lead + (core + tail);
    assert text[|lead|..] == core + tail;
    assert text[|lead|..|lead| + |core|] == core;
  }

  /** The two steps together, as normalizeGeneratedJSON chains them: out of any surrounding prose
      they recover the value without its trailing commas. */
  lemma ExtractThenRepair(prefix: string, v: Value, suffix: string, commas: bool)
    requires ValueOk(v) && v.Container?
    requires forall c | c in prefix :: !IsOpener(c)
    ensures Repaired(Extracted(prefix + Print(v, commas) + suffix), Outside) == Print(v, false)
  {
    ExtractsThePrintedValue(prefix, v, suffix, commas);
    RepairRoundTrip([], v, [], commas);
    assert [] + Print(v, commas) + [] == Print(v, commas);
    assert [] + Print(v, false) + [] == Print(v, false);
  }
}
