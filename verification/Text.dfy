/** Text as Go sees it: a string is a sequence of Unicode scalar values.

  This is the view of code that ranges over the characters of valid UTF-8 text, where ByteLength gives
  what Go's len would count.  Code that cuts strings at arbitrary bytes is modelled over Utf8
  instead, byte by byte.

  Trimming removes what unicode.IsSpace calls white space from both ends.  The lemmas are about
  a text that starts and ends with visible characters: trimming eats into what surrounds it, as
  far as that is white space, and no further.
 */
module Text {

  /** unicode.IsSpace. */
  predicate IsSpace(c: char) {
    || c == ' ' || '\t' <= c <= '\r' || c == '\U{85}' || c == '\U{A0}' || c == '\U{1680}'
    || '\U{2000}' <= c <= '\U{200A}' || c == '\U{2028}' || c == '\U{2029}' || c == '\U{202F}'
    || c == '\U{205F}' || c == '\U{3000}'
  }

  function TrimLeft(s: string): string {
    if s != [] && IsSpace(s[0]) then TrimLeft(s[1..]) else s
  }

  function TrimRight(s: string): string {
    if s != [] && IsSpace(s[|s| - 1]) then TrimRight(s[..|s| - 1]) else s
  }

  /** strings.TrimSpace. */
  function TrimSpace(s: string): string {
    TrimRight(TrimLeft(s))
  }

  /** Length of the UTF-8 encoding, which is what Go's len counts. */
  function ByteLength(s: string): nat {
    if s == [] then 0
    else
      ByteLength(s[1..])
      + (if s[0] < '\U{80}' then 1 else if s[0] < '\U{800}' then 2 else if s[0] < '\U{10000}' then 3 else 4)
  }

  lemma {:induction false} TrimLeftStops(p: string, s: string)
    requires s != [] && !IsSpace(s[0])
    ensures TrimLeft(p + s) == TrimLeft(p) + s
  {
    if p == [] {
      assert p + s == s;
    } else {
      assert (p + s)[1..] == p[1..] + s;
      if IsSpace(p[0]) { TrimLeftStops(p[1..], s); }
    }
  }

  lemma {:induction false} TrimRightStops(s: string, q: string)
    requires s != [] && !IsSpace(s[|s| - 1])
    ensures TrimRight(s + q) == s + TrimRight(q)
  {
    if q == [] {
      assert s + q == s;
    } else {
      assert (s + q)[..|s + q| - 1] == s + q[..|q| - 1];
      if IsSpace(q[|q| - 1]) { TrimRightStops(s, q[..|q| - 1]); }
    }
  }

  /** Trimming only eats into what surrounds a core that starts and ends with visible characters. */
  lemma TrimAround(p: string, core: string, q: string)
    requires core != [] && !IsSpace(core[0]) && !IsSpace(core[|core| - 1])
    ensures TrimSpace(p + core + q) == TrimLeft(p) + core + TrimRight(q)
  {
    assert p + core + q == p + (core + q);
    TrimLeftStops(p, core + q);
    assert TrimLeft(p) + (core + q) == (TrimLeft(p) + core) + q;
    TrimRightStops(TrimLeft(p) + core, q);
  }

  lemma {:induction false} TrimLeftIsSuffix(p: string)
    ensures forall c | c in TrimLeft(p) :: c in p
  {
    if p != [] && IsSpace(p[0]) { TrimLeftIsSuffix(p[1..]); }
  }
}
