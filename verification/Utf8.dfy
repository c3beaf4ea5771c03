/** What becomes of a Go string when it is written to JSON and read back: every byte that is not part of
  a well-formed UTF-8 sequence (RFC 3629, section 4) is replaced by U+FFFD.

  A Go string is written here as its sequence of bytes, each as the character with that code.

  Text that was decoded from JSON is well-formed and survives unchanged.

  Text that was then cut at arbitrary bytes may not be: a cut can break one character, leaving at most
  three stray bytes on either side of it, and each stray byte comes back as three.
 */
module Utf8 {

  const REPLACEMENT := "\U{EF}\U{BF}\U{BD}"

  predicate Between(s: string, i: nat, lo: char, hi: char) {
    i < |s| && lo <= s[i] <= hi
  }

  predicate Continues(s: string, i: nat) {
    Between(s, i, '\U{80}', '\U{BF}')
  }

  /** Bytes of the well-formed sequence s starts with, or 0 if it starts with none. */
  function RuneLength(s: string): (k: nat)
    ensures k <= 4 && k <= |s|
  {
    if s == [] then 0
    else if s[0] < '\U{80}' then 1
    else if '\U{C2}' <= s[0] <= '\U{DF}' then (if Continues(s, 1) then 2 else 0)
    else if '\U{E0}' <= s[0] <= '\U{EF}' then
      var lo := if s[0] == '\U{E0}' then '\U{A0}' else '\U{80}';
      var hi := if s[0] == '\U{ED}' then '\U{9F}' else '\U{BF}';
      if Between(s, 1, lo, hi) && Continues(s, 2) then 3 else 0
    else if '\U{F0}' <= s[0] <= '\U{F4}' then
      var lo := if s[0] == '\U{F0}' then '\U{90}' else '\U{80}';
      var hi := if s[0] == '\U{F4}' then '\U{8F}' else '\U{BF}';
      if Between(s, 1, lo, hi) && Continues(s, 2) && Continues(s, 3) then 4 else 0
    else 0
  }

  predicate WellFormed(s: string) {
    s == [] || (RuneLength(s) > 0 && WellFormed(s[RuneLength(s)..]))
  }

  function Coerce(s: string): string {
    if s == [] then []
    else if RuneLength(s) > 0 then s[..RuneLength(s)] + Coerce(s[RuneLength(s)..])
    else REPLACEMENT + Coerce(s[1..])
  }

  lemma RuneLengthLocal(a: string, r: string)
    requires RuneLength(a) > 0
    ensures RuneLength(a + r) == RuneLength(a)
  {
    var k := RuneLength(a);
    assert forall i | 0 <= i < k :: (a + r)[i] == a[i];
  }

  /** An ASCII byte never completes a sequence. */
  lemma RuneLengthStops(a: string, r: string)
    requires a != [] && r != [] && r[0] < '\U{80}'
    ensures RuneLength(a + r) == RuneLength(a)
  {
    assert forall i | 0 <= i < |a| :: (a + r)[i] == a[i];
    assert (a + r)[|a|] == r[0];
  }

  lemma Cut(a: string, r: string, k: nat)
    requires k <= |a|
    ensures (a + r)[..k] == a[..k] && (a + r)[k..] == a[k..] + r
  {
  }

  lemma Regroup(x: string, y: string, z: string)
    ensures x + (y + z) == (x + y) + z
  {
  }

  lemma CoerceStep(s: string, k: nat)
    requires s != [] && k == RuneLength(s)
    ensures k > 0 ==> Coerce(s) == s[..k] + Coerce(s[k..])
    ensures k == 0 ==> Coerce(s) == REPLACEMENT + Coerce(s[1..])
  {
  }

  lemma {:induction false} CoerceKeepsWellFormed(v: string, r: string)
    requires WellFormed(v)
    ensures Coerce(v + r) == v + Coerce(r)
    decreases |v|
  {
    hide RuneLength;
    if v == [] {
      assert v + r == r;
    } else {
      var k := RuneLength(v);
      RuneLengthLocal(v, r);
      CoerceKeepsWellFormed(v[k..], r);
      Cut(v, r, k);
      CoerceStep(v + r, k);
      hide Coerce;
      Regroup(v[..k], v[k..], Coerce(r));
    }
  }

  /** Well-formed text survives the round trip. */
  lemma WellFormedIsKept(v: string)
    requires WellFormed(v)
    ensures Coerce(v) == v
  {
    CoerceKeepsWellFormed(v, "");
    assert v + "" == v;
  }

  lemma {:induction false} CoerceSplitsAtAscii(a: string, r: string)
    requires r != [] && r[0] < '\U{80}'
    ensures Coerce(a + r) == Coerce(a) + Coerce(r)
    decreases |a|
  {
    if a == [] {
      assert a + r == r;
    } else {
      hide RuneLength, Coerce;
      var k := RuneLength(a);
      RuneLengthStops(a, r);
      CoerceStep(a, k);
      CoerceStep(a + r, k);
      if k > 0 {
        Cut(a, r, k);
        CoerceSplitsAtAscii(a[k..], r);
        Regroup(a[..k], Coerce(a[k..]), Coerce(r));
      } else {
        Cut(a, r, 1);
        CoerceSplitsAtAscii(a[1..], r);
        Regroup(REPLACEMENT, Coerce(a[1..]), Coerce(r));
      }
    }
  }

  lemma {:induction false} CoerceAtMostTriples(s: string)
    ensures |s| <= |Coerce(s)| <= 3 * |s|
    decreases |s|
  {
    if s != [] {
      CoerceAtMostTriples(s[if RuneLength(s) > 0 then RuneLength(s) else 1..]);
    }
  }

  /** Cutting well-formed text anywhere leaves at most three stray bytes before the cut ... */
  lemma {:induction false} HeadOfWellFormed(s: string, h: nat)
    requires WellFormed(s) && h <= |s|
    ensures |Coerce(s[..h])| <= h + 6
    decreases |s|
  {
    var k := RuneLength(s);
    if h < k {
      CoerceAtMostTriples(s[..h]);
    } else if h > 0 {
      assert s[..h] == s[..k] + s[k..][..h - k];
      RuneWellFormed(s);
      CoerceKeepsWellFormed(s[..k], s[k..][..h - k]);
      HeadOfWellFormed(s[k..], h - k);
    }
  }

  lemma RuneWellFormed(s: string)
    requires RuneLength(s) > 0
    ensures WellFormed(s[..RuneLength(s)])
  {
    var k := RuneLength(s);
    var a := s[..k];
    assert forall i | 0 <= i < k :: a[i] == s[i];
    assert RuneLength(a) == k;
    assert a[k..] == [];
  }

  /** ... and at most three after it. */
  lemma {:induction false} TailOfWellFormed(s: string, h: nat)
    requires WellFormed(s) && h <= |s|
    ensures |Coerce(s[h..])| <= |s| - h + 6
    decreases |s|
  {
    var k := RuneLength(s);
    if h == 0 {
      WellFormedIsKept(s);
      assert s[h..] == s;
    } else if h >= k {
      assert s[h..] == s[k..][h - k..];
      TailOfWellFormed(s[k..], h - k);
    } else {
      StrayBytes(s, h);
    }
  }

  lemma {:induction false} StrayBytes(s: string, h: nat)
    requires WellFormed(s) && s != [] && 0 < h <= RuneLength(s)
    ensures |Coerce(s[h..])| == |s| - h + 2 * (RuneLength(s) - h)
    decreases |s| - h
  {
    var k := RuneLength(s);
    if h == k {
      WellFormedIsKept(s[k..]);
    } else {
      StrayBytes(s, h + 1);
      var t := s[h..];
      assert '\U{80}' <= t[0] <= '\U{BF}';
      assert RuneLength(t) == 0;
      assert t[1..] == s[h + 1..];
    }
  }

  predicate Ascii(s: string) {
    forall i | 0 <= i < |s| :: s[i] < '\U{80}'
  }

  lemma {:induction false} AsciiIsWellFormed(s: string)
    requires Ascii(s)
    ensures WellFormed(s)
  {
    if s != [] { AsciiIsWellFormed(s[1..]); }
  }

  lemma {:induction false} WellFormedJoin(a: string, b: string)
    requires WellFormed(a) && WellFormed(b)
    ensures WellFormed(a + b)
    decreases |a|
  {
    if a == [] {
      assert a + b == b;
    } else {
      var k := RuneLength(a);
      RuneLengthLocal(a, b);
      WellFormedJoin(a[k..], b);
      assert (a + b)[k..] == a[k..] + b;
    }
  }

  /** Bytes of the white space (unicode.IsSpace) that s starts with, or 0. */
  function SpaceLength(s: string): (k: nat)
    ensures k <= |s|
  {
    if s == [] then 0
    else if s[0] == ' ' || '\t' <= s[0] <= '\r' then 1
    else if s[0] == '\U{C2}' then (if |s| > 1 && (s[1] == '\U{85}' || s[1] == '\U{A0}') then 2 else 0)
    else if |s| < 3 then 0
    else if s[..3] == "\U{E1}\U{9A}\U{80}" || s[..3] == "\U{E2}\U{81}\U{9F}" || s[..3] == "\U{E3}\U{80}\U{80}" then 3
    else if s[0] == '\U{E2}' && s[1] == '\U{80}'
            && ('\U{80}' <= s[2] <= '\U{8A}' || s[2] == '\U{A8}' || s[2] == '\U{A9}' || s[2] == '\U{AF}') then 3
    else 0
  }

  function TrimLeft(s: string): string
    decreases |s|
  {
    if SpaceLength(s) > 0 then TrimLeft(s[SpaceLength(s)..]) else s
  }

  predicate EndsInSpace(s: string, k: nat) {
    0 < k <= |s| && SpaceLength(s[|s| - k..]) == k
  }

  function TrimRight(s: string): string
    decreases |s|
  {
    if EndsInSpace(s, 1) then TrimRight(s[..|s| - 1])
    else if EndsInSpace(s, 2) then TrimRight(s[..|s| - 2])
    else if EndsInSpace(s, 3) then TrimRight(s[..|s| - 3])
    else s
  }

  /** strings.TrimSpace. */
  function TrimSpace(s: string): string { TrimRight(TrimLeft(s)) }
}
