/** The two views of text agree: bytes are well-formed exactly when they encode characters (RFC 3629, section 3),
  and what Text does to the characters Utf8 does to their encoding. */
module Utf8Encoding {
  import Text
  import Utf8

  function Byte(n: nat): char
    requires n < 256
  {
    n as char
  }

  /** The UTF-8 encoding of a character. */
  function Encode(c: char): (s: string)
    ensures 1 <= |s| <= 4
  {
    var n := c as int;
    if n < 0x80 then [c]
    else if n < 0x800 then [Byte(0xC0 + n / 64), Byte(0x80 + n % 64)]
    else if n < 0x10000 then [Byte(0xE0 + n / 4096), Byte(0x80 + n / 64 % 64), Byte(0x80 + n % 64)]
    else [Byte(0xF0 + n / 262144), Byte(0x80 + n / 4096 % 64), Byte(0x80 + n / 64 % 64), Byte(0x80 + n % 64)]
  }

  function Encoded(t: string): string {
    if t == [] then [] else Encode(t[0]) + Encoded(t[1..])
  }

  /** Every character's encoding is read as one sequence, whatever follows it. */
  lemma EncodingIsRead(c: char, rest: string)
    ensures Utf8.RuneLength(Encode(c) + rest) == |Encode(c)|
  {
    var n := c as int;
    var s := Encode(c) + rest;
    assert forall i | 0 <= i < |Encode(c)| :: s[i] == Encode(c)[i];
    assert n < 0xD800 || 0xE000 <= n < 0x110000;
  }

  lemma TwoBytes(a: nat, b: nat) returns (c: char)
    requires 2 <= a < 32 && b < 64
    ensures Encode(c) == [Byte(0xC0 + a), Byte(0x80 + b)]
  {
    c := (a * 64 + b) as char;
    assert (a * 64 + b) / 64 == a;
  }

  lemma ThreeBytes(a: nat, b: nat, d: nat) returns (c: char)
    requires a < 16 && b < 64 && d < 64 && (a == 0 ==> b >= 32) && (a == 13 ==> b < 32)
    ensures Encode(c) == [Byte(0xE0 + a), Byte(0x80 + b), Byte(0x80 + d)]
  {
    var n := a * 4096 + b * 64 + d;
    assert n / 4096 == a && n / 64 == a * 64 + b;
    c := n as char;
  }

  lemma FourBytes(a: nat, b: nat, d: nat, e: nat) returns (c: char)
    requires a < 5 && b < 64 && d < 64 && e < 64 && (a == 0 ==> b >= 16) && (a == 4 ==> b < 16)
    ensures Encode(c) == [Byte(0xF0 + a), Byte(0x80 + b), Byte(0x80 + d), Byte(0x80 + e)]
  {
    var n := a * 262144 + b * 4096 + d * 64 + e;
    assert n / 262144 == a && n / 4096 == a * 64 + b && n / 64 == a * 4096 + b * 64 + d;
    c := n as char;
  }

  /** The character a sequence stands for. */
  lemma SequenceEncodes(s: string) returns (c: char)
    requires Utf8.RuneLength(s) > 0
    ensures s[..Utf8.RuneLength(s)] == Encode(c)
  {
    hide Encode;
    var k := Utf8.RuneLength(s);
    if k == 1 {
      c := s[0];
      OneByte(c);
    } else if k == 2 {
      c := TwoBytes(s[0] as int - 0xC0, s[1] as int - 0x80);
    } else if k == 3 {
      c := ThreeBytes(s[0] as int - 0xE0, s[1] as int - 0x80, s[2] as int - 0x80);
    } else {
      c := FourBytes(s[0] as int - 0xF0, s[1] as int - 0x80, s[2] as int - 0x80, s[3] as int - 0x80);
    }
  }

  lemma OneByte(c: char)
    requires c < '\U{80}'
    ensures Encode(c) == [c]
  {
  }

  lemma {:induction false} EncodedIsWellFormed(t: string)
    ensures Utf8.WellFormed(Encoded(t))
  {
    hide Encode, Utf8.RuneLength;
    if t != [] {
      var rest := Encoded(t[1..]);
      EncodingIsRead(t[0], rest);
      EncodedIsWellFormed(t[1..]);
      assert (Encode(t[0]) + rest)[|Encode(t[0])|..] == rest;
    }
  }

  lemma {:induction false} WellFormedIsEncoded(s: string) returns (t: string)
    requires Utf8.WellFormed(s)
    ensures s == Encoded(t)
    decreases |s|
  {
    hide Encode, Utf8.RuneLength;
    if s == [] {
      t := [];
    } else {
      var k := Utf8.RuneLength(s);
      var c := SequenceEncodes(s);
      var rest := WellFormedIsEncoded(s[k..]);
      t := [c] + rest;
      assert t[1..] == rest && s == s[..k] + s[k..];
    }
  }

  /** Bytes are well-formed exactly when they encode some text. */
  lemma WellFormedIff(s: string)
    ensures Utf8.WellFormed(s) <==> exists t :: s == Encoded(t)
  {
    if Utf8.WellFormed(s) {
      var t := WellFormedIsEncoded(s);
    }
    forall t | s == Encoded(t) ensures Utf8.WellFormed(s) { EncodedIsWellFormed(t); }
  }

  /** The length that is computed is the length of the encoding. */
  lemma {:induction false} ByteLengthIsEncoded(t: string)
    ensures Text.ByteLength(t) == |Encoded(t)|
  {
    if t != [] { ByteLengthIsEncoded(t[1..]); }
  }

  lemma {:induction false} EncodedJoins(t: string, u: string)
    ensures Encoded(t + u) == Encoded(t) + Encoded(u)
  {
    hide Encode;
    if t == [] {
      assert t + u == u;
    } else {
      assert (t + u)[1..] == t[1..] + u;
      EncodedJoins(t[1..], u);
    }
  }

  /** White space is white space in either view. */
  lemma SpaceIsSpace(c: char, rest: string)
    ensures Utf8.SpaceLength(Encode(c) + rest) == if Text.IsSpace(c) then |Encode(c)| else 0
  {
    var n := c as int;
    var s := Encode(c) + rest;
    assert forall i | 0 <= i < |Encode(c)| :: s[i] == Encode(c)[i];
    if 0x800 <= n < 0x10000 {
      assert s[..3] == [s[0], s[1], s[2]];
    }
  }

  /** A text ends in white space exactly if its last character is. */
  lemma EndIsSpace(t: string, c: char, k: nat)
    requires 1 <= k <= 3
    ensures Utf8.EndsInSpace(Encoded(t) + Encode(c), k) <==> Text.IsSpace(c) && k == |Encode(c)|
  {
    hide Encode, Text.IsSpace, Utf8.SpaceLength;
    var before, s := Encoded(t), Encoded(t) + Encode(c);
    if k == |Encode(c)| {
      assert s[|s| - k..] == Encode(c) && Encode(c) + [] == Encode(c);
      SpaceIsSpace(c, []);
    } else if k < |Encode(c)| {
      assert s[|s| - k..] == Encode(c)[|Encode(c)| - k..];
      NoSpaceInside(c, k);
    } else if k <= |s| {
      var more := before[|s| - k..];
      assert s[|s| - k..] == more + Encode(c);
      NoSpaceAcross(more, c);
    }
  }

  lemma NoSpaceInside(c: char, k: nat)
    requires 1 <= k < |Encode(c)|
    ensures Utf8.SpaceLength(Encode(c)[|Encode(c)| - k..]) == 0
  {
    var e := Encode(c)[|Encode(c)| - k..];
    assert '\U{80}' <= e[0] <= '\U{BF}';
    if |e| >= 3 { assert e[..3][0] == e[0]; }
  }

  lemma NoSpaceAcross(more: string, c: char)
    requires more != [] && |more + Encode(c)| <= 3
    ensures Utf8.SpaceLength(more + Encode(c)) != |more + Encode(c)|
  {
    var e := more + Encode(c);
    assert e[|more|] == Encode(c)[0] && (Encode(c)[0] < '\U{80}' || Encode(c)[0] >= '\U{C0}');
    if |e| >= 3 { assert e[..3] == [e[0], e[1], e[2]]; }
  }

  lemma {:induction false} TrimLeftAgrees(t: string)
    ensures Utf8.TrimLeft(Encoded(t)) == Encoded(Text.TrimLeft(t))
  {
    hide Encode, Text.IsSpace, Utf8.SpaceLength;
    if t != [] {
      var rest := Encoded(t[1..]);
      SpaceIsSpace(t[0], rest);
      assert (Encode(t[0]) + rest)[|Encode(t[0])|..] == rest;
      TrimLeftAgrees(t[1..]);
    }
  }

  lemma {:induction false} TrimRightAgrees(t: string)
    ensures Utf8.TrimRight(Encoded(t)) == Encoded(Text.TrimRight(t))
  {
    hide Encode, Text.IsSpace, Utf8.SpaceLength;
    if t != [] {
      var n := |t| - 1;
      var c, before := t[n], Encoded(t[..n]);
      assert t == t[..n] + [c] && [c][1..] == [] && Encode(c) + [] == Encode(c);
      EncodedJoins(t[..n], [c]);
      TrimRightAgrees(t[..n]);
      TrimRightStep(t[..n], c);
    }
  }

  lemma TrimRightStep(t: string, c: char)
    ensures var s := Encoded(t) + Encode(c);
            Utf8.TrimRight(s) == if Text.IsSpace(c) then Utf8.TrimRight(Encoded(t)) else s
  {
    EndIsSpace(t, c, 1);
    EndIsSpace(t, c, 2);
    EndIsSpace(t, c, 3);
    SpacesAreShort(c);
    hide Encode, Text.IsSpace, Utf8.SpaceLength, Utf8.EndsInSpace;
    var s := Encoded(t) + Encode(c);
    assert s[..|s| - |Encode(c)|] == Encoded(t);
  }

  lemma SpacesAreShort(c: char)
    ensures Text.IsSpace(c) ==> |Encode(c)| <= 3
  {
  }

  /** Trimming encoded text is encoding trimmed text. */
  lemma TrimmingAgrees(t: string)
    ensures Utf8.TrimSpace(Encoded(t)) == Encoded(Text.TrimSpace(t))
  {
    TrimLeftAgrees(t);
    TrimRightAgrees(Text.TrimLeft(t));
  }
}
