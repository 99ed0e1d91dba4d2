/** The bytes of the BDF format. */
module BdfLayout {

  // The layout of a BDF v0 stream in plain numbers: the magic, the tags, the bytes of a number, and
  // which bytes are UTF-8.

  import opened BdfValue
  import opened BdfParse
  import opened BdfCodec

  // ----- tags ---------------------------------------------------------------------------------------

  /** Every stream begins with the letters BDF and the digit 0, and then the tag of its value. */
  lemma {:induction false} Layout(v: Value)
    ensures |ToBytes(v)| >= 5 && ToBytes(v)[..4] == [66, 68, 70, 48]
    ensures ToBytes(v)[4] == match v
      case Null => 0
      case Bool(_) => 1
      case Int(_) => 2
      case Float(_) => 3
      case Str(_) => 4
      case Bytes(_) => 5
      case Array(_) => 6
      case Map(_) => 7
  {
    TagFirst(v);
    hide Enc;
  }

  lemma {:induction false} TagFirst(v: Value)
    ensures Enc(v)[0] == match v
      case Null => 0
      case Bool(_) => 1
      case Int(_) => 2
      case Float(_) => 3
      case Str(_) => 4
      case Bytes(_) => 5
      case Array(_) => 6
      case Map(_) => 7
  {
    hide Le64, Len64, EncBytes, EncItems, EncEntries;
  }

  // ----- numbers ------------------------------------------------------------------------------------

  /** What four bytes from the `i`th on come to, the least first. */
  function Four(s: bytes, i: nat): int
    requires i + 4 <= |s|
  {
    (s[i] as int) + 0x100 * (s[i + 1] as int) + 0x1_0000 * (s[i + 2] as int) + 0x100_0000 * (s[i + 3] as int)
  }

  lemma {:induction false} FourBytes(s: bytes)
    requires |s| >= 4
    ensures FromLe(s) == Four(s, 0) + 0x1_0000_0000 * FromLe(s[4..])
  {
    var a, b, c := s[1..], s[2..], s[3..];
    assert a[1..] == b && b[1..] == c && c[1..] == s[4..];
    assert FromLe(s) == (s[0] as int) + 256 * FromLe(a) && FromLe(a) == (s[1] as int) + 256 * FromLe(b);
    assert FromLe(b) == (s[2] as int) + 256 * FromLe(c) && FromLe(c) == (s[3] as int) + 256 * FromLe(s[4..]);
  }

  /** Eight bytes are a number with its least byte first. */
  lemma {:induction false} EightBytes(s: bytes)
    requires |s| == 8
    ensures FromLe64(s) == Four(s, 0) + 0x1_0000_0000 * Four(s, 4)
  {
    FourBytes(s);
    FourBytes(s[4..]);
    assert s[4..][4..] == [] && FromLe([]) == 0;
    assert Four(s[4..], 0) == Four(s, 4);
    hide FromLe;
  }

  /** The bytes written for a number are the bytes that stand for it. */
  lemma {:induction false} NumberBytes(n: u64)
    ensures n == Four(Le64(n), 0) + 0x1_0000_0000 * Four(Le64(n), 4)
  {
    Le64RoundTrip(n);
    EightBytes(Le64(n));
    hide Le64, FromLe64;
  }

  /** A signed number is written as the number modulo 2 to the 64 that it is equal to. */
  lemma {:induction false} IntBytes(i: i64)
    ensures Enc(Int(i)) == [2] + Le64(Pattern(i))
    ensures (Pattern(i) - i) % 0x1_0000_0000_0000_0000 == 0
  {
  }

  // ----- UTF-8 --------------------------------------------------------------------------------------

  /** A Unicode scalar value: a code point that is no surrogate. */
  predicate Scalar(c: int) { 0 <= c < 0xD800 || 0xE000 <= c < 0x11_0000 }

  /** Its bytes, as section 3 of RFC 3629 lays them out: six bits in every byte but the first. */
  function Utf8Char(c: int): bytes
    requires Scalar(c)
  {
    if c < 0x80 then [c]
    else if c < 0x800 then [0xC0 + c / 64, 0x80 + c % 64]
    else if c < 0x1_0000 then [0xE0 + c / 4096, 0x80 + c / 64 % 64, 0x80 + c % 64]
    else [0xF0 + c / 0x4_0000, 0x80 + c / 4096 % 64, 0x80 + c / 64 % 64, 0x80 + c % 64]
  }

  predicate Scalars(cs: seq<int>) { forall i :: 0 <= i < |cs| ==> Scalar(cs[i]) }

  function Utf8Text(cs: seq<int>): bytes
    requires Scalars(cs)
  {
    if cs == [] then [] else Utf8Char(cs[0]) + Utf8Text(cs[1..])
  }

  lemma {:induction false} CharIsWhole(c: int)
    requires Scalar(c)
    ensures CharLen(Utf8Char(c)) == |Utf8Char(c)| > 0
  {
  }

  lemma {:induction false} CharLenKeeps(s: bytes, rest: bytes)
    requires CharLen(s) == |s| > 0
    ensures CharLen(s + rest) == |s|
  {
    assert forall i :: 0 <= i < |s| ==> (s + rest)[i] == s[i];
  }

  lemma {:induction false} CharIsRead(c: int, rest: bytes)
    requires Scalar(c)
    ensures CharLen(Utf8Char(c) + rest) == |Utf8Char(c)| > 0
  {
    CharIsWhole(c);
    hide Utf8Char, CharLen;
    CharLenKeeps(Utf8Char(c), rest);
  }

  /** Six bits at a time. */
  lemma {:induction false} Sixes(a: nat, b: nat, c: nat, e: nat)
    requires b < 64 && c < 64 && e < 64
    ensures var n := 0x4_0000 * a + 4096 * b + 64 * c + e;
      n % 64 == e && n / 64 % 64 == c && n / 4096 % 64 == b && n / 0x4_0000 == a && n / 64 == 4096 * a + 64 * b + c
      && n / 4096 == 64 * a + b
  {
    var n := 0x4_0000 * a + 4096 * b + 64 * c + e;
    assert n == 64 * (4096 * a + 64 * b + c) + e;
    assert n / 64 == 64 * (64 * a + b) + c;
    assert n / 4096 == 64 * a + b;
  }

  lemma {:induction false} TwoWritten(s: bytes) returns (c: int)
    requires CharLen(s) == 2
    ensures Scalar(c) && Utf8Char(c) == s[..2]
  {
    var x, y: nat := s[0] as int - 0xC0, s[1] as int - 0x80;
    c := 64 * x + y;
    Sixes(0, 0, x, y);
  }

  lemma {:induction false} ThreeWritten(s: bytes) returns (c: int)
    requires CharLen(s) == 3
    ensures Scalar(c) && Utf8Char(c) == s[..3]
  {
    var x, y, z: nat := s[0] as int - 0xE0, s[1] as int - 0x80, s[2] as int - 0x80;
    c := 4096 * x + 64 * y + z;
    Sixes(0, x, y, z);
  }

  lemma {:induction false} FourWritten(s: bytes) returns (c: int)
    requires CharLen(s) == 4
    ensures Scalar(c) && Utf8Char(c) == s[..4]
  {
    var x, y, z, w: nat := s[0] as int - 0xF0, s[1] as int - 0x80, s[2] as int - 0x80, s[3] as int - 0x80;
    c := 0x4_0000 * x + 4096 * y + 64 * z + w;
    Sixes(x, y, z, w);
  }

  lemma {:induction false} CharIsWritten(s: bytes) returns (c: int)
    requires CharLen(s) > 0
    ensures Scalar(c) && Utf8Char(c) == s[..CharLen(s)]
  {
    var n := CharLen(s);
    if n == 1 {
      c := s[0];
    } else if n == 2 {
      c := TwoWritten(s);
    } else if n == 3 {
      c := ThreeWritten(s);
    } else {
      c := FourWritten(s);
    }
  }

  /** The bytes taken for UTF-8 are exactly the encoded texts. */
  lemma {:induction false} Utf8IsEncodedText(s: bytes)
    ensures Utf8(s) <==> exists cs :: Scalars(cs) && Utf8Text(cs) == s
  {
    if Utf8(s) {
      var cs := TextOf(s);
    }
    if cs :| Scalars(cs) && Utf8Text(cs) == s {
      TextIsUtf8(cs);
    }
  }

  lemma {:induction false} TextOf(s: bytes) returns (cs: seq<int>)
    requires Utf8(s)
    ensures Scalars(cs) && Utf8Text(cs) == s
  {
    if s == [] {
      cs := [];
    } else {
      var c := CharIsWritten(s);
      var rest := TextOf(s[CharLen(s)..]);
      cs := [c] + rest;
      assert cs[1..] == rest && s == s[..CharLen(s)] + s[CharLen(s)..];
    }
  }

  lemma {:induction false} TextIsUtf8(cs: seq<int>)
    requires Scalars(cs)
    ensures Utf8(Utf8Text(cs))
  {
    if cs != [] {
      TextIsUtf8(cs[1..]);
      CharIsRead(cs[0], Utf8Text(cs[1..]));
      var s, n := Utf8Text(cs), |Utf8Char(cs[0])|;
      hide Utf8Char, CharLen;
      assert s[n..] == Utf8Text(cs[1..]);
    }
  }
}
