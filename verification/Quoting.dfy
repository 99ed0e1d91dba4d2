/**
 The two ways the MIR text writer separates what it prints: words ended by a space, and JSON
 strings. Both can be read back from the left, whatever follows them. A word has no space in it,
 and what follows it is nothing or begins with one; a JSON string ends at its first quote that is
 not escaped.
 */
module Quoting {
  import opened Decimal

  const NEWLINE: char := '\n'

  /** No newline: a single line of text. */
  predicate OneLine(s: string) { forall i :: 0 <= i < |s| ==> s[i] != NEWLINE }

  predicate NoSpace(s: string) { forall i :: 0 <= i < |s| ==> s[i] != ' ' }

  lemma {:induction false} Cancel(p: string, x: string, y: string)
    requires p + x == p + y
    ensures x == y
  {
    assert (p + x)[|p|..] == x && (p + y)[|p|..] == y;
  }

  lemma {:induction false} CharAt(w: string, p: string, k: nat)
    ensures k < |w| ==> (w + p)[k] == w[k]
    ensures |w| <= k < |w + p| ==> (w + p)[k] == p[k - |w|]
  {
  }

  /** Nothing, or a space and more: what may follow a word. */
  predicate Ends(s: string) { s == "" || s[0] == ' ' }

  lemma {:induction false} FirstWord(w: string, p: string, v: string, q: string)
    requires w + p == v + q && NoSpace(w) && NoSpace(v) && Ends(p) && Ends(q)
    ensures w == v && p == q
  {
    var s := w + p;
    CharAt(w, p, |v|);
    CharAt(v, q, |w|);
    CharAt(w, p, |w|);
    CharAt(v, q, |v|);
    assert s[..|w|] == w && s[..|v|] == v && s[|w|..] == p && s[|v|..] == q;
  }

  // ----- booleans, optional numbers, hex bytes ------------------------------------------------

  function BoolName(b: bool): (s: string)
    ensures NoSpace(s) && OneLine(s) && |s| >= 4 && s[0] == if b then 't' else 'f'
  {
    if b then "true" else "false"
  }

  lemma {:induction false} DecIntIsWord(i: int)
    ensures NoSpace(DecInt(i)) && OneLine(DecInt(i))
  {
  }

  function HexDigit(d: nat): (c: char)
    requires d < 16
    ensures c != NEWLINE && c != ' '
    ensures c as int == if d < 10 then 48 + d else 87 + d
  {
    if d < 10 then (48 + d) as char else (87 + d) as char
  }

  /** A byte as two lower-case hex digits. */
  function HexByte(b: int): (s: string)
    requires 0 <= b < 256
    ensures |s| == 2 && OneLine(s) && NoSpace(s)
  {
    [HexDigit(b / 16), HexDigit(b % 16)]
  }

  function HexBytes(bytes: seq<int>): (s: string)
    requires forall i :: 0 <= i < |bytes| ==> 0 <= bytes[i] < 256
    ensures |s| == 2 * |bytes| && OneLine(s)
  {
    if bytes == [] then "" else HexByte(bytes[0]) + HexBytes(bytes[1..])
  }

  lemma {:induction false} HexByteInjective(a: int, b: int)
    requires 0 <= a < 256 && 0 <= b < 256 && HexByte(a) == HexByte(b)
    ensures a == b
  {
    assert HexByte(a)[0] == HexByte(b)[0] && HexByte(a)[1] == HexByte(b)[1];
    assert a / 16 == b / 16 && a % 16 == b % 16;
  }

  lemma {:induction false} HexBytesInjective(a: seq<int>, b: seq<int>)
    requires forall i :: 0 <= i < |a| ==> 0 <= a[i] < 256
    requires forall i :: 0 <= i < |b| ==> 0 <= b[i] < 256
    requires HexBytes(a) == HexBytes(b)
    ensures a == b
  {
    if a != [] {
      assert HexBytes(a)[..2] == HexByte(a[0]) && HexBytes(b)[..2] == HexByte(b[0]);
      HexByteInjective(a[0], b[0]);
      assert HexBytes(a)[2..] == HexBytes(a[1..]) && HexBytes(b)[2..] == HexBytes(b[1..]);
      HexBytesInjective(a[1..], b[1..]);
      assert a == [a[0]] + a[1..] && b == [b[0]] + b[1..];
    }
  }

  // ----- JSON strings -----------------------------------------------------------------------------

  /** One character as serde_json writes it inside a string. */
  function Escape(c: char): (s: string)
    ensures |s| >= 1 && OneLine(s) && s[0] != '"'
  {
    if c == '"' then ['\\', '"']
    else if c == '\\' then ['\\', '\\']
    else if c as int == 8 then ['\\', 'b']
    else if c as int == 9 then ['\\', 't']
    else if c as int == 10 then ['\\', 'n']
    else if c as int == 12 then ['\\', 'f']
    else if c as int == 13 then ['\\', 'r']
    else if (c as int) < 32 then ['\\', 'u', '0', '0', HexDigit(c as int / 16), HexDigit(c as int % 16)]
    else [c]
  }

  function EscapeAll(s: string): (r: string)
    ensures OneLine(r)
  {
    if s == "" then "" else Escape(s[0]) + EscapeAll(s[1..])
  }

  /** `json_string` */
  function Quoted(s: string): (r: string)
    ensures OneLine(r) && |r| >= 2
  {
    ['"'] + EscapeAll(s) + ['"']
  }

  lemma {:induction false} EscapePrefixFree(c: char, x: string, d: char, y: string)
    requires Escape(c) + x == Escape(d) + y
    ensures c == d && x == y
  {
    var s, e, f := Escape(c) + x, Escape(c), Escape(d);
    assert s[0] == e[0] && s[0] == f[0];
    if e[0] == '\\' {
      assert s[1] == e[1] && s[1] == f[1];
      if e[1] == 'u' {
        assert s[4] == e[4] && s[4] == f[4] && s[5] == e[5] && s[5] == f[5];
        assert c as int / 16 == d as int / 16 && c as int % 16 == d as int % 16;
      }
    }
    assert c as int == d as int;
    Cancel(e, x, y);
  }

  lemma {:induction false} Regroup(a: string, b: string, c: string, d: string)
    ensures a + b + c + d == a + (b + c + d)
  {
  }

  /** The closing quote is the first quote that can come first. */
  lemma {:induction false} FirstEscaped(s: string, x: string)
    requires x != "" && x[0] == '"'
    ensures (EscapeAll(s) + x)[0] == '"' <==> s == ""
  {
  }

  lemma {:induction false} EndsAtQuote(x: string, t: string, y: string)
    requires ['"'] + x == EscapeAll(t) + ['"'] + y
    ensures t == "" && x == y
  {
    FirstEscaped(t, ['"'] + y);
    hide EscapeAll;
    assert EscapeAll(t) + ['"'] + y == EscapeAll(t) + (['"'] + y);
    assert (['"'] + x)[0] == '"';
    NothingEscaped(y);
    Cancel(['"'], x, y);
  }

  lemma {:induction false} NothingEscaped(y: string)
    ensures EscapeAll("") + ['"'] + y == ['"'] + y
  {
  }

  lemma {:induction false} EscapeStep(s: string, x: string)
    requires s != ""
    ensures EscapeAll(s) + ['"'] + x == Escape(s[0]) + (EscapeAll(s[1..]) + ['"'] + x)
  {
    assert EscapeAll(s) == Escape(s[0]) + EscapeAll(s[1..]);
    hide Escape, EscapeAll;
    Regroup(Escape(s[0]), EscapeAll(s[1..]), ['"'], x);
  }

  /** A JSON string ends where its closing quote says, so it can be read back from the left. */
  lemma {:induction false} EscapeAllPrefixFree(s: string, x: string, t: string, y: string)
    requires EscapeAll(s) + ['"'] + x == EscapeAll(t) + ['"'] + y
    ensures s == t && x == y
  {
    hide Escape, EscapeAll;
    if s == "" {
      NothingEscaped(x);
      EndsAtQuote(x, t, y);
    } else if t == "" {
      NothingEscaped(y);
      EndsAtQuote(y, s, x);
    } else {
      EscapeStep(s, x);
      EscapeStep(t, y);
      EscapePrefixFree(s[0], EscapeAll(s[1..]) + ['"'] + x, t[0], EscapeAll(t[1..]) + ['"'] + y);
      EscapeAllPrefixFree(s[1..], x, t[1..], y);
      assert s == [s[0]] + s[1..] && t == [t[0]] + t[1..];
    }
  }

  lemma {:induction false} QuotedPrefixFree(s: string, x: string, t: string, y: string)
    requires Quoted(s) + x == Quoted(t) + y
    ensures s == t && x == y
  {
    var l, r := EscapeAll(s) + ['"'] + x, EscapeAll(t) + ['"'] + y;
    assert Quoted(s) + x == ['"'] + l && Quoted(t) + y == ['"'] + r;
    Cancel(['"'], l, r);
    EscapeAllPrefixFree(s, x, t, y);
  }

  lemma {:induction false} QuotedInjective(s: string, t: string)
    requires Quoted(s) == Quoted(t)
    ensures s == t
  {
    assert Quoted(s) + "" == Quoted(t) + "";
    QuotedPrefixFree(s, "", t, "");
  }

  // ----- telling short names apart ------------------------------------------------------------------

  /** Length, first, middle and last character: enough to tell the names of one table apart. */
  function Mark(s: string): (int, char, char, char)
    requires s != ""
  {
    (|s|, s[0], s[|s| / 2], s[|s| - 1])
  }
}
