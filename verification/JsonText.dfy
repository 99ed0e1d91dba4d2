/** JSON strings as a reader sees them. */
module JsonText {

  // A reader of JSON strings, after section 7 of RFC 8259, written without regard to the printer: every
  // string that the canonical text quotes is read back by it, and what follows is left.

  import opened Options
  import opened Quoting

  function HexValue(c: char): Option<nat> {
    if '0' <= c <= '9' then Some(c as int - '0' as int)
    else if 'a' <= c <= 'f' then Some(c as int - 'a' as int + 10)
    else if 'A' <= c <= 'F' then Some(c as int - 'A' as int + 10)
    else None
  }

  /** The code unit behind `\u`. */
  function Four(s: string): Option<nat>
    requires |s| >= 4
  {
    match (HexValue(s[0]), HexValue(s[1]), HexValue(s[2]), HexValue(s[3]))
    case (Some(a), Some(b), Some(c), Some(d)) => Some(((a * 16 + b) * 16 + c) * 16 + d)
    case _ => None
  }

  /** The characters that an escape of two characters stands for. */
  function Short(c: char): Option<char> {
    match c
    case '"' => Some('"')
    case '\\' => Some('\\')
    case '/' => Some('/')
    case 'b' => Some('\U{8}')
    case 'f' => Some('\U{C}')
    case 'n' => Some('\n')
    case 'r' => Some('\r')
    case 't' => Some('\t')
    case _ => None
  }

  function Put(c: char, r: Option<(string, string)>): Option<(string, string)> {
    match r
    case Some((text, rest)) => Some(([c] + text, rest))
    case None => None
  }

  /** Behind an opening quote: the text up to the closing quote, and what follows it. */
  function Read(s: string): Option<(string, string)> {
    if s == "" then None
    else if s[0] == '"' then Some(("", s[1..]))
    else if s[0] == '\\' then
      if |s| < 2 then None
      else if s[1] == 'u' then
        if |s| < 6 then None
        else
          match Four(s[2..])
          case Some(n) => if n < 0xD800 || 0xE000 <= n < 0x1_0000 then Put(n as char, Read(s[6..])) else None
          case None => None
      else
        match Short(s[1])
        case Some(c) => Put(c, Read(s[2..]))
        case None => None
    else if s[0] < ' ' then None
    else Put(s[0], Read(s[1..]))
  }

  lemma {:induction false} HexDigitIsRead(d: nat)
    requires d < 16
    ensures HexValue(HexDigit(d)) == Some(d)
  {
  }

  lemma {:induction false} TwoDigits(t: string, a: nat, b: nat)
    requires |t| >= 4 && a < 16 && b < 16
    requires t[0] == '0' && t[1] == '0' && t[2] == HexDigit(a) && t[3] == HexDigit(b)
    ensures Four(t) == Some(16 * a + b)
  {
    HexDigitIsRead(a);
    HexDigitIsRead(b);
    hide HexDigit;
  }

  /** One escaped character is read as that character. */
  lemma {:induction false} CharacterIsRead(c: char, rest: string)
    ensures Read(Escape(c) + rest) == Put(c, Read(rest))
  {
    var e := Escape(c);
    var s := e + rest;
    assert s[|e|..] == rest && s[0] == e[0];
    if |e| > 1 {
      assert s[1] == e[1];
    }
    if |e| == 6 {
      var t := s[2..];
      assert t[0] == s[2] == e[2] && t[1] == s[3] == e[3] && t[2] == s[4] == e[4] && t[3] == s[5] == e[5];
      TwoDigits(t, c as int / 16, c as int % 16);
    }
  }

  /** What the canonical text quotes is read back, whatever follows. */
  lemma {:induction false} QuotedIsRead(s: string, rest: string)
    ensures Quoted(s) + rest != "" && (Quoted(s) + rest)[0] == '"'
    ensures Read((Quoted(s) + rest)[1..]) == Some((s, rest))
  {
    EscapedIsRead(s, rest);
    hide Read, EscapeAll;
    assert (Quoted(s) + rest)[1..] == EscapeAll(s) + ['"'] + rest;
  }

  lemma {:induction false} EscapedIsRead(s: string, rest: string)
    ensures Read(EscapeAll(s) + ['"'] + rest) == Some((s, rest))
  {
    if s == "" {
      assert (EscapeAll(s) + ['"'] + rest)[1..] == rest;
    } else {
      EscapeStep(s, rest);
      EscapedIsRead(s[1..], rest);
      hide Read, EscapeAll, Escape;
      CharacterIsRead(s[0], EscapeAll(s[1..]) + ['"'] + rest);
      assert [s[0]] + s[1..] == s;
    }
  }

  /** The short escapes and the long one, and no other character is escaped. */
  lemma {:induction false} Escapes(c: char)
    ensures Escape('"') == "\\\"" && Escape('\\') == "\\\\" && Escape('\n') == "\\n" && Escape('\r') == "\\r"
    ensures Escape('\t') == "\\t" && Escape('\U{8}') == "\\b" && Escape('\U{C}') == "\\f"
    ensures Escape('\U{1F}') == "\\u001f"
    ensures Escape(c) == [c] <==> c >= ' ' && c != '"' && c != '\\'
  {
  }

  /** A byte is written as its high and its low digit, in lower case, and bytes one after the other. */
  lemma {:induction false} HexIsRead(b: int, bytes: seq<int>, i: nat)
    requires 0 <= b < 256 && (forall k :: 0 <= k < |bytes| ==> 0 <= bytes[k] < 256) && i < |bytes|
    ensures HexValue(HexByte(b)[0]) == Some(b / 16) && HexValue(HexByte(b)[1]) == Some(b % 16)
    ensures forall k :: 0 <= k < 2 ==> !('A' <= HexByte(b)[k] <= 'F')
    ensures HexBytes(bytes)[2 * i] == HexByte(bytes[i])[0] && HexBytes(bytes)[2 * i + 1] == HexByte(bytes[i])[1]
  {
    HexDigitIsRead(b / 16);
    HexDigitIsRead(b % 16);
    BytesInOrder(bytes, i);
  }

  lemma {:induction false} BytesInOrder(bytes: seq<int>, i: nat)
    requires (forall k :: 0 <= k < |bytes| ==> 0 <= bytes[k] < 256) && i < |bytes|
    ensures HexBytes(bytes)[2 * i] == HexByte(bytes[i])[0] && HexBytes(bytes)[2 * i + 1] == HexByte(bytes[i])[1]
  {
    hide HexByte;
    if i > 0 {
      BytesInOrder(bytes[1..], i - 1);
    }
  }
}
