/** Split and replace: two scans that have to agree. */
module StringScan {

  // `build_string_split` and `build_string_replace`: two scans written separately, one over
  // memcmp and one over strstr into a buffer sized beforehand, that have to agree.

  type Text = seq<char>

  const NUL: char := '\0'
  const SIZE_MODULUS: nat := 0x1_0000_0000_0000_0000

  ghost predicate NulFree(s: Text) { NUL !in s }

  predicate MatchAt(s: Text, d: Text, i: nat) {
    i + |d| <= |s| && s[i..i + |d|] == d
  }

  /** The first match of `d` in `s` at or after `i`; `|s|` if there is none. */
  function First(s: Text, d: Text, i: nat): (p: nat)
    requires i <= |s| && d != []
    ensures i <= p <= |s|
    ensures p < |s| ==> p + |d| <= |s|
    decreases |s| - i
  {
    if i == |s| || MatchAt(s, d, i) then i else First(s, d, i + 1)
  }

  lemma {:induction false} FirstHit(s: Text, d: Text, i: nat)
    requires d != [] && i <= |s| && First(s, d, i) < |s|
    ensures MatchAt(s, d, First(s, d, i))
    decreases |s| - i
  {
    if !MatchAt(s, d, i) {
      FirstHit(s, d, i + 1);
    }
  }

  lemma {:induction false} NoneBefore(s: Text, d: Text, i: nat, k: nat)
    requires d != [] && i <= |s| && i <= k < First(s, d, i)
    ensures !MatchAt(s, d, k)
    decreases |s| - i
  {
    if k > i {
      NoneBefore(s, d, i + 1, k);
    }
  }

  /** The pieces of `s` from `i` on, between leftmost matches of `d`. */
  function PiecesFrom(s: Text, d: Text, i: nat): (ps: seq<Text>)
    requires i <= |s| && d != []
    decreases |s| - i
  {
    var p := First(s, d, i);
    if p == |s| then [s[i..]] else [s[i..p]] + PiecesFrom(s, d, p + |d|)
  }

  function Pieces(s: Text, d: Text): (ps: seq<Text>)
    requires d != []
  {
    PiecesFrom(s, d, 0)
  }

  function Join(ps: seq<Text>, d: Text): Text {
    if |ps| == 0 then []
    else if |ps| == 1 then ps[0]
    else ps[0] + d + Join(ps[1..], d)
  }

  lemma {:induction false} JoinCons(x: Text, ps: seq<Text>, d: Text)
    requires |ps| >= 1
    ensures Join([x] + ps, d) == x + d + Join(ps, d)
  {
    assert ([x] + ps)[1..] == ps;
  }

  /** One replacement in the text from `i`: the chunk before the match, the new text, the rest. */
  lemma {:induction false} JoinFrom(s: Text, d: Text, r: Text, i: nat)
    requires d != [] && i <= |s|
    ensures var p := First(s, d, i);
      Join(PiecesFrom(s, d, i), r)
      == if p == |s| then s[i..] else s[i..p] + r + Join(PiecesFrom(s, d, p + |d|), r)
  {
    var p := First(s, d, i);
    if p < |s| {
      JoinCons(s[i..p], PiecesFrom(s, d, p + |d|), r);
    }
  }

  /** One step of a scan: stop on a match, go on without one. */
  lemma {:induction false} FirstStep(s: Text, d: Text, i: nat)
    requires d != [] && i + |d| <= |s|
    ensures s[i..i + |d|] == d ==> First(s, d, i) == i
    ensures s[i..i + |d|] != d ==> First(s, d, i) == First(s, d, i + 1)
  {
  }

  lemma {:induction false} PiecesStep(s: Text, d: Text, i: nat)
    requires d != [] && i <= |s|
    ensures var p := First(s, d, i);
      PiecesFrom(s, d, i) == if p == |s| then [s[i..]] else [s[i..p]] + PiecesFrom(s, d, p + |d|)
  {
  }

  // ----- what the pieces are ---------------------------------------------------------

  /** Joining the pieces with the delimiter gives the text back. */
  lemma {:induction false} JoinPieces(s: Text, d: Text, i: nat)
    requires d != [] && i <= |s|
    ensures Join(PiecesFrom(s, d, i), d) == s[i..]
    decreases |s| - i
  {
    hide First, PiecesFrom, Join;
    var p := First(s, d, i);
    JoinFrom(s, d, d, i);
    if p < |s| {
      FirstHit(s, d, i);
      JoinPieces(s, d, p + |d|);
      assert s[i..] == s[i..p] + s[p..p + |d|] + s[p + |d|..];
    }
  }

  /** The leftmost cut: `d` first occurs right after each piece but the last, and not in the last. */
  ghost predicate LeftmostCut(ps: seq<Text>, d: Text)
    requires d != []
  {
    if |ps| == 0 then false
    else if |ps| == 1 then First(ps[0], d, 0) == |ps[0]|
    else First(ps[0] + d, d, 0) == |ps[0]| && LeftmostCut(ps[1..], d)
  }

  lemma {:induction false} SliceOfSlice(s: Text, t: Text, i: nat)
    requires i + |t| <= |s| && s[i..i + |t|] == t
    ensures forall k {:trigger t[k]} :: 0 <= k < |t| ==> t[k] == s[i + k]
  {
  }

  /** A scan of one stretch of a text finds there what a scan of the text finds. */
  lemma {:induction false} FirstInStretch(s: Text, t: Text, d: Text, i: nat, k: nat, p: nat)
    requires d != [] && i + |t| <= |s| && s[i..i + |t|] == t
    requires k <= p && (p + |d| <= |t| || (p == |t| && i + |t| == |s|))
    ensures First(t, d, k) == p <==> First(s, d, i + k) == i + p
    decreases p - k
  {
    SliceOfSlice(s, t, i);
    assert k + |d| <= |t| ==> t[k..k + |d|] == s[i + k..i + k + |d|];
    if k < p {
      FirstInStretch(s, t, d, i, k + 1, p);
    }
  }

  lemma {:induction false} PieceIsLeftmost(s: Text, d: Text, i: nat)
    requires d != [] && i <= |s| && First(s, d, i) < |s|
    ensures First(s[i..First(s, d, i)] + d, d, 0) == First(s, d, i) - i
  {
    var p := First(s, d, i);
    FirstHit(s, d, i);
    assert s[i..p] + d == s[i..p + |d|];
    FirstInStretch(s, s[i..p] + d, d, i, 0, p - i);
  }

  lemma {:induction false} PiecesAreLeftmost(s: Text, d: Text, i: nat)
    requires d != [] && i <= |s|
    ensures LeftmostCut(PiecesFrom(s, d, i), d)
    decreases |s| - i
  {
    hide First, PiecesFrom;
    var p := First(s, d, i);
    PiecesStep(s, d, i);
    if p == |s| {
      FirstInStretch(s, s[i..], d, i, 0, |s| - i);
    } else {
      PiecesAreLeftmost(s, d, p + |d|);
      PieceIsLeftmost(s, d, i);
      assert PiecesFrom(s, d, i)[1..] == PiecesFrom(s, d, p + |d|);
    }
  }

  /** The pieces are the only leftmost cut that joins back to the text. */
  lemma {:induction false} PiecesUnique(s: Text, d: Text, i: nat, ps: seq<Text>)
    requires d != [] && i <= |s| && LeftmostCut(ps, d) && Join(ps, d) == s[i..]
    ensures ps == PiecesFrom(s, d, i)
    decreases |ps|
  {
    hide First, PiecesFrom;
    PiecesStep(s, d, i);
    if |ps| == 1 {
      LastIsFirst(s, i, ps[0], d);
    } else {
      var head, rest := ps[0], Join(ps[1..], d);
      HeadIsFirst(s, i, head, d, rest);
      PiecesUnique(s, d, i + |head| + |d|, ps[1..]);
      assert ps == [head] + ps[1..];
    }
  }

  lemma {:induction false} LastIsFirst(s: Text, i: nat, last: Text, d: Text)
    requires d != [] && i <= |s| && s[i..] == last && First(last, d, 0) == |last|
    ensures First(s, d, i) == |s|
  {
    FirstInStretch(s, last, d, i, 0, |last|);
  }

  lemma {:induction false} HeadIsFirst(s: Text, i: nat, head: Text, d: Text, rest: Text)
    requires d != [] && i <= |s| && s[i..] == head + d + rest && First(head + d, d, 0) == |head|
    ensures i + |head| + |d| <= |s| && First(s, d, i) == i + |head|
    ensures s[i..i + |head|] == head && s[i + |head| + |d|..] == rest
  {
    TailParts(s, i, head, d, rest);
    FirstInStretch(s, head + d, d, i, 0, |head|);
  }

  lemma {:induction false} TailParts(s: Text, i: nat, head: Text, d: Text, rest: Text)
    requires i <= |s| && s[i..] == head + d + rest
    ensures i + |head| + |d| + |rest| == |s|
    ensures s[i..i + |head|] == head && s[i..i + |head + d|] == head + d
    ensures s[i + |head| + |d|..] == rest
  {
    var t := s[i..];
    assert t[..|head|] == head && t[..|head + d|] == head + d && t[|head + d|..] == rest;
  }

  /** No piece of a leftmost cut contains the delimiter. */
  lemma {:induction false} PiecesAvoid(ps: seq<Text>, d: Text, i: nat, k: nat)
    requires d != [] && LeftmostCut(ps, d) && i < |ps|
    ensures !MatchAt(ps[i], d, k)
    decreases |ps|
  {
    if i > 0 {
      PiecesAvoid(ps[1..], d, i - 1, k);
    } else if k < |ps[0]| {
      var whole := if |ps| == 1 then ps[0] else ps[0] + d;
      NoneBefore(whole, d, 0, k);
      assert k + |d| <= |ps[0]| ==> whole[k..k + |d|] == ps[0][k..k + |d|];
    }
  }

  /** With less than `|d|` left there is no match. */
  lemma {:induction false} NoRoom(s: Text, d: Text, i: nat)
    requires d != [] && i <= |s| && i + |d| > |s|
    ensures First(s, d, i) == |s|
  {
  }

  /** The pieces pushed so far, when the scan stands at `i` in the piece that begins at `start`. */
  ghost predicate SplitSoFar(s: Text, d: Text, start: nat, i: nat, v: seq<Text>)
    requires d != []
  {
    start <= i <= |s| && First(s, d, i) == First(s, d, start)
    && v + PiecesFrom(s, d, start) == PiecesFrom(s, d, 0)
  }

  lemma {:induction false} SkipOne(s: Text, d: Text, start: nat, i: nat, v: seq<Text>)
    requires d != [] && SplitSoFar(s, d, start, i, v) && i + |d| <= |s| && s[i..i + |d|] != d
    ensures SplitSoFar(s, d, start, i + 1, v)
  {
    FirstStep(s, d, i);
  }

  lemma {:induction false} TakePiece(s: Text, d: Text, start: nat, i: nat, v: seq<Text>, piece: Text)
    requires d != [] && SplitSoFar(s, d, start, i, v) && i + |d| <= |s| && s[i..i + |d|] == d
    requires piece == s[start..i]
    ensures SplitSoFar(s, d, i + |d|, i + |d|, v + [piece])
  {
    hide First, PiecesFrom;
    FirstStep(s, d, i);
    PiecesStep(s, d, start);
    var rest := PiecesFrom(s, d, i + |d|);
    assert v + ([piece] + rest) == (v + [piece]) + rest;
  }

  lemma {:induction false} TakeRest(s: Text, d: Text, start: nat, i: nat, v: seq<Text>)
    requires d != [] && SplitSoFar(s, d, start, i, v) && i + |d| > |s|
    ensures v + [s[start..]] == PiecesFrom(s, d, 0)
  {
    hide First, PiecesFrom;
    NoRoom(s, d, i);
    PiecesStep(s, d, start);
  }

  // ----- split -----------------------------------------------------------------------

  /** `build_string_split`. A delimiter longer than the text is outside it: `s.len - delim.len`
      wraps there and the scan leaves the buffer. */
  method Split(s: Text, delim: Text) returns (v: seq<Text>)
    requires |delim| <= |s|
    ensures v == if delim == [] then [s] else PiecesFrom(s, delim, 0)
  {
    if |delim| == 0 {
      return [s];
    }
    hide First, PiecesFrom, Pieces, SplitSoFar;
    v := [];
    var start: nat, i: nat := 0, 0;
    SplitBegins(s, delim);
    while i <= |s| - |delim|
      invariant start <= i <= |s| && SplitSoFar(s, delim, start, i, v)
      decreases |s| - i
    {
      if s[i..i + |delim|] == delim {
        var piece := s[start..i];
        TakePiece(s, delim, start, i, v, piece);
        v := v + [piece];
        start := i + |delim|;
        i := start - 1; // the loop increments
      } else {
        SkipOne(s, delim, start, i, v);
      }
      i := i + 1;
    }
    TakeRest(s, delim, start, i, v);
    v := v + [s[start..]];
  }

  lemma {:induction false} SplitBegins(s: Text, d: Text)
    requires d != []
    ensures SplitSoFar(s, d, 0, 0, [])
  {
  }

  // ----- replace ---------------------------------------------------------------------

  /** Where the first NUL from `i` on is; `|s|` if there is none. */
  function NulAt(s: Text, i: nat): (p: nat)
    requires i <= |s|
    ensures i <= p <= |s|
    decreases |s| - i
  {
    if i < |s| && s[i] != NUL then NulAt(s, i + 1) else i
  }

  lemma {:induction false} NulAtIsFirst(s: Text, i: nat)
    requires i <= |s|
    ensures NulAt(s, i) < |s| ==> s[NulAt(s, i)] == NUL
    ensures forall k :: i <= k < NulAt(s, i) ==> s[k] != NUL
    decreases |s| - i
  {
    if i < |s| && s[i] != NUL {
      NulAtIsFirst(s, i + 1);
    }
  }

  /** What a C function that stops at NUL sees of a text. */
  function CText(s: Text): (t: Text)
    ensures |t| <= |s|
  {
    s[..NulAt(s, 0)]
  }

  /** And what it does not see. */
  function BeyondNul(s: Text): Text { s[NulAt(s, 0)..] }

  lemma {:induction false} CTextOfNulFree(s: Text)
    ensures NulFree(CText(s)) && CText(s) + BeyondNul(s) == s
    ensures NulFree(s) ==> CText(s) == s && BeyondNul(s) == []
  {
    NulAtIsFirst(s, 0);
  }

  /** What strstr sees when it starts at `i`: up to the next NUL. */
  function Seen(s: Text, i: nat): (t: Text)
    requires i <= |s|
    ensures i <= |t| == NulAt(s, i) <= |s|
  {
    s[..NulAt(s, i)]
  }

  /** The first match of the old text, up to its NUL, where strstr looks from `i` on; the end of what
      it sees if there is none. */
  function Found(s: Text, oldS: Text, i: nat): (p: nat)
    requires i <= |s| && CText(oldS) != []
    ensures i <= p <= NulAt(s, i)
  {
    First(Seen(s, i), CText(oldS), i)
  }

  /** strstr returned a match and not null. */
  predicate Hit(s: Text, i: nat, p: nat)
    requires i <= |s|
  {
    p < NulAt(s, i)
  }

  /** A match in memory is one in the text before the NUL. */
  lemma {:induction false} MatchBeforeNul(s: Text, d: Text, i: nat, q: nat)
    requires i <= |s| && i <= q <= NulAt(s, i) && NulFree(d) && d != []
    ensures var mem := s + [NUL];
      q + |d| <= |mem| && mem[q..q + |d|] == d <==> MatchAt(Seen(s, i), d, q)
  {
    var mem, t := s + [NUL], Seen(s, i);
    NulAtIsFirst(s, i);
    assert mem[|t|] == NUL;
    if q + |d| <= |mem| {
      var seen := mem[q..q + |d|];
      assert forall k :: 0 <= k < |d| ==> seen[k] == mem[q + k];
    }
    if q + |d| <= |t| {
      assert mem[q..q + |d|] == t[q..q + |d|];
    }
  }

  /** C's strstr from `i` on in the text and the NUL behind it, for the old text up to its own NUL. */
  method StrStr(s: Text, i: nat, oldS: Text) returns (q: nat)
    requires i <= |s| && CText(oldS) != []
    ensures q == Found(s, oldS, i)
  {
    CTextOfNulFree(oldS);
    hide CText;
    var mem, d := s + [NUL], CText(oldS);
    ghost var t := Seen(s, i);
    NulAtIsFirst(s, i);
    assert mem[|t|] == NUL && forall k :: i <= k < |t| ==> mem[k] != NUL;
    q := i;
    while mem[q] != NUL
      invariant i <= q <= |t| && First(t, d, q) == First(t, d, i)
      decreases |t| - q
    {
      MatchBeforeNul(s, d, i, q);
      if q + |d| <= |mem| && mem[q..q + |d|] == d {
        return;
      }
      q := q + 1;
    }
  }

  /** `new_s.len - old_s.len` and the product are taken in size_t, where they wrap. */
  function NewLen(len: nat, count: nat, newLen: nat, oldLen: nat): nat {
    (len + count * ((newLen - oldLen) % SIZE_MODULUS)) % SIZE_MODULUS
  }

  lemma {:induction false} ModUnique(a: int, q: int, r: nat, m: nat)
    requires r < m && a == q * m + r
    ensures a % m == r
  {
    var q2 := a / m;
    assert (q2 - q) * m == r - a % m;
    assert q2 - q >= 1 ==> (q2 - q) * m >= m;
    assert q2 - q <= -1 ==> (q - q2) * m >= m;
  }

  /** The wrapped length is the true length wherever that fits, also when the text shrinks. */
  lemma {:induction false} NewLenIsTrueLength(len: nat, count: nat, newLen: nat, oldLen: nat)
    requires 0 <= len + count * (newLen - oldLen) < SIZE_MODULUS
    requires newLen < SIZE_MODULUS && oldLen < SIZE_MODULUS
    ensures NewLen(len, count, newLen, oldLen) == len + count * (newLen - oldLen)
  {
    var x := newLen - oldLen;
    var wrapped := x % SIZE_MODULUS;
    var k := if x < 0 then 1 else 0;
    assert wrapped == x + k * SIZE_MODULUS;
    var wanted := len + count * x;
    assert count * (x + k * SIZE_MODULUS) == count * x + (count * k) * SIZE_MODULUS;
    ModUnique(len + count * wrapped, count * k, wanted, SIZE_MODULUS);
  }

  /** A match never makes the scan step past the end of the text: it steps by the whole length of the
      old text, though strstr looks for the old text up to its NUL. */
  predicate Stays(s: Text, oldS: Text, i: nat)
    requires i <= |s| && CText(oldS) != []
    decreases |s| - i
  {
    var p := Found(s, oldS, i);
    Hit(s, i, p) ==> p + |oldS| <= |s| && Stays(s, oldS, p + |oldS|)
  }

  /** The texts for which the scan is defined. */
  predicate Searchable(s: Text, oldS: Text) { CText(oldS) != [] && Stays(s, oldS, 0) }

  /** How many replacements there are from `i` on, where the scan stays in the text. */
  function Matches(s: Text, oldS: Text, i: nat): (n: nat)
    requires i <= |s| && CText(oldS) != []
    decreases |s| - i
  {
    var p := Found(s, oldS, i);
    if Hit(s, i, p) && p + |oldS| <= |s| then 1 + Matches(s, oldS, p + |oldS|) else 0
  }

  /** What the copying loop writes from `i` on: the chunk before each match, then the new text. */
  function Replaced(s: Text, oldS: Text, newS: Text, i: nat): Text
    requires i <= |s| && CText(oldS) != []
    decreases |s| - i
  {
    var p := Found(s, oldS, i);
    if Hit(s, i, p) && p + |oldS| <= |s| then s[i..p] + newS + Replaced(s, oldS, newS, p + |oldS|) else s[i..]
  }

  lemma {:induction false} ScanStops(s: Text, oldS: Text, newS: Text, i: nat)
    requires i <= |s| && CText(oldS) != [] && !Hit(s, i, Found(s, oldS, i))
    ensures Stays(s, oldS, i) && Matches(s, oldS, i) == 0 && Replaced(s, oldS, newS, i) == s[i..]
  {
    hide Found, Hit;
  }

  lemma {:induction false} ScanGoesOn(s: Text, oldS: Text, newS: Text, i: nat, p: nat)
    requires i <= |s| && CText(oldS) != [] && p == Found(s, oldS, i) && Hit(s, i, p)
    ensures Stays(s, oldS, i) <==> p + |oldS| <= |s| && Stays(s, oldS, p + |oldS|)
    ensures p + |oldS| <= |s| ==>
      && Matches(s, oldS, i) == 1 + Matches(s, oldS, p + |oldS|)
      && Replaced(s, oldS, newS, i) == s[i..p] + newS + Replaced(s, oldS, newS, p + |oldS|)
  {
    hide Found, Hit;
  }

  lemma {:induction false} NulAtLater(s: Text, i: nat, j: nat)
    requires i <= |s| && i <= j <= NulAt(s, i)
    ensures NulAt(s, j) == NulAt(s, i)
    decreases j - i
  {
    if i < j {
      NulAtLater(s, i + 1, j);
    }
  }

  /** An old text without NUL is found where the text, up to its NUL, has it. */
  lemma {:induction false} FoundIsFirst(s: Text, oldS: Text, i: nat)
    requires NulFree(oldS) && oldS != [] && i <= |CText(s)|
    ensures CText(oldS) == oldS
    ensures Found(s, oldS, i) == First(CText(s), oldS, i)
    ensures Hit(s, i, Found(s, oldS, i)) <==> First(CText(s), oldS, i) < |CText(s)|
  {
    CTextOfNulFree(oldS);
    NulAtLater(s, 0, i);
  }

  lemma {:induction false} NothingBehind(s: Text, i: nat, p: nat)
    requires i <= p <= |CText(s)|
    ensures |CText(s)| <= |s| && s[i..p] == CText(s)[i..p] && s[i..] == CText(s)[i..] + BeyondNul(s)
  {
    hide NulAt;
    var n := |CText(s)|;
    assert CText(s) == s[..n] && BeyondNul(s) == s[n..];
    assert s[..n][i..p] == s[i..p];
    assert s[i..] == s[..n][i..] + s[n..];
  }

  /** The scan for an old text without NUL stays in the text, and the copying loop writes the pieces of
      split joined with the new text, and then what C does not see of the text. */
  lemma {:induction false} ReplacedIsJoin(s: Text, oldS: Text, newS: Text, i: nat)
    requires NulFree(oldS) && oldS != [] && i <= |CText(s)|
    ensures CText(oldS) == oldS && Stays(s, oldS, i)
    ensures Replaced(s, oldS, newS, i) == Join(PiecesFrom(CText(s), oldS, i), newS) + BeyondNul(s)
    ensures Matches(s, oldS, i) == |PiecesFrom(CText(s), oldS, i)| - 1
    decreases |CText(s)| - i
  {
    hide *;
    var t, p := CText(s), First(CText(s), oldS, i);
    FoundIsFirst(s, oldS, i);
    NothingBehind(s, i, p);
    PiecesStep(t, oldS, i);
    JoinFrom(t, oldS, newS, i);
    if p < |t| {
      ReplacedIsJoin(s, oldS, newS, p + |oldS|);
      ScanGoesOn(s, oldS, newS, i, p);
      Regroup3(t[i..p] + newS, Join(PiecesFrom(t, oldS, p + |oldS|), newS), BeyondNul(s));
    } else {
      ScanStops(s, oldS, newS, i);
    }
  }

  lemma {:induction false} Regroup3(a: Text, b: Text, c: Text)
    ensures a + b + c == a + (b + c)
  {
  }

  /** The counted length is the length of what is written. */
  lemma {:induction false} ReplacedLength(s: Text, oldS: Text, newS: Text, i: nat)
    requires i <= |s| && CText(oldS) != [] && Stays(s, oldS, i)
    ensures |Replaced(s, oldS, newS, i)| == |s| - i + Matches(s, oldS, i) * (|newS| - |oldS|)
    decreases |s| - i
  {
    hide *;
    var p := Found(s, oldS, i);
    if Hit(s, i, p) {
      ScanGoesOn(s, oldS, newS, i, p);
      ReplacedLength(s, oldS, newS, p + |oldS|);
      OneMore(Matches(s, oldS, p + |oldS|), |newS| - |oldS|);
    } else {
      ScanStops(s, oldS, newS, i);
    }
  }

  lemma {:induction false} OneMore(n: int, x: int)
    ensures (1 + n) * x == n * x + x
  {
  }

  /** The counting loop. */
  method CountMatches(s: Text, oldS: Text) returns (count: nat)
    requires Searchable(s, oldS)
    ensures count == Matches(s, oldS, 0)
  {
    hide Found, Replaced, Matches, CText, Stays;
    count := 0;
    var src := 0;
    var p := StrStr(s, src, oldS);
    while Hit(s, src, p)
      invariant src <= |s| && p == Found(s, oldS, src) && Stays(s, oldS, src)
      invariant count + Matches(s, oldS, src) == Matches(s, oldS, 0)
      decreases |s| - src
    {
      ScanGoesOn(s, oldS, [], src, p);
      count := count + 1;
      src := p + |oldS|;
      p := StrStr(s, src, oldS);
    }
    ScanStops(s, oldS, [], src);
  }

  /** memcpy into the buffer at `at`, after the bytes already written. */
  method Copy(buf: array<char>, at: nat, bytes: Text)
    requires at + |bytes| <= buf.Length
    modifies buf
    ensures buf[..at + |bytes|] == old(buf[..at]) + bytes
  {
    for i := 0 to |bytes|
      invariant buf[..at + i] == old(buf[..at]) + bytes[..i]
    {
      buf[at + i] := bytes[i];
    }
  }

  /** The two memcpy calls for one match. */
  method CopyMatch(buf: array<char>, at: nat, chunk: Text, newS: Text) returns (dst: nat)
    requires at + |chunk| + |newS| <= buf.Length
    modifies buf
    ensures dst == at + |chunk| + |newS|
    ensures buf[..dst] == old(buf[..at]) + chunk + newS
  {
    Copy(buf, at, chunk);
    dst := at + |chunk|;
    Copy(buf, dst, newS);
    dst := dst + |newS|;
  }

  /** What is kept of the text beyond a NUL: all of it if anything was replaced, and nothing if not. */
  function KeptBeyond(s: Text, d: Text): Text
    requires d != []
  {
    if |Pieces(CText(s), d)| == 1 then [] else BeyondNul(s)
  }

  lemma {:induction false} NulFreeIsSearchable(s: Text, oldS: Text, newS: Text)
    requires NulFree(oldS) && oldS != []
    ensures Searchable(s, oldS)
    ensures Replaced(s, oldS, newS, 0) == Join(Pieces(CText(s), oldS), newS) + BeyondNul(s)
    ensures Matches(s, oldS, 0) == |Pieces(CText(s), oldS)| - 1
  {
    ReplacedIsJoin(s, oldS, newS, 0);
    hide Stays, Found, First, PiecesFrom, Join, Replaced, Matches;
  }

  lemma {:induction false} OnePiece(t: Text, d: Text, r: Text)
    requires d != [] && |Pieces(t, d)| == 1
    ensures Join(Pieces(t, d), r) == t
  {
    JoinPieces(t, d, 0);
    assert t[0..] == t;
    hide PiecesFrom;
  }

  /** `build_string_replace`: count, allocate exactly, copy. The buffer is filled to its last byte and
      never overrun. With an old text without NUL the result is the pieces of split joined with the
      new text: of a text with a NUL in it only what comes before is searched; the rest is copied
      after it, but only when something was replaced, and otherwise the text is cut at the NUL. */
  method Replace(s: Text, oldS: Text, newS: Text) returns (res: Text)
    requires oldS != [] && !NulFree(oldS) ==> Searchable(s, oldS)
    requires |s| < SIZE_MODULUS && |oldS| < SIZE_MODULUS && |newS| < SIZE_MODULUS
    requires Searchable(s, oldS) ==> |Replaced(s, oldS, newS, 0)| + 1 < SIZE_MODULUS
    ensures oldS == [] ==> res == CText(s)
    ensures oldS != [] ==>
      Searchable(s, oldS) && res == if Matches(s, oldS, 0) == 0 then CText(s) else Replaced(s, oldS, newS, 0)
    ensures oldS != [] && NulFree(oldS) ==> res == Join(Pieces(CText(s), oldS), newS) + KeptBeyond(s, oldS)
    ensures NulFree(oldS) && NulFree(s) ==> res == if oldS == [] then s else Join(Pieces(s, oldS), newS)
  {
    CTextOfNulFree(s);
    hide CText, BeyondNul, First, Found, Stays, Replaced, Matches, Join, PiecesFrom, Pieces;
    if |oldS| == 0 {
      return CText(s);
    }
    if NUL !in oldS {
      NulFreeIsSearchable(s, oldS, newS);
      if |Pieces(CText(s), oldS)| == 1 {
        OnePiece(CText(s), oldS, newS);
      }
    }
    var count := CountMatches(s, oldS);
    if count == 0 {
      return CText(s);
    }
    ReplacedLength(s, oldS, newS, 0);
    NewLenIsTrueLength(|s|, count, |newS|, |oldS|);
    var newLen := NewLen(|s|, count, |newS|, |oldS|);
    var buf := new char[newLen + 1];
    FillBuffer(buf, newLen, s, oldS, newS);
    res := buf[..newLen];
  }

  /** What is written and what is still to be written of the text from `src` on. */
  ghost predicate Copied(done: Text, s: Text, oldS: Text, newS: Text, src: nat)
    requires CText(oldS) != [] && src <= |s|
  {
    Stays(s, oldS, src) && done + Replaced(s, oldS, newS, src) == Replaced(s, oldS, newS, 0)
  }

  lemma {:induction false} NothingCopied(s: Text, oldS: Text, newS: Text)
    requires Searchable(s, oldS)
    ensures Copied([], s, oldS, newS, 0)
  {
    hide Replaced, Stays;
  }

  lemma {:induction false} CopiedMatch(done: Text, s: Text, oldS: Text, newS: Text, src: nat, p: nat)
    requires CText(oldS) != [] && src <= |s| && Copied(done, s, oldS, newS, src)
    requires p == Found(s, oldS, src) && Hit(s, src, p)
    ensures p + |oldS| <= |s| && Copied(done + s[src..p] + newS, s, oldS, newS, p + |oldS|)
    ensures |done| + (p - src) + |newS| <= |Replaced(s, oldS, newS, 0)|
  {
    ScanGoesOn(s, oldS, newS, src, p);
    hide Replaced, Found, Stays, CText, Matches, Hit;
    Regroup(done, s[src..p], newS, Replaced(s, oldS, newS, p + |oldS|));
  }

  lemma {:induction false} CopiedRest(done: Text, s: Text, oldS: Text, newS: Text, src: nat)
    requires CText(oldS) != [] && src <= |s| && Copied(done, s, oldS, newS, src)
    requires !Hit(s, src, Found(s, oldS, src))
    ensures done + s[src..] == Replaced(s, oldS, newS, 0)
  {
    ScanStops(s, oldS, newS, src);
    hide Replaced, Found, Stays, CText, Matches, Hit;
  }

  /** The copying loop of `build_string_replace`: all up to the last match is written. */
  method CopyMatches(buf: array<char>, s: Text, oldS: Text, newS: Text) returns (dst: nat, src: nat)
    requires Searchable(s, oldS) && |Replaced(s, oldS, newS, 0)| <= buf.Length
    modifies buf
    ensures src <= |s| && dst + |s| - src == |Replaced(s, oldS, newS, 0)|
    ensures buf[..dst] + s[src..] == Replaced(s, oldS, newS, 0)
  {
    hide Found, Replaced, Matches, CText, Copied, Stays;
    dst, src := 0, 0;
    NothingCopied(s, oldS, newS);
    assert buf[..0] == [];
    var p := StrStr(s, src, oldS);
    while Hit(s, src, p)
      invariant src <= |s| && p == Found(s, oldS, src) && dst <= buf.Length
      invariant Copied(buf[..dst], s, oldS, newS, src)
      decreases |s| - src
    {
      CopiedMatch(buf[..dst], s, oldS, newS, src, p);
      dst := CopyMatch(buf, dst, s[src..p], newS);
      src := p + |oldS|;
      p := StrStr(s, src, oldS);
    }
    CopiedRest(buf[..dst], s, oldS, newS, src);
  }

  /** The loop, the remainder of the text, and the NUL behind it. */
  method FillBuffer(buf: array<char>, newLen: nat, s: Text, oldS: Text, newS: Text)
    requires Searchable(s, oldS) && newLen == |Replaced(s, oldS, newS, 0)| && buf.Length == newLen + 1
    modifies buf
    ensures buf[..] == Replaced(s, oldS, newS, 0) + [NUL]
  {
    hide Found, Replaced, Matches, Stays, CText;
    var dst, src := CopyMatches(buf, s, oldS, newS);
    var rem := |s| - src;
    Copy(buf, dst, s[src..]);
    buf[dst + rem] := NUL;
  }

  lemma {:induction false} Regroup(a: Text, b: Text, c: Text, d: Text)
    ensures a + (b + c + d) == a + b + c + d
  {
  }

  lemma {:induction false} NulComesLater(s: Text, i: nat, n: nat)
    requires i <= n <= |s| && NUL !in s[i..n]
    ensures NulAt(s, i) >= n
    decreases n - i
  {
    if i < n {
      assert s[i] == s[i..n][0] && s[i + 1..n] == s[i..n][1..];
      NulComesLater(s, i + 1, n);
    }
  }

  /** With a NUL in the old text the scan replaces what is not the old text: any text of its length
      that begins as it does before the NUL. */
  lemma {:induction false} PrefixIsEnough(s: Text, oldS: Text, newS: Text)
    requires CText(oldS) != [] && |s| == |oldS| && s[..|CText(oldS)|] == CText(oldS)
    ensures Searchable(s, oldS) && Matches(s, oldS, 0) == 1 && Replaced(s, oldS, newS, 0) == newS
  {
    var o, n := CText(oldS), |s|;
    CTextOfNulFree(oldS);
    assert s[0..|o|] == o;
    NulComesLater(s, 0, |o|);
    assert Seen(s, 0)[0..|o|] == o;
    assert Found(s, oldS, 0) == 0;
    assert !Hit(s, n, Found(s, oldS, n));
    ScanStops(s, oldS, newS, n);
    ScanGoesOn(s, oldS, newS, 0, 0);
    hide *;
    assert s[0..0] + newS + s[n..] == newS;
  }

  /** The two scans cut at the same places: replacing joins any leftmost cut with the new text,
      and replacing the delimiter by itself gives the text back. */
  lemma {:induction false} ReplaceAgreesWithSplit(s: Text, d: Text, r: Text, ps: seq<Text>)
    requires d != [] && LeftmostCut(ps, d) && Join(ps, d) == s
    ensures Join(Pieces(s, d), r) == Join(ps, r)
    ensures Join(Pieces(s, d), d) == s
  {
    assert s[0..] == s;
    PiecesUnique(s, d, 0, ps);
  }
}
