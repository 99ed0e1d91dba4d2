/** The greedy wrapper of the card. */
module CardWrap {

  // It breaks prose by drawn width and cuts it to the lines it has room for. What the breaking is
  // worth, and the gate that judges it, are the matter of CardGate.

  import opened CardWidth
  import UnitParse

  // ----- words ----------------------------------------------------------------------------------

  /** What Python takes for white space: the Unicode property and four separators. */
  predicate IsBlank(c: char) { UnitParse.IsSpace(c) || '\U{1C}' <= c <= '\U{1F}' }

  ghost predicate IsWord(w: string) { w != "" && forall i :: 0 <= i < |w| ==> !IsBlank(w[i]) }

  ghost predicate AreWords(ws: seq<string>) { forall i :: 0 <= i < |ws| ==> IsWord(ws[i]) }

  function WordEnd(s: string, i: nat): (e: nat)
    requires i <= |s|
    ensures i <= e <= |s|
    decreases |s| - i
  {
    if i < |s| && !IsBlank(s[i]) then WordEnd(s, i + 1) else i
  }

  /** The words of a text, as `split` gives them. */
  function Words(s: string, i: nat): seq<string>
    requires i <= |s|
    decreases |s| - i
  {
    if i == |s| then []
    else if IsBlank(s[i]) then Words(s, i + 1)
    else [s[i..WordEnd(s, i)]] + Words(s, WordEnd(s, i))
  }

  lemma {:induction false} WordEndAlike(s: string, i: nat, t: string, j: nat, n: nat)
    requires i + n <= |s| && j + n <= |t| && s[i..i + n] == t[j..j + n]
    requires (i + n == |s| || IsBlank(s[i + n])) && (j + n == |t| || IsBlank(t[j + n]))
    ensures WordEnd(s, i) - i == WordEnd(t, j) - j <= n
    decreases n
  {
    hide IsBlank;
    if n > 0 {
      assert s[i] == s[i..i + n][0] == t[j] && s[i + 1..i + n] == s[i..i + n][1..] == t[j + 1..j + n];
      if !IsBlank(s[i]) {
        WordEndAlike(s, i + 1, t, j + 1, n - 1);
      }
    }
  }

  /** A stretch of text up to a blank or the end has the words of that stretch, wherever it stands. */
  lemma {:induction false} WordsOfStretch(s: string, i: nat, n: nat, t: string)
    requires i + n <= |s| && s[i..i + n] == t && (i + n == |s| || IsBlank(s[i + n]))
    ensures Words(s, i) == Words(t, 0) + Words(s, i + n)
  {
    WordsFrom(s, i, n, t, 0);
  }

  lemma {:induction false} Within(s: string, i: nat, n: nat, a: nat, b: nat)
    requires i + n <= |s| && a <= b <= n
    ensures s[i + a..i + b] == s[i..i + n][a..b]
  {
    var x, y := s[i + a..i + b], s[i..i + n][a..b];
    forall k | 0 <= k < b - a ensures x[k] == y[k] {
      assert s[i..i + n][a + k] == s[i + a + k];
    }
  }

  lemma {:induction false} WordsFrom(s: string, i: nat, n: nat, t: string, k: nat)
    requires k <= n && i + n <= |s| && s[i..i + n] == t && (i + n == |s| || IsBlank(s[i + n]))
    ensures Words(s, i + k) == Words(t, k) + Words(s, i + n)
    decreases n - k
  {
    hide IsBlank;
    if k < n {
      assert s[i + k] == s[i..i + n][k];
      if IsBlank(t[k]) {
        WordsFrom(s, i, n, t, k + 1);
      } else {
        Within(s, i, n, k, n);
        WordEndAlike(s, i + k, t, k, n - k);
        var e := WordEnd(t, k);
        Within(s, i, n, k, e);
        WordsFrom(s, i, n, t, e);
      }
    }
  }

  // ----- what the words are -----------------------------------------------------------------------

  /** The characters that Python takes for white space. */
  lemma {:induction false} Blanks(c: char)
    ensures IsBlank(c) <==>
      c as int in {9, 10, 11, 12, 13, 28, 29, 30, 31, 32, 133, 160, 5760, 8232, 8233, 8239, 8287, 12288}
      || 8192 <= c as int <= 8202
  {
  }

  /** A blank parts the words before it from the words behind it. */
  lemma {:induction false} BlankParts(a: string, c: char, b: string)
    requires IsBlank(c)
    ensures Words(a + [c] + b, 0) == Words(a, 0) + Words(b, 0)
  {
    hide IsBlank;
    var s := a + [c] + b;
    assert s[0..|a|] == a && s[|a|] == c && s[|a| + 1..|s|] == b;
    WordsOfStretch(s, 0, |a|, a);
    WordsOfStretch(s, |a| + 1, |b|, b);
  }

  /** A word is the word of itself. */
  lemma {:induction false} WordIsItself(w: string)
    requires IsWord(w)
    ensures Words(w, 0) == [w]
  {
    hide IsBlank;
    WordEndOfWord(w, 0);
    assert w[0..|w|] == w;
  }

  lemma {:induction false} WordEndOfWord(w: string, i: nat)
    requires i <= |w| && forall k :: i <= k < |w| ==> !IsBlank(w[k])
    ensures WordEnd(w, i) == |w|
    decreases |w| - i
  {
    hide IsBlank;
    if i < |w| {
      WordEndOfWord(w, i + 1);
    }
  }

  /** Nothing else splits a text so: whatever has no words in nothing, a word in a word, and parts at
      blanks, gives the words. */
  lemma {:induction false} OnlyWords(split: string -> seq<string>, s: string)
    requires split("") == []
    requires forall w :: IsWord(w) ==> split(w) == [w]
    requires forall a, c, b :: IsBlank(c) ==> split(a + [c] + b) == split(a) + split(b)
    ensures split(s) == Words(s, 0)
    decreases |s|
  {
    hide IsBlank, Words;
    if forall i :: 0 <= i < |s| ==> !IsBlank(s[i]) {
      if s == "" {
        NoWords();
      } else {
        WordIsItself(s);
      }
    } else {
      var i :| 0 <= i < |s| && IsBlank(s[i]);
      var a, c, b := s[..i], s[i], s[i + 1..];
      assert s == a + [c] + b;
      BlankParts(a, c, b);
      OnlyWords(split, a);
      OnlyWords(split, b);
    }
  }

  lemma {:induction false} NoWords()
    ensures Words("", 0) == []
  {
  }

  lemma {:induction false} WordEndStops(s: string, i: nat)
    requires i <= |s|
    ensures forall k :: i <= k < WordEnd(s, i) ==> !IsBlank(s[k])
    decreases |s| - i
  {
    if i < |s| && !IsBlank(s[i]) {
      WordEndStops(s, i + 1);
    }
  }

  lemma {:induction false} WordsAreWords(s: string, i: nat)
    requires i <= |s|
    ensures AreWords(Words(s, i))
    decreases |s| - i
  {
    hide IsBlank;
    if i < |s| {
      if IsBlank(s[i]) {
        WordsAreWords(s, i + 1);
      } else {
        WordEndStops(s, i);
        WordsAreWords(s, WordEnd(s, i));
        assert IsWord(s[i..WordEnd(s, i)]);
      }
    }
  }

  function Strip(s: string): string
    decreases |s|
  {
    if s != "" && IsBlank(s[0]) then Strip(s[1..])
    else if s != "" && IsBlank(s[|s| - 1]) then Strip(s[..|s| - 1])
    else s
  }

  /** Text that begins and ends in print. */
  ghost predicate Trimmed(s: string) { s != "" && !IsBlank(s[0]) && !IsBlank(s[|s| - 1]) }

  // ----- lines ------------------------------------------------------------------------------------

  /** The line that holds words i to e - 1. */
  function LineText(ws: seq<string>, i: nat, e: nat): string
    requires i < e <= |ws|
  {
    if e == i + 1 then ws[i] else LineText(ws, i, e - 1) + " " + ws[e - 1]
  }

  ghost predicate LineFits(p: Pen, width: real, ws: seq<string>, i: nat, e: nat)
    requires i < e <= |ws|
  {
    TextWidth(p, LineText(ws, i, e)) <= width
  }

  /** A line may draw past the edge only when it is one word. */
  ghost predicate LineOk(p: Pen, width: real, ws: seq<string>, i: nat, e: nat)
    requires i < e <= |ws|
  {
    e == i + 1 || LineFits(p, width, ws, i, e)
  }

  /** Where the greedy line from word `i` ends, when it reaches at least to `e`. */
  function LineEnd(p: Pen, width: real, ws: seq<string>, i: nat, e: nat): (r: nat)
    requires i < e <= |ws|
    ensures e <= r <= |ws|
    decreases |ws| - e
  {
    if e < |ws| && TextWidth(p, LineText(ws, i, e + 1)) <= width then LineEnd(p, width, ws, i, e + 1) else e
  }

  /** The greedy lines from word `i` on. */
  function Greedy(p: Pen, width: real, ws: seq<string>, i: nat): seq<string>
    requires i <= |ws|
    decreases |ws| - i
  {
    if i == |ws| then []
    else [LineText(ws, i, LineEnd(p, width, ws, i, i + 1))] + Greedy(p, width, ws, LineEnd(p, width, ws, i, i + 1))
  }

  /** The lines that the wrapper hands back. */
  function Drawn(p: Pen, text: string, width: real, limit: nat): seq<string> {
    if |Greedy(p, width, Words(text, 0), 0)| <= limit then Greedy(p, width, Words(text, 0), 0)
    else Greedy(p, width, Words(text, 0), 0)[..limit]
  }

  // ----- the wrapper ------------------------------------------------------------------------------

  lemma {:induction false} LineTrimmed(ws: seq<string>, i: nat, e: nat)
    requires i < e <= |ws| && AreWords(ws)
    ensures Trimmed(LineText(ws, i, e))
  {
    hide IsBlank;
    assert IsWord(ws[e - 1]);
    if e > i + 1 {
      LineTrimmed(ws, i, e - 1);
      var a, b := LineText(ws, i, e - 1), ws[e - 1];
      assert (a + " " + b)[0] == a[0];
    }
  }

  ghost predicate AllBlank(s: string) { forall i :: 0 <= i < |s| ==> IsBlank(s[i]) }

  /** What is stripped are the blanks at both ends. */
  lemma {:induction false} StripEnds(a: string, t: string, b: string)
    requires AllBlank(a) && AllBlank(b) && (t == "" || Trimmed(t))
    ensures Strip(a + t + b) == t
    decreases |a| + |b|
  {
    hide IsBlank;
    var s := a + t + b;
    if a != "" {
      assert s[0] == a[0] && s[1..] == a[1..] + t + b;
      StripEnds(a[1..], t, b);
    } else if t == "" {
      assert s == b;
      StripBlank(b);
    } else if b != "" {
      assert s[0] == t[0] && s[|s| - 1] == b[|b| - 1] && s[..|s| - 1] == a + t + b[..|b| - 1];
      StripEnds(a, t, b[..|b| - 1]);
    } else {
      assert s == t;
    }
  }

  lemma {:induction false} StripBlank(s: string)
    requires AllBlank(s)
    ensures Strip(s) == ""
  {
    hide IsBlank;
    if s != "" {
      StripBlank(s[1..]);
    }
  }

  lemma {:induction false} StripTrimmed(s: string)
    requires Trimmed(s)
    ensures Strip(s) == s
  {
  }

  /** The candidate with one more word. */
  lemma {:induction false} Candidate(ws: seq<string>, i: nat, e: nat)
    requires i < e < |ws| && AreWords(ws)
    ensures Strip(LineText(ws, i, e) + " " + ws[e]) == LineText(ws, i, e + 1)
  {
    LineTrimmed(ws, i, e + 1);
    StripTrimmed(LineText(ws, i, e + 1));
  }

  lemma {:induction false} FirstCandidate(w: string)
    requires IsWord(w)
    ensures Strip("" + " " + w) == w
  {
    assert "" + " " + w == " " + w;
    assert (" " + w)[1..] == w;
    StripTrimmed(w);
  }

  /** One loop turn: the word fits on the line, or starts the next one. */
  lemma {:induction false} GreedyTurn(p: Pen, width: real, ws: seq<string>, i: nat, e: nat)
    requires i < e < |ws|
    ensures TextWidth(p, LineText(ws, i, e + 1)) <= width ==>
      LineEnd(p, width, ws, i, e) == LineEnd(p, width, ws, i, e + 1)
    ensures TextWidth(p, LineText(ws, i, e + 1)) > width ==> LineEnd(p, width, ws, i, e) == e
  {
  }

  lemma {:induction false} GreedyLine(p: Pen, width: real, ws: seq<string>, i: nat)
    requires i < |ws|
    ensures Greedy(p, width, ws, i)
         == [LineText(ws, i, LineEnd(p, width, ws, i, i + 1))] + Greedy(p, width, ws, LineEnd(p, width, ws, i, i + 1))
  {
  }

  method Wrap(p: Pen, text: string, width: real, limit: nat) returns (drawn: seq<string>)
    ensures drawn == Drawn(p, text, width, limit)
  {
    hide Words, Greedy, LineEnd, LineText, TextWidth, Strip, IsWord;
    var ws := Words(text, 0);
    WordsAreWords(text, 0);
    var lines: seq<string> := [];
    var line := "";
    ghost var all := Greedy(p, width, ws, 0);
    ghost var i: nat := 0;
    assert [] + all == all;
    for k := 0 to |ws|
      invariant i <= k && (k > 0 ==> i < k)
      invariant k == 0 ==> line == "" && i == 0
      invariant k > 0 ==> line == LineText(ws, i, k) && line != ""
      invariant k > 0 ==> LineEnd(p, width, ws, i, i + 1) == LineEnd(p, width, ws, i, k)
      invariant lines + Greedy(p, width, ws, i) == all
    {
      var word := ws[k];
      WordLine(ws, k);
      if k > 0 {
        Candidate(ws, i, k);
        GreedyTurn(p, width, ws, i, k);
        LineNotEmpty(ws, i, k + 1);
        GreedyLine(p, width, ws, i);
      }
      var candidate := Strip(line + " " + word);
      if TextWidth(p, candidate) > width && line != "" {
        NextLine(lines, line, Greedy(p, width, ws, k));
        lines := lines + [line];
        line := word;
        i := k;
      } else {
        line := candidate;
      }
    }
    if line != "" {
      LastLine(p, width, ws, i);
      NextLine(lines, line, []);
      lines := lines + [line];
    } else {
      NoLines(p, width, ws);
    }
    assert lines == all;
    return if limit < |lines| then lines[..limit] else lines;
  }

  lemma {:induction false} WordLine(ws: seq<string>, k: nat)
    requires k < |ws| && AreWords(ws)
    ensures LineText(ws, k, k + 1) == ws[k] != "" && Strip("" + " " + ws[k]) == ws[k]
  {
    FirstCandidate(ws[k]);
  }

  lemma {:induction false} LineNotEmpty(ws: seq<string>, i: nat, e: nat)
    requires i < e <= |ws| && AreWords(ws)
    ensures LineText(ws, i, e) != ""
  {
    LineTrimmed(ws, i, e);
  }

  lemma {:induction false} NextLine(lines: seq<string>, line: string, rest: seq<string>)
    ensures lines + ([line] + rest) == lines + [line] + rest
  {
  }

  lemma {:induction false} LastLine(p: Pen, width: real, ws: seq<string>, i: nat)
    requires i < |ws| && LineEnd(p, width, ws, i, i + 1) == LineEnd(p, width, ws, i, |ws|)
    ensures Greedy(p, width, ws, i) == [LineText(ws, i, |ws|)]
  {
    assert Greedy(p, width, ws, |ws|) == [];
  }

  lemma {:induction false} NoLines(p: Pen, width: real, ws: seq<string>)
    requires ws == []
    ensures Greedy(p, width, ws, 0) == []
  {
  }
}
