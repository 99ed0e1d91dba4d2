/** What the card wrapper and its gate are worth. */
module CardGate {

  // What the wrapper and its gate are worth: no breaking uses fewer lines than the greedy one, so the
  // gate finds a lost ending exactly when the text cannot be set in the lines there are; and what
  // fits the renderer's table fits every measured face.

  import opened CardWidth
  import opened CardWrap
  import opened StringScan

  // ----- widths of parts of a line ----------------------------------------------------------------

  lemma {:induction false} TotalAppend(p: Pen, a: string, b: string)
    ensures Total(p, a + b) == Total(p, a) + Total(p, b)
  {
    if b == "" {
      assert a + b == a;
    } else {
      TotalAppend(p, a, b[..|b| - 1]);
      assert (a + b)[..|a + b| - 1] == a + b[..|b| - 1];
    }
  }

  lemma {:induction false} TotalNonNegative(p: Pen, s: string)
    requires NonNegative(p)
    ensures Total(p, s) >= 0.0
  {
    if s != "" {
      TotalNonNegative(p, s[..|s| - 1]);
    }
  }

  /** The width of a line with one more word. */
  lemma {:induction false} LineGrows(p: Pen, ws: seq<string>, i: nat, e: nat)
    requires i < e < |ws|
    ensures Total(p, LineText(ws, i, e + 1)) == Total(p, LineText(ws, i, e)) + Total(p, " ") + Total(p, ws[e])
  {
    var line := LineText(ws, i, e);
    TotalAppend(p, line + " ", ws[e]);
    TotalAppend(p, line, " ");
  }

  /** The width of a line without its first word. */
  lemma {:induction false} LineWithoutFirst(p: Pen, ws: seq<string>, i: nat, e: nat)
    requires i + 1 < e <= |ws|
    ensures Total(p, LineText(ws, i, e)) == Total(p, ws[i]) + Total(p, " ") + Total(p, LineText(ws, i + 1, e))
  {
    LineGrows(p, ws, i, e - 1);
    if e > i + 2 {
      LineWithoutFirst(p, ws, i, e - 1);
      LineGrows(p, ws, i + 1, e - 1);
    }
  }

  /** A part of a line is no wider than the line. */
  lemma {:induction false} PartOfLine(p: Pen, ws: seq<string>, j: nat, f: nat, i: nat, e: nat)
    requires NonNegative(p) && j <= i < e <= f <= |ws|
    ensures Total(p, LineText(ws, i, e)) <= Total(p, LineText(ws, j, f))
    decreases (i - j) + (f - e)
  {
    hide Total, LineText;
    TotalNonNegative(p, " ");
    if j < i {
      PartOfLine(p, ws, j + 1, f, i, e);
      LineWithoutFirst(p, ws, j, f);
      TotalNonNegative(p, ws[j]);
    } else if e < f {
      PartOfLine(p, ws, j, f - 1, i, e);
      LineGrows(p, ws, j, f - 1);
      TotalNonNegative(p, ws[f - 1]);
    }
  }

  lemma {:induction false} PartFits(p: Pen, width: real, ws: seq<string>, j: nat, f: nat, i: nat, e: nat)
    requires NonNegative(p) && j <= i < e <= f <= |ws| && LineFits(p, width, ws, j, f)
    ensures LineFits(p, width, ws, i, e)
  {
    hide Total;
    PartOfLine(p, ws, j, f, i, e);
  }

  // ----- greedy is best -----------------------------------------------------------------------------

  /** Lines that end before these words, from word `i` on: each fits, or is one word. */
  ghost predicate Breaking(p: Pen, width: real, ws: seq<string>, i: nat, ends: seq<nat>)
    decreases |ends|
  {
    if ends == [] then i == |ws|
    else i < ends[0] <= |ws| && LineOk(p, width, ws, i, ends[0]) && Breaking(p, width, ws, ends[0], ends[1..])
  }

  /** The greedy line goes at least as far as any line that fits. */
  lemma {:induction false} GreedyReaches(p: Pen, width: real, ws: seq<string>, i: nat, e: nat, f: nat)
    requires NonNegative(p) && i < e <= f <= |ws| && LineOk(p, width, ws, i, f)
    ensures LineEnd(p, width, ws, i, e) >= f
    decreases f - e
  {
    hide TextWidth, LineText;
    if e < f {
      PartFits(p, width, ws, i, f, i, e + 1);
      GreedyReaches(p, width, ws, i, e + 1, f);
    }
  }

  lemma {:induction false} PartOk(p: Pen, width: real, ws: seq<string>, j: nat, i: nat, f: nat)
    requires NonNegative(p) && j <= i < f <= |ws| && LineOk(p, width, ws, j, f)
    ensures LineOk(p, width, ws, i, f)
  {
    if i + 1 < f {
      PartFits(p, width, ws, j, f, i, f);
    }
  }

  /** From any later word, the greedy lines are no more than those of any breaking. */
  lemma {:induction false} GreedyIsFewest(p: Pen, width: real, ws: seq<string>, j: nat, i: nat, ends: seq<nat>)
    requires NonNegative(p) && j <= i <= |ws| && Breaking(p, width, ws, j, ends)
    ensures |Greedy(p, width, ws, i)| <= |ends|
    decreases |ends|
  {
    hide LineOk, LineText, TextWidth, LineEnd;
    if i < |ws| {
      var f := ends[0];
      if f <= i {
        GreedyIsFewest(p, width, ws, f, i, ends[1..]);
      } else {
        PartOk(p, width, ws, j, i, f);
        GreedyReaches(p, width, ws, i, i + 1, f);
        GreedyIsFewest(p, width, ws, f, LineEnd(p, width, ws, i, i + 1), ends[1..]);
      }
    }
  }

  function GreedyEnds(p: Pen, width: real, ws: seq<string>, i: nat): seq<nat>
    requires i <= |ws|
    decreases |ws| - i
  {
    if i == |ws| then []
    else [LineEnd(p, width, ws, i, i + 1)] + GreedyEnds(p, width, ws, LineEnd(p, width, ws, i, i + 1))
  }

  lemma {:induction false} LineEndOk(p: Pen, width: real, ws: seq<string>, i: nat, e: nat)
    requires i < e <= |ws| && LineOk(p, width, ws, i, e)
    ensures LineOk(p, width, ws, i, LineEnd(p, width, ws, i, e))
    decreases |ws| - e
  {
    hide LineText, Total;
    if e < |ws| && TextWidth(p, LineText(ws, i, e + 1)) <= width {
      LineEndOk(p, width, ws, i, e + 1);
    }
  }

  /** The greedy lines are themselves a breaking. */
  lemma {:induction false} GreedyIsBreaking(p: Pen, width: real, ws: seq<string>, i: nat)
    requires i <= |ws|
    ensures Breaking(p, width, ws, i, GreedyEnds(p, width, ws, i))
    ensures |GreedyEnds(p, width, ws, i)| == |Greedy(p, width, ws, i)|
    decreases |ws| - i
  {
    hide LineEnd, LineText, TextWidth;
    if i < |ws| {
      var e := LineEnd(p, width, ws, i, i + 1);
      LineEndOk(p, width, ws, i, i + 1);
      GreedyIsBreaking(p, width, ws, e);
      assert GreedyEnds(p, width, ws, i)[1..] == GreedyEnds(p, width, ws, e);
    }
  }

  ghost predicate CanBreak(p: Pen, width: real, ws: seq<string>, limit: nat) {
    exists ends: seq<nat> :: Breaking(p, width, ws, 0, ends) && |ends| <= limit
  }

  /** The greedy lines fit into `limit` exactly when some breaking does. */
  lemma {:induction false} FewestDecides(p: Pen, width: real, ws: seq<string>, limit: nat)
    requires NonNegative(p)
    ensures |Greedy(p, width, ws, 0)| <= limit <==> CanBreak(p, width, ws, limit)
  {
    GreedyIsBreaking(p, width, ws, 0);
    if CanBreak(p, width, ws, limit) {
      var ends: seq<nat> :| Breaking(p, width, ws, 0, ends) && |ends| <= limit;
      GreedyIsFewest(p, width, ws, 0, 0, ends);
    }
  }

  // ----- the ending -----------------------------------------------------------------------------------

  lemma {:induction false} JoinAppend(a: seq<string>, b: seq<string>, d: string)
    requires a != [] && b != []
    ensures Join(a + b, d) == Join(a, d) + d + Join(b, d)
  {
    hide Join;
    var rest := a[1..];
    assert a == [a[0]] + rest;
    if rest == [] {
      JoinCons(a[0], b, d);
      JoinOne(a[0], d);
      assert a == [a[0]];
    } else {
      JoinAppend(rest, b, d);
      assert a + b == [a[0]] + (rest + b);
      JoinCons(a[0], rest + b, d);
      JoinCons(a[0], rest, d);
      Regrouped(a[0], d, Join(rest, d), Join(b, d));
    }
  }

  lemma {:induction false} JoinOne(x: string, d: string)
    ensures Join([x], d) == x
  {
  }

  lemma {:induction false} Regrouped(a: string, d: string, x: string, y: string)
    ensures a + d + (x + d + y) == a + d + x + d + y
  {
  }

  lemma {:induction false} LineIsJoin(ws: seq<string>, i: nat, e: nat)
    requires i < e <= |ws|
    ensures LineText(ws, i, e) == Join(ws[i..e], " ")
  {
    hide Join;
    if e == i + 1 {
      assert ws[i..e] == [ws[i]];
      JoinOne(ws[i], " ");
    } else {
      LineIsJoin(ws, i, e - 1);
      assert ws[i..e] == ws[i..e - 1] + [ws[e - 1]];
      JoinAppend(ws[i..e - 1], [ws[e - 1]], " ");
      JoinOne(ws[e - 1], " ");
    }
  }

  /** All greedy lines together are the whole text. */
  lemma {:induction false} GreedyKeepsText(p: Pen, width: real, ws: seq<string>, i: nat)
    requires i <= |ws|
    ensures Join(Greedy(p, width, ws, i), " ") == Join(ws[i..], " ")
    ensures Greedy(p, width, ws, i) == [] <==> i == |ws|
    decreases |ws| - i
  {
    hide Join, LineEnd, LineText;
    if i < |ws| {
      var e := LineEnd(p, width, ws, i, i + 1);
      LineIsJoin(ws, i, e);
      GreedyKeepsText(p, width, ws, e);
      if e < |ws| {
        assert ws[i..] == ws[i..e] + ws[e..];
        JoinAppend(ws[i..e], ws[e..], " ");
        JoinCons(LineText(ws, i, e), Greedy(p, width, ws, e), " ");
      } else {
        assert ws[i..] == ws[i..e];
        assert Greedy(p, width, ws, i) == [LineText(ws, i, e)];
        JoinOne(LineText(ws, i, e), " ");
      }
    } else {
      assert ws[i..] == [];
    }
  }

  lemma {:induction false} GreedyLinesNotEmpty(p: Pen, width: real, ws: seq<string>, i: nat, k: nat)
    requires i <= |ws| && AreWords(ws) && k < |Greedy(p, width, ws, i)|
    ensures Greedy(p, width, ws, i)[k] != ""
    decreases |ws| - i
  {
    hide LineText, LineEnd, IsWord;
    var e := LineEnd(p, width, ws, i, i + 1);
    if k == 0 {
      LineNotEmpty(ws, i, e);
    } else {
      GreedyLinesNotEmpty(p, width, ws, e, k - 1);
    }
  }

  /** Dropping lines drops text. */
  lemma {:induction false} CutLosesText(lines: seq<string>, limit: nat)
    requires limit < |lines| && forall k :: 0 <= k < |lines| ==> lines[k] != ""
    ensures Join(lines[..limit], " ") != Join(lines, " ")
  {
    hide Join;
    assert lines == lines[..limit] + lines[limit..];
    if limit > 0 {
      JoinAppend(lines[..limit], lines[limit..], " ");
      assert |Join(lines, " ")| > |Join(lines[..limit], " ")|;
    } else {
      assert lines[..limit] == [];
      JoinNotEmpty(lines);
    }
  }

  lemma {:induction false} JoinNotEmpty(lines: seq<string>)
    requires lines != [] && lines[0] != ""
    ensures Join(lines, " ") != Join([], " ")
  {
  }

  // ----- the gate ---------------------------------------------------------------------------------------

  method Over(faces: Faces, line: string, budget: real) returns (bad: seq<Complaint>)
    ensures bad == [] <==> forall j :: 0 <= j < |faces| ==> FaceWidth(faces[j], line) <= budget
    ensures bad != [] ==>
      exists k: nat :: k < |faces| && bad == [RunsLong(line, k)] && FaceWidth(faces[k], line) > budget
  {
    var k, width := WidestFace(faces, line);
    return if width <= budget then [] else [RunsLong(line, k)];
  }

  ghost predicate FitsFaces(faces: Faces, line: string, budget: real) {
    forall j :: 0 <= j < |faces| ==> FaceWidth(faces[j], line) <= budget
  }

  /** The gate on a wrapped column: a lost ending is reported exactly when the text cannot be broken
      into that many lines, and a long line exactly when a drawn line overruns some face. */
  method LinesThatRunLong(p: Pen, faces: Faces, text: string, budget: real, limit: nat) returns (bad: seq<Complaint>)
    requires NonNegative(p)
    ensures LosesItsEnding in bad <==> !CanBreak(p, budget, Words(text, 0), limit)
    ensures (forall c :: c in bad ==> !c.RunsLong?) <==>
      forall k :: 0 <= k < |Drawn(p, text, budget, limit)| ==>
        FitsFaces(faces, Drawn(p, text, budget, limit)[k], budget)
    ensures forall c :: c in bad ==> c.LosesItsEnding? || (c.RunsLong? && c.line in Drawn(p, text, budget, limit))
  {
    hide Words, Greedy, Join, FaceWidth, CanBreak, Drawn;
    var drawn := Wrap(p, text, budget, limit);
    EndingTells(p, text, budget, limit);
    bad := [];
    if Join(drawn, " ") != Join(Words(text, 0), " ") {
      bad := bad + [LosesItsEnding];
    }
    ghost var lost := bad;
    for k := 0 to |drawn|
      invariant LosesItsEnding in bad <==> LosesItsEnding in lost
      invariant (forall c :: c in bad ==> !c.RunsLong?)
        <==> forall j :: 0 <= j < k ==> FitsFaces(faces, drawn[j], budget)
      invariant forall c :: c in bad ==> c.LosesItsEnding? || (c.RunsLong? && c.line in drawn)
    {
      var over := Over(faces, drawn[k], budget);
      assert over == [] <==> FitsFaces(faces, drawn[k], budget);
      assert over != [] ==> over[0] in bad + over;
      bad := bad + over;
    }
  }

  lemma {:induction false} EndingTells(p: Pen, text: string, width: real, limit: nat)
    requires NonNegative(p)
    ensures Join(Drawn(p, text, width, limit), " ") == Join(Words(text, 0), " ")
       <==> CanBreak(p, width, Words(text, 0), limit)
  {
    hide Words, Greedy, Join, CanBreak;
    FewestDecides(p, width, Words(text, 0), limit);
    WordsAreWords(text, 0);
    GreedyEndings(p, width, Words(text, 0), limit);
  }

  /** The joined lines are the joined words exactly when nothing was cut. */
  lemma {:induction false} GreedyEndings(p: Pen, width: real, ws: seq<string>, limit: nat)
    requires AreWords(ws)
    ensures var all := Greedy(p, width, ws, 0);
      Join(if |all| <= limit then all else all[..limit], " ") == Join(ws, " ") <==> |all| <= limit
  {
    var all := Greedy(p, width, ws, 0);
    GreedyKeepsText(p, width, ws, 0);
    assert ws[0..] == ws;
    hide Join, Greedy;
    if |all| > limit {
      forall k | 0 <= k < |all| ensures all[k] != "" {
        GreedyLinesNotEmpty(p, width, ws, 0, k);
      }
      CutLosesText(all, limit);
    }
  }

  // ----- the two measures together ------------------------------------------------------------------------

  ghost predicate WordsFit(p: Pen, width: real, ws: seq<string>) {
    forall k :: 0 <= k < |ws| ==> TextWidth(p, ws[k]) <= width
  }

  /** Every greedy line is within the width once every word is. */
  lemma {:induction false} GreedyLinesFit(p: Pen, width: real, ws: seq<string>, i: nat, k: nat)
    requires i <= |ws| && WordsFit(p, width, ws) && k < |Greedy(p, width, ws, i)|
    ensures TextWidth(p, Greedy(p, width, ws, i)[k]) <= width
    decreases |ws| - i
  {
    hide TextWidth, LineEnd;
    var e := LineEnd(p, width, ws, i, i + 1);
    if k == 0 {
      LineEndOk(p, width, ws, i, i + 1);
      assert TextWidth(p, ws[i]) <= width;
    } else {
      GreedyLinesFit(p, width, ws, e, k - 1);
    }
  }

  /** The renderer's table, as it is made from the faces, lets no wrapped line overrun a face: when
      every word fits the budget, the gate has nothing to say of any line. */
  lemma {:induction false} NoWrappedLineFails(m: Metrics, text: string, budget: real, limit: nat, k: nat)
    requires WordsFit(NotePen(m), budget, Words(text, 0))
    requires k < |Drawn(NotePen(m), text, budget, limit)|
    ensures FitsFaces(m.sans, Drawn(NotePen(m), text, budget, limit)[k], budget)
    ensures NonNegative(NotePen(m))
  {
    var p := NotePen(m);
    var line := Drawn(p, text, budget, limit)[k];
    WidestNonNegative(m, 0);
    GreedyLinesFit(p, budget, Words(text, 0), 0, k);
    hide TextWidth, FaceWidth, Greedy, Words;
    forall j | 0 <= j < |m.sans| ensures FaceWidth(m.sans[j], line) <= budget {
      WidestCovers(m, 0, j);
      FaceWithinTable(p, m.sans[j], 0.0, line);
    }
  }

  /** The gate on a note: it passes a text whose words fit exactly when the text can be set at all. */
  method NoteOverflows(m: Metrics, text: string, budget: real, limit: nat) returns (bad: seq<Complaint>)
    requires WordsFit(NotePen(m), budget, Words(text, 0))
    ensures bad == [] <==> CanBreak(NotePen(m), budget, Words(text, 0), limit)
    ensures bad == [] || forall c :: c in bad ==> c.LosesItsEnding?
  {
    hide CanBreak, Words, Drawn, FitsFaces, WordsFit;
    WidestNonNegative(m, 0);
    bad := LinesThatRunLong(NotePen(m), m.sans, text, budget, limit);
    forall k | 0 <= k < |Drawn(NotePen(m), text, budget, limit)|
      ensures FitsFaces(m.sans, Drawn(NotePen(m), text, budget, limit)[k], budget)
    {
      NoWrappedLineFails(m, text, budget, limit, k);
    }
    if bad != [] {
      assert bad[0] in bad;
    }
  }
}
