/** Widths of drawn text. */
module CardWidth {

  // Widths of drawn text: the renderer's table, which takes for each character the widest advance of
  // any measured face, and the gate's own measure, one face at a time. Advances are thousandths of
  // an em; prose is drawn at 11.5 pixels without letter-spacing.

  const FIRST: nat := 32
  const LAST: nat := 126
  const SPAN: nat := 95
  const SIZE: real := 11.5

  type Face = f: seq<nat> | |f| == SPAN witness seq(SPAN, i => 0)

  const BLANK: Face := seq(SPAN, i => 0)

  type Faces = fs: seq<Face> | |fs| > 0 witness [BLANK]

  type Bound = b: seq<real> | |b| == SPAN witness seq(SPAN, i => 0.0)

  /** The measured faces of the four tables. */
  datatype Metrics = Metrics(sans: Faces, sansBold: Faces, mono: Faces, monoBold: Faces)

  function Max(a: nat, b: nat): nat { if a >= b then a else b }

  function MaxReal(a: real, b: real): real { if a >= b then a else b }

  /** The widest advance that any of the faces gives to character number `i`. */
  function Largest(faces: seq<Face>, i: nat): nat
    requires i < SPAN
  {
    if faces == [] then 0 else Max(Largest(faces[..|faces| - 1], i), faces[|faces| - 1][i])
  }

  function Widest(faces: Faces): Bound {
    seq(SPAN, i requires 0 <= i < SPAN => Largest(faces, i) as real / 1000.0)
  }

  function MaxOf(s: seq<nat>): nat { if s == [] then 0 else Max(MaxOf(s[..|s| - 1]), s[|s| - 1]) }

  function MaxOfReals(s: seq<real>): real {
    if s == [] then 0.0 else MaxReal(MaxOfReals(s[..|s| - 1]), s[|s| - 1])
  }

  /** What a character outside the tables is taken to draw. */
  function OffTable(m: Metrics): real {
    MaxReal(
      MaxReal(MaxOfReals(Widest(m.sans)), MaxOfReals(Widest(m.sansBold))),
      MaxReal(MaxOfReals(Widest(m.mono)), MaxOfReals(Widest(m.monoBold))))
  }

  predicate OnTable(c: char) { FIRST <= c as int <= LAST }

  /** A table to draw with, and what it gives to characters outside it. */
  datatype Pen = Pen(bound: Bound, off: real)

  /** A table that the renderer draws with, and the faces it stands for. */
  datatype Table = Table(bound: seq<real>, faces: Faces)

  /** The four tables as the renderer makes them from the faces. */
  function RendererTables(m: Metrics): (tables: seq<Table>)
    ensures |tables| == 4 && forall t :: 0 <= t < 4 ==> |tables[t].bound| == SPAN
  {
    [Table(Widest(m.sans), m.sans), Table(Widest(m.sansBold), m.sansBold),
     Table(Widest(m.mono), m.mono), Table(Widest(m.monoBold), m.monoBold)]
  }

  function TablePen(m: Metrics, t: nat): Pen
    requires t < 4
  {
    Pen(RendererTables(m)[t].bound, OffTable(m))
  }

  /** Prose is drawn in the regular sans. */
  function NotePen(m: Metrics): Pen { TablePen(m, 0) }

  function Advance(p: Pen, c: char): real { if OnTable(c) then p.bound[c as int - FIRST] else p.off }

  function Total(p: Pen, text: string): real {
    if text == "" then 0.0 else Total(p, text[..|text| - 1]) + Advance(p, text[|text| - 1])
  }

  /** What one line of prose draws, in pixels. */
  function TextWidth(p: Pen, text: string): real { Total(p, text) * SIZE }

  ghost predicate NonNegative(p: Pen) { p.off >= 0.0 && forall i :: 0 <= i < SPAN ==> p.bound[i] >= 0.0 }

  // ----- the gate's measure ---------------------------------------------------------------------

  function FaceAdvance(f: Face, c: char): nat { if OnTable(c) then f[c as int - FIRST] else MaxOf(f) }

  function FaceTotal(f: Face, text: string): nat {
    if text == "" then 0 else FaceTotal(f, text[..|text| - 1]) + FaceAdvance(f, text[|text| - 1])
  }

  function FaceWidth(f: Face, text: string): real { FaceTotal(f, text) as real / 1000.0 * SIZE }

  /** The first of the faces that draw the text widest. */
  method WidestFace(faces: Faces, text: string) returns (k: nat, width: real)
    ensures k < |faces| && width == FaceWidth(faces[k], text)
    ensures forall j :: 0 <= j < |faces| ==> FaceWidth(faces[j], text) <= width
    ensures forall j :: 0 <= j < k ==> FaceWidth(faces[j], text) < width
  {
    k, width := 0, FaceWidth(faces[0], text);
    for i := 1 to |faces|
      invariant k < i && width == FaceWidth(faces[k], text)
      invariant forall j :: 0 <= j < i ==> FaceWidth(faces[j], text) <= width
      invariant forall j :: 0 <= j < k ==> FaceWidth(faces[j], text) < width
    {
      var drawn := FaceWidth(faces[i], text);
      if drawn > width {
        k, width := i, drawn;
      }
    }
  }

  // ----- the table dominates every face -----------------------------------------------------------

  /** The table gives every character at least what the face does, up to a slack in em. */
  ghost predicate Covers(p: Pen, f: Face, slack: real) {
    && (forall i :: 0 <= i < SPAN ==> p.bound[i] >= f[i] as real / 1000.0 - slack)
    && p.off >= MaxOf(f) as real / 1000.0 - slack
  }

  lemma {:induction false} LargestIsLargest(faces: seq<Face>, i: nat, k: nat)
    requires i < SPAN && k < |faces|
    ensures faces[k][i] <= Largest(faces, i)
  {
    if k < |faces| - 1 {
      LargestIsLargest(faces[..|faces| - 1], i, k);
    }
  }

  lemma {:induction false} MaxOfIsReached(s: seq<nat>)
    requires s != []
    ensures exists i :: 0 <= i < |s| && MaxOf(s) == s[i]
  {
    if |s| == 1 {
      assert MaxOf(s) == s[0];
    } else {
      MaxOfIsReached(s[..|s| - 1]);
      var i :| 0 <= i < |s| - 1 && MaxOf(s[..|s| - 1]) == s[..|s| - 1][i];
      assert MaxOf(s) == s[i] || MaxOf(s) == s[|s| - 1];
    }
  }

  lemma {:induction false} MaxOfRealsBounds(s: seq<real>, i: nat)
    requires i < |s|
    ensures s[i] <= MaxOfReals(s)
  {
    if i < |s| - 1 {
      MaxOfRealsBounds(s[..|s| - 1], i);
    }
  }

  lemma {:induction false} TableCovers(faces: Faces, k: nat, off: real)
    requires k < |faces| && off >= MaxOfReals(Widest(faces))
    ensures Covers(Pen(Widest(faces), off), faces[k], 0.0)
  {
    var f, b := faces[k], Widest(faces);
    forall i | 0 <= i < SPAN ensures b[i] >= f[i] as real / 1000.0 {
      LargestIsLargest(faces, i, k);
    }
    MaxOfIsReached(f);
    var i :| 0 <= i < |f| && MaxOf(f) == f[i];
    MaxOfRealsBounds(b, i);
  }

  /** Each of the renderer's four tables covers every face it was made from, characters off the table
      included. */
  lemma {:induction false} WidestCovers(m: Metrics, t: nat, k: nat)
    requires t < 4 && k < |RendererTables(m)[t].faces|
    ensures Covers(TablePen(m, t), RendererTables(m)[t].faces[k], 0.0)
  {
    hide Widest, Covers, MaxOfReals;
    TableCovers(RendererTables(m)[t].faces, k, OffTable(m));
  }

  lemma {:induction false} WidestNonNegative(m: Metrics, t: nat)
    requires t < 4
    ensures NonNegative(TablePen(m, t))
  {
    MaxOfRealsBounds(Widest(m.sans), 0);
  }

  lemma {:induction false} TotalCovers(p: Pen, f: Face, slack: real, text: string)
    requires Covers(p, f, slack)
    ensures FaceTotal(f, text) as real / 1000.0 <= Total(p, text) + slack * (|text| as real)
  {
    if text != "" {
      TotalCovers(p, f, slack, text[..|text| - 1]);
      OneMore(slack, |text| - 1);
      AdvanceCovers(p, f, slack, text[|text| - 1]);
      hide Covers, FaceAdvance, Advance;
    }
  }

  lemma {:induction false} OneMore(slack: real, n: nat)
    ensures slack * ((n + 1) as real) == slack * (n as real) + slack
  {
    assert (n + 1) as real == n as real + 1.0;
  }

  lemma {:induction false} AdvanceCovers(p: Pen, f: Face, slack: real, c: char)
    requires Covers(p, f, slack)
    ensures FaceAdvance(f, c) as real / 1000.0 <= Advance(p, c) + slack
  {
  }

  /** A face draws no line wider than the renderer assumes, but for the slack. */
  lemma {:induction false} FaceWithinTable(p: Pen, f: Face, slack: real, text: string)
    requires Covers(p, f, slack)
    ensures FaceWidth(f, text) <= TextWidth(p, text) + slack * (|text| as real) * SIZE
  {
    TotalCovers(p, f, slack, text);
  }

  // ----- the gate on the table --------------------------------------------------------------------

  const TOLERANCE: real := 0.000000001

  datatype Complaint =
    | WrongLength(table: nat, length: nat)
    | Underestimates(table: nat, face: nat, character: nat)
    | LosesItsEnding
    | RunsLong(line: string, face: nat)

  ghost predicate Underestimated(bound: seq<real>, f: Face, i: nat)
    requires |bound| == SPAN && i < SPAN
  {
    bound[i] < f[i] as real / 1000.0 - TOLERANCE
  }

  /** What there is to report of table number `t`. */
  ghost predicate Deserved(t: nat, table: Table, c: Complaint) {
    match c
    case WrongLength(u, length) => u == t && |table.bound| != SPAN && length == |table.bound|
    case Underestimates(u, face, character) =>
      && u == t && |table.bound| == SPAN && face < |table.faces| && character < SPAN
      && Underestimated(table.bound, table.faces[face], character)
    case _ => false
  }

  /** The table is as long as the faces and nowhere, within the tolerance, below one of them. */
  ghost predicate Passes(table: Table) {
    && |table.bound| == SPAN
    && forall k, i :: 0 <= k < |table.faces| && 0 <= i < SPAN ==> !Underestimated(table.bound, table.faces[k], i)
  }

  method CheckTable(t: nat, table: Table) returns (bad: seq<Complaint>)
    ensures forall c :: c in bad <==> Deserved(t, table, c)
  {
    bad := [];
    if |table.bound| != SPAN {
      return [WrongLength(t, |table.bound|)];
    }
    for k := 0 to |table.faces|
      invariant forall c :: c in bad <==> Deserved(t, table, c) && c.face < k
    {
      for i := 0 to SPAN
        invariant forall c :: c in bad <==> Deserved(t, table, c) && (c.face < k || (c.face == k && c.character < i))
      {
        if table.bound[i] < table.faces[k][i] as real / 1000.0 - TOLERANCE {
          bad := bad + [Underestimates(t, k, i)];
        }
      }
    }
  }

  lemma {:induction false} NothingDeserved(t: nat, table: Table)
    ensures Passes(table) <==> forall c :: !Deserved(t, table, c)
  {
    if !Passes(table) {
      if |table.bound| != SPAN {
        assert Deserved(t, table, WrongLength(t, |table.bound|));
      } else {
        var k, i :| 0 <= k < |table.faces| && 0 <= i < SPAN && Underestimated(table.bound, table.faces[k], i);
        assert Deserved(t, table, Underestimates(t, k, i));
      }
    }
  }

  /** Every character of every face of every table is compared, and exactly the differences are
      reported: nothing, exactly when every table passes. */
  method FacesUnderestimated(tables: seq<Table>) returns (bad: seq<Complaint>)
    ensures forall c :: c in bad <==> exists t: nat :: t < |tables| && Deserved(t, tables[t], c)
    ensures bad == [] <==> forall t :: 0 <= t < |tables| ==> Passes(tables[t])
  {
    hide Deserved, Passes;
    bad := [];
    for t := 0 to |tables|
      invariant forall c :: c in bad <==> exists u: nat :: u < t && Deserved(u, tables[u], c)
    {
      var more := CheckTable(t, tables[t]);
      bad := bad + more;
    }
    forall t: nat | t < |tables| ensures Passes(tables[t]) <==> forall c :: !Deserved(t, tables[t], c) {
      NothingDeserved(t, tables[t]);
    }
    if bad == [] {
      forall t: nat, c | t < |tables| ensures !Deserved(t, tables[t], c) {
        assert c !in bad;
      }
    } else {
      assert bad[0] in bad;
      ghost var u: nat :| u < |tables| && Deserved(u, tables[u], bad[0]);
      assert !Passes(tables[u]);
    }
  }

  lemma {:induction false} WidestPasses(faces: Faces)
    ensures Passes(Table(Widest(faces), faces))
  {
    var b := Widest(faces);
    forall k, i | 0 <= k < |faces| && 0 <= i < SPAN ensures !Underestimated(b, faces[k], i) {
      LargestIsLargest(faces, i, k);
    }
  }

  /** The renderer's four tables pass. */
  lemma {:induction false} RendererPasses(m: Metrics)
    ensures forall t :: 0 <= t < |RendererTables(m)| ==> Passes(RendererTables(m)[t])
  {
    hide Passes, Widest;
    WidestPasses(m.sans);
    WidestPasses(m.sansBold);
    WidestPasses(m.mono);
    WidestPasses(m.monoBold);
  }

  /** A table that passes covers every face, off the table too, within the tolerance of a character. */
  lemma {:induction false} PassingTableCovers(p: Pen, faces: Faces, f: Face)
    requires Passes(Table(p.bound, faces)) && f in faces
    requires p.off >= MaxOfReals(p.bound)
    ensures Covers(p, f, TOLERANCE)
  {
    MaxOfIsReached(f);
    var i :| 0 <= i < |f| && MaxOf(f) == f[i];
    MaxOfRealsBounds(p.bound, i);
    var j :| 0 <= j < |faces| && faces[j] == f;
    forall k | 0 <= k < SPAN ensures p.bound[k] >= f[k] as real / 1000.0 - TOLERANCE {
      assert !Underestimated(p.bound, faces[j], k);
    }
    assert p.bound[i] >= f[i] as real / 1000.0 - TOLERANCE;
  }
}
