/**
 The field projections in every kind of printed tree: every line but theirs is a single line, a tree
 is quiet exactly when its field names are, and no label of theirs occurs again after them.
 */
module MirFields {
  import opened Options
  import opened Decimal
  import opened Quoting
  import opened MirTree
  import opened MirNodes
  import opened MirHeads
  import opened MirPrint
  import opened MirBody
  import opened MirBlocks
  import opened MirImitation
  import opened MirLabels

  // ----- one child among single lines ---------------------------------------------------------------

  ghost predicate OthersClean(ns: seq<Node>, k: nat) { forall i :: 0 <= i < |ns| && i != k ==> Clean(ns[i]) }

  lemma {:induction false} CleanAt(ns: seq<Node>, k: nat, i: nat)
    requires OthersClean(ns, k) && i < |ns| && i != k
    ensures Shaped(ns[i]) && Separate(ns[i])
    ensures forall w :: Quiet(w, ns[i]) && !HasField(ns[i], w)
  {
    CleanIsShaped(ns[i]);
  }

  lemma {:induction false} OneIsShaped(w: string, ns: seq<Node>, k: nat)
    requires k < |ns| && OthersClean(ns, k) && Shaped(ns[k])
    ensures AllShaped(ns) && (AllQuiet(w, ns) <==> Quiet(w, ns[k]))
  {
    forall i | 0 <= i < |ns| && i != k ensures Shaped(ns[i]) && Quiet(w, ns[i]) {
      CleanAt(ns, k, i);
    }
  }

  lemma {:induction false} ShapedAbove(w: string, n: Node)
    requires OneLine(n.tag) && OneLine(n.head) && !FieldHead(n.head) && AllShaped(n.kids)
    ensures Shaped(n) && (Quiet(w, n) <==> AllQuiet(w, n.kids))
  {
    OneLineIsSilent(w, n.head);
    hide Silent, FieldHead;
  }

  lemma {:induction false} QuietWhenClean(w: string, ns: seq<Node>)
    requires AllClean(ns)
    ensures AllShaped(ns) && AllQuiet(w, ns)
  {
    AllCleanIsShaped(ns);
  }

  /** All field labels of the tree begin alike. */
  ghost predicate Under(at: string, n: Node) { forall w :: HasField(n, w) ==> StartsWith(w, at) }

  lemma {:induction false} UnderLonger(at: string, s: string, n: Node)
    requires Under(at + s, n)
    ensures Under(at, n)
  {
    hide HasField;
    forall w | HasField(n, w) ensures StartsWith(w, at) {
      PrefixOfSum(at, s);
      PrefixOfPrefix(w, at + s, at);
    }
  }

  lemma {:induction false} OffUnder(at: string, w: string, n: Node)
    requires StartsWith(w, at) && Off(at, n)
    ensures Off(w, n)
  {
    OffLonger(at, w[|at|..], n);
    assert w == at + w[|at|..];
  }

  lemma {:induction false} OneIsSeparate(at: string, ns: seq<Node>, k: nat)
    requires k < |ns| && OthersClean(ns, k) && Separate(ns[k]) && Under(at, ns[k])
    requires forall j :: k < j < |ns| ==> Off(at, ns[j])
    ensures AllSeparate(ns) && forall w :: AnyField(ns, w) ==> StartsWith(w, at)
  {
    forall i | 0 <= i < |ns| && i != k ensures Separate(ns[i]) && forall w :: !HasField(ns[i], w) {
      CleanAt(ns, k, i);
    }
    hide Clean, Separate, HasField;
    forall i, j, w | 0 <= i < j < |ns| && HasField(ns[i], w) ensures Off(w, ns[j]) {
      OffUnder(at, w, ns[j]);
    }
  }

  /** Indexed trees, each with field labels under its own label and apart from the later ones. */
  lemma {:induction false} ListIsSeparate(base: string, ns: seq<Node>)
    requires forall i :: 0 <= i < |ns| ==> Separate(ns[i]) && Under(Indexed(base, i), ns[i])
    requires forall i, j :: 0 <= i < j < |ns| ==> Off(Indexed(base, i), ns[j])
    ensures AllSeparate(ns) && forall w :: AnyField(ns, w) ==> StartsWith(w, base)
  {
    hide Separate, HasField;
    forall i, j, w | 0 <= i < j < |ns| && HasField(ns[i], w) ensures Off(w, ns[j]) {
      OffUnder(Indexed(base, i), w, ns[j]);
    }
    forall w | AnyField(ns, w) ensures StartsWith(w, base) {
      var i :| 0 <= i < |ns| && HasField(ns[i], w);
      UnderIndexed(base, i, ns[i]);
    }
  }

  lemma {:induction false} UnderIndexed(base: string, i: nat, n: Node)
    requires Under(Indexed(base, i), n)
    ensures Under(base, n)
  {
    assert Indexed(base, i) == base + ("[" + Dec(i) + "]");
    UnderLonger(base, "[" + Dec(i) + "]", n);
  }

  lemma {:induction false} NoFieldAbove(n: Node, at: string)
    requires !FieldHead(n.head) && AllSeparate(n.kids) && forall w :: AnyField(n.kids, w) ==> StartsWith(w, at)
    ensures Separate(n) && Under(at, n)
  {
    hide HasField;
    forall w | HasField(n, w) ensures StartsWith(w, at) {
      FieldBelow(n, w);
    }
  }

  lemma {:induction false} FieldBelow(n: Node, w: string)
    requires !FieldHead(n.head)
    ensures HasField(n, w) <==> AnyField(n.kids, w)
  {
  }

  // ----- labels -----------------------------------------------------------------------------------------

  lemma {:induction false} DiffersAt(a: string, b: string, i: nat)
    requires i < |a| && i < |b| && a[i] != b[i]
    ensures Apart(a, b)
  {
  }

  lemma {:induction false} DigitsThenBracket(a: nat, b: nat, p: string, q: string)
    requires Dec(a) + "]" + p == Dec(b) + "]" + q
    ensures a == b
  {
    var l, r := Dec(a) + ("]" + p), Dec(b) + ("]" + q);
    assert l == Dec(a) + "]" + p && r == Dec(b) + "]" + q;
    CharAt(Dec(a), "]" + p, |Dec(a)|);
    CharAt(Dec(a), "]" + p, |Dec(b)|);
    CharAt(Dec(b), "]" + q, |Dec(a)|);
    CharAt(Dec(b), "]" + q, |Dec(b)|);
    assert l[..|Dec(a)|] == Dec(a) && r[..|Dec(b)|] == Dec(b);
    DecInjective(a, b);
  }

  lemma {:induction false} IndexNotPrefix(w: string, i: nat, j: nat)
    requires StartsWith(Indexed(w, i), Indexed(w, j))
    ensures i == j
  {
    var s, t := Indexed(w, i), Indexed(w, j);
    var q := s[|t|..];
    assert s == t + q;
    assert s == w + "[" + (Dec(i) + "]" + "") && t + q == w + "[" + (Dec(j) + "]" + q);
    Cancel(w + "[", Dec(i) + "]" + "", Dec(j) + "]" + q);
    DigitsThenBracket(i, j, "", q);
  }

  lemma {:induction false} IndexedApart(w: string, i: nat, j: nat)
    requires i != j
    ensures Apart(Indexed(w, i), Indexed(w, j))
  {
    if StartsWith(Indexed(w, i), Indexed(w, j)) {
      IndexNotPrefix(w, i, j);
    }
    if StartsWith(Indexed(w, j), Indexed(w, i)) {
      IndexNotPrefix(w, j, i);
    }
  }

  predicate Label(w: string) { NoSpace(w) && OneLine(w) }

  lemma {:induction false} LongerLabel(w: string, s: string)
    requires Label(w) && Label(s)
    ensures Label(w + s)
  {
  }

  lemma {:induction false} IndexedLabel(w: string, s: string, i: nat)
    requires Label(w) && Label(s)
    ensures Label(Indexed(w + s, i))
  {
    DecIntIsWord(i);
  }

  // ----- projections and places -------------------------------------------------------------------------

  ghost predicate QuietProjection(w: string, p: Projection) { p.PField? ==> Silent(w, p.name) }

  ghost predicate QuietPlace(w: string, p: Place) {
    forall i :: 0 <= i < |p.projections| ==> QuietProjection(w, p.projections[i])
  }

  /** A longer name makes a longer head. */
  lemma {:induction false} NameInHead(index: nat, name: string, more: string, ty: Type)
    ensures ProjectionHead(PField(index, name + more, ty)) == ProjectionHead(PField(index, name, ty)) + more
  {
    assert ProjectionHead(PField(index, name + more, ty))
        == "Field" + (" index=" + (Dec(index) + (" name=" + (name + more))));
    assert ProjectionHead(PField(index, name, ty)) == "Field" + (" index=" + (Dec(index) + (" name=" + name)));
    hide Dec;
    MoreAtTheEnd("Field", " index=", Dec(index), " name=", name, more);
  }

  lemma {:induction false} MoreAtTheEnd(a: string, b: string, c: string, d: string, e: string, more: string)
    ensures a + (b + (c + (d + (e + more)))) == a + (b + (c + (d + e))) + more
  {
    assert d + (e + more) == d + e + more;
    assert c + (d + e + more) == c + (d + e) + more;
    assert b + (c + (d + e) + more) == b + (c + (d + e)) + more;
  }

  /** A field's line is quiet exactly when its name is. */
  lemma {:induction false} QuietName(w: string, index: nat, name: string, ty: Type)
    ensures Silent(w, ProjectionHead(PField(index, name, ty))) <==> Silent(w, name)
  {
    var front := ProjectionHead(PField(index, "", ty));
    NameInHead(index, "", name, ty);
    ProjectionHeadClean(PField(index, "", ty));
    hide ProjectionHead;
    assert "" + name == name;
    if Silent(w, name) {
      SilentInside(w, front, name);
    }
    forall i: nat ensures At(TypeMark(w), front + name, |front| + i) <==> At(TypeMark(w), name, i) {
      AtShift(TypeMark(w), front, name, i);
    }
  }

  lemma {:induction false} ProjectionShaped(w: string, at: string, p: Projection)
    requires OneLine(at)
    ensures Shaped(ProjectionNode(at, p))
    ensures Quiet(w, ProjectionNode(at, p)) <==> QuietProjection(w, p)
  {
    FieldIsField(p);
    if p.PField? {
      TypeClean(at + ".type", p.ty);
      CleanIsShaped(TypeNode(at + ".type", p.ty));
      QuietName(w, p.index, p.name, p.ty);
    } else {
      ProjectionHeadClean(p);
      OneLineIsSilent(w, ProjectionHead(p));
    }
    hide Clean, Silent, FieldHead, ProjectionHead, TypeNode;
  }

  lemma {:induction false} TypeBelow(at: string, t: Type)
    requires NoSpace(at)
    ensures AllOff(at, TypeNode(at + ".type", t).kids)
  {
    TypeKidsOff(at, at + ".type", t);
  }

  /** A node over at most one clean node, whose lines are apart from its own. */
  lemma {:induction false} OverClean(n: Node)
    requires |n.kids| <= 1 && AllClean(n.kids)
    requires FieldHead(n.head) ==> NoSpace(n.tag) && |n.kids| == 1 && AllOff(n.tag, n.kids[0].kids)
    ensures Separate(n) && Under(n.tag, n)
  {
    AllCleanIsShaped(n.kids);
    hide Separate, Off, Clean;
    forall w | HasField(n, w) ensures StartsWith(w, n.tag) {
      assert !AnyField(n.kids, w);
    }
  }

  lemma {:induction false} ProjectionSeparate(at: string, p: Projection)
    requires Label(at)
    ensures Separate(ProjectionNode(at, p)) && Under(at, ProjectionNode(at, p))
  {
    FieldIsField(p);
    if p.PField? {
      TypeBelow(at, p.ty);
      TypeClean(at + ".type", p.ty);
    }
    hide Clean, FieldHead, ProjectionHead, TypeNode, Separate, Under;
    OverClean(ProjectionNode(at, p));
  }

  lemma {:induction false} PlaceHeadClean(p: Place)
    ensures OneLine(PlaceHead(p)) && !FieldHead(PlaceHead(p))
  {
  }

  lemma {:induction false} PlaceShaped(w: string, at: string, p: Place)
    requires OneLine(at)
    ensures Shaped(PlaceNode(at, p))
    ensures Quiet(w, PlaceNode(at, p)) <==> QuietPlace(w, p)
  {
    PlaceHeadClean(p);
    OneLineIsSilent(w, PlaceHead(p));
    var ns := ProjectionNodes(at, p.projections);
    hide ProjectionNode, QuietProjection, PlaceHead, Silent, FieldHead;
    forall i | 0 <= i < |p.projections|
      ensures Shaped(ns[i]) && (Quiet(w, ns[i]) <==> QuietProjection(w, p.projections[i]))
    {
      ProjectionShaped(w, Indexed(at + ".projection", i), p.projections[i]);
    }
  }

  lemma {:induction false} PlaceSeparate(at: string, p: Place)
    requires Label(at)
    ensures Separate(PlaceNode(at, p)) && Under(at, PlaceNode(at, p))
  {
    PlaceHeadClean(p);
    var ns, base := ProjectionNodes(at, p.projections), at + ".projection";
    hide ProjectionNode, PlaceHead, FieldHead, Off, Separate, Under, Apart;
    forall i | 0 <= i < |ns| ensures Separate(ns[i]) && Under(Indexed(base, i), ns[i]) {
      IndexedLabel(at, ".projection", i);
      ProjectionSeparate(Indexed(base, i), p.projections[i]);
    }
    forall i, j | 0 <= i < j < |ns| ensures Off(Indexed(base, i), ns[j]) {
      IndexedApart(base, i, j);
      ProjectionOff(Indexed(base, i), Indexed(base, j), p.projections[j]);
    }
    ListIsSeparate(base, ns);
    NoFieldAbove(PlaceNode(at, p), base);
    UnderLonger(at, ".projection", PlaceNode(at, p));
  }

  // ----- right-hand sides -------------------------------------------------------------------------------

  ghost predicate QuietRValue(w: string, r: RValue) { HasPlace(r) ==> QuietPlace(w, r.place) }

  /** The place comes last. */
  lemma {:induction false} PlaceLast(at: string, r: RValue)
    requires OneLine(at) && HasPlace(r)
    ensures var ns := RValueKids(at, r);
      (|ns| > 0 && OthersClean(ns, |ns| - 1) && ns[|ns| - 1] == PlaceNode(at + ".place", r.place))
  {
    if r.Ref? || r.AddressOf? {
      BoolLeaf(at + ".is_mut", r.isMut, r.isMut);
    }
    hide Clean, PlaceNode, BoolName;
  }

  lemma {:induction false} RValueShaped(w: string, at: string, r: RValue)
    requires OneLine(at)
    ensures Shaped(RValueNode(at, r))
    ensures Quiet(w, RValueNode(at, r)) <==> QuietRValue(w, r)
  {
    RValueNameClean(r);
    hide Clean, PlaceNode, QuietPlace, RValueName, FieldHead, RValueKids, Shaped, Quiet, AllShaped;
    if HasPlace(r) {
      PlaceLast(at, r);
      PlaceShaped(w, at + ".place", r.place);
      OneIsShaped(w, RValueKids(at, r), |RValueKids(at, r)| - 1);
    } else {
      RValueKidsClean(at, r);
      QuietWhenClean(w, RValueKids(at, r));
    }
    ShapedAbove(w, RValueNode(at, r));
  }

  lemma {:induction false} RValueSeparate(at: string, r: RValue)
    requires Label(at)
    ensures Separate(RValueNode(at, r)) && Under(at, RValueNode(at, r))
  {
    RValueNameClean(r);
    if HasPlace(r) {
      var n := RValueNode(at, r);
      PlaceLast(at, r);
      LongerLabel(at, ".place");
      PlaceSeparate(at + ".place", r.place);
      hide *;
      OneIsSeparate(at + ".place", RValueKids(at, r), |RValueKids(at, r)| - 1);
      KidsOfRValue(at, r);
      NoFieldAbove(n, at + ".place");
      UnderLonger(at, ".place", n);
    } else {
      hide RValueKids;
      RValueClean(at, r);
      CleanIsShaped(RValueNode(at, r));
    }
  }

  lemma {:induction false} KidsOfRValue(at: string, r: RValue)
    ensures RValueNode(at, r).kids == RValueKids(at, r) && RValueNode(at, r).head == RValueName(r)
  {
  }

  // ----- statements -------------------------------------------------------------------------------------

  ghost predicate QuietStmt(w: string, s: Stmt) { HasValue(s) ==> QuietRValue(w, s.value) }

  /** The right-hand side comes last. */
  lemma {:induction false} ValueLast(at: string, s: Stmt)
    requires OneLine(at) && HasValue(s)
    ensures var ns := StmtKids(at, s);
      (|ns| > 0 && OthersClean(ns, |ns| - 1) && ns[|ns| - 1] == RValueNode(at + ".value", s.value))
  {
    StmtFrontClean(at, s);
    hide Clean, RValueNode, StmtKids;
  }

  lemma {:induction false} StmtShaped(w: string, at: string, s: Stmt)
    requires OneLine(at)
    ensures Shaped(StmtNode(at, s))
    ensures Quiet(w, StmtNode(at, s)) <==> QuietStmt(w, s)
  {
    StmtNameClean(s);
    hide Clean, RValueNode, QuietRValue, StmtName, FieldHead, StmtKids, Shaped, Quiet, AllShaped;
    if HasValue(s) {
      ValueLast(at, s);
      RValueShaped(w, at + ".value", s.value);
      OneIsShaped(w, StmtKids(at, s), |StmtKids(at, s)| - 1);
    } else {
      StmtFrontClean(at, s);
      QuietWhenClean(w, StmtKids(at, s));
    }
    ShapedAbove(w, StmtNode(at, s));
  }

  lemma {:induction false} StmtParts(at: string, s: Stmt)
    ensures StmtNode(at, s).tag == at && StmtNode(at, s).head == StmtName(s) && StmtNode(at, s).kids == StmtKids(at, s)
    ensures !HasValue(s) ==> StmtKids(at, s) == StmtFront(at, s)
  {
    hide StmtKids, StmtName;
  }

  lemma {:induction false} LabelBelow(at: string)
    requires Label(at)
    ensures OneLine(at) && Label(at + ".value") && Label(at + ".place")
  {
  }

  lemma {:induction false} StmtSeparate(at: string, s: Stmt)
    requires Label(at)
    ensures Separate(StmtNode(at, s)) && Under(at, StmtNode(at, s))
  {
    StmtNameClean(s);
    StmtParts(at, s);
    LabelBelow(at);
    var n, ns := StmtNode(at, s), StmtKids(at, s);
    if HasValue(s) {
      var v := s.value;
      hide *;
      ValueLast(at, s);
      RValueSeparate(at + ".value", v);
      OneIsSeparate(at + ".value", ns, |ns| - 1);
      NoFieldAbove(n, at + ".value");
      UnderLonger(at, ".value", n);
    } else {
      hide *;
      StmtFrontClean(at, s);
      AllCleanIsShaped(ns);
      NoFieldAbove(n, at);
    }
  }

  // ----- terminators ------------------------------------------------------------------------------------

  ghost predicate QuietTerminator(w: string, t: Terminator) { t.Drop? ==> QuietPlace(w, t.place) }

  lemma {:induction false} PlaceFirst(at: string, t: Terminator)
    requires OneLine(at) && t.Drop?
    ensures var ns := TerminatorKids(at, t);
      (|ns| == 3 && OthersClean(ns, 0) && ns[0] == PlaceNode(at + ".place", t.place)
       && ns[1] == Leaf(at + ".target", Dec(t.target)) && ns[2] == Leaf(at + ".unwind", OptionalNumber(t.unwind)))
  {
    NumberLeaf(at + ".target", t.target, t.target);
    OptionLeaf(at + ".unwind", t.unwind, t.unwind);
    hide Clean, PlaceNode, Dec, OptionalNumber;
  }

  lemma {:induction false} TerminatorShaped(w: string, at: string, t: Terminator)
    requires OneLine(at)
    ensures Shaped(TerminatorNode(at, t))
    ensures Quiet(w, TerminatorNode(at, t)) <==> QuietTerminator(w, t)
  {
    TerminatorNameClean(t);
    hide Clean, PlaceNode, QuietPlace, TerminatorName, FieldHead, TerminatorKids, Shaped, Quiet, AllShaped;
    if t.Drop? {
      PlaceFirst(at, t);
      PlaceShaped(w, at + ".place", t.place);
      OneIsShaped(w, TerminatorKids(at, t), 0);
    } else {
      TerminatorKidsClean(at, t);
      QuietWhenClean(w, TerminatorKids(at, t));
    }
    ShapedAbove(w, TerminatorNode(at, t));
  }

  lemma {:induction false} AfterPlace(at: string, t: Terminator)
    requires OneLine(at) && t.Drop?
    ensures var ns := TerminatorKids(at, t);
      (|ns| == 3 && Off(at + ".place", ns[1]) && Off(at + ".place", ns[2]))
  {
    PlaceFirst(at, t);
    DiffersAt(at + ".place", at + ".target", |at| + 1);
    DiffersAt(at + ".place", at + ".unwind", |at| + 1);
    LeafOff(at + ".place", at + ".target", Dec(t.target));
    LeafOff(at + ".place", at + ".unwind", OptionalNumber(t.unwind));
    hide Off, Apart, TerminatorKids, Dec, OptionalNumber;
  }

  lemma {:induction false} TerminatorSeparate(at: string, t: Terminator)
    requires Label(at)
    ensures Separate(TerminatorNode(at, t)) && Under(at, TerminatorNode(at, t))
  {
    TerminatorNameClean(t);
    var n := TerminatorNode(at, t);
    hide Clean, PlaceNode, TerminatorName, FieldHead, TerminatorKids, Off, Separate, Under;
    if t.Drop? {
      PlaceFirst(at, t);
      AfterPlace(at, t);
      LongerLabel(at, ".place");
      PlaceSeparate(at + ".place", t.place);
      OneIsSeparate(at + ".place", TerminatorKids(at, t), 0);
      NoFieldAbove(n, at + ".place");
      UnderLonger(at, ".place", n);
    } else {
      TerminatorKidsClean(at, t);
      AllCleanIsShaped(TerminatorKids(at, t));
      NoFieldAbove(n, at);
    }
  }

  // ----- blocks -----------------------------------------------------------------------------------------

  ghost predicate QuietEnd(w: string, t: Option<Terminator>) { t.Some? ==> QuietTerminator(w, t.value) }

  ghost predicate QuietStmts(w: string, ss: seq<Stmt>) { forall i :: 0 <= i < |ss| ==> QuietStmt(w, ss[i]) }

  ghost predicate QuietBlock(w: string, b: Block) { QuietStmts(w, b.stmts) && QuietEnd(w, b.terminator) }

  /** No field name in the body holds the type line of the projection labelled `w`. */
  ghost predicate QuietBody(w: string, body: Option<seq<Block>>) {
    body.Some? ==> forall i :: 0 <= i < |body.value| ==> QuietBlock(w, body.value[i])
  }

  lemma {:induction false} CountHead(n: nat)
    ensures OneLine(Dec(n)) && !FieldHead(Dec(n))
  {
    assert IsDigit(Dec(n)[0]);
  }

  lemma {:induction false} StmtListShaped(w: string, at: string, ss: seq<Stmt>)
    requires OneLine(at)
    ensures Shaped(StmtList(at, ss))
    ensures Quiet(w, StmtList(at, ss)) <==> QuietStmts(w, ss)
  {
    CountHead(|ss|);
    OneLineIsSilent(w, Dec(|ss|));
    var ns := StmtNodes(at + ".stmt", ss);
    hide StmtNode, QuietStmt, Dec, Silent, FieldHead;
    forall i | 0 <= i < |ss| ensures Shaped(ns[i]) && (Quiet(w, ns[i]) <==> QuietStmt(w, ss[i])) {
      StmtShaped(w, Indexed(at + ".stmt", i), ss[i]);
    }
  }

  lemma {:induction false} StmtListSeparate(at: string, ss: seq<Stmt>)
    requires Label(at)
    ensures Separate(StmtList(at, ss)) && Under(at + ".stmt", StmtList(at, ss))
  {
    CountHead(|ss|);
    var ns, base := StmtNodes(at + ".stmt", ss), at + ".stmt";
    hide StmtNode, FieldHead, Off, Separate, Under, Apart, Dec, Indexed;
    forall i | 0 <= i < |ns| ensures Separate(ns[i]) && Under(Indexed(base, i), ns[i]) {
      IndexedLabel(at, ".stmt", i);
      StmtSeparate(Indexed(base, i), ss[i]);
    }
    forall i, j | 0 <= i < j < |ns| ensures Off(Indexed(base, i), ns[j]) {
      IndexedApart(base, i, j);
      StmtOff(Indexed(base, i), Indexed(base, j), ss[j]);
    }
    ListIsSeparate(base, ns);
    NoFieldAbove(StmtList(at, ss), base);
  }

  lemma {:induction false} EndShaped(w: string, at: string, t: Option<Terminator>)
    requires OneLine(at)
    ensures Shaped(EndNode(at, t))
    ensures Quiet(w, EndNode(at, t)) <==> QuietEnd(w, t)
  {
    match t
    case Some(terminator) => TerminatorShaped(w, at, terminator);
    case None => OneLineIsSilent(w, "null");
  }

  lemma {:induction false} EndSeparate(at: string, t: Option<Terminator>)
    requires Label(at)
    ensures Separate(EndNode(at, t)) && Under(at, EndNode(at, t))
  {
    match t
    case Some(terminator) => TerminatorSeparate(at, terminator);
    case None =>
  }

  lemma {:induction false} TwoShaped(w: string, n: Node, m: Node)
    requires Shaped(n) && Shaped(m)
    ensures AllShaped([n, m]) && (AllQuiet(w, [n, m]) <==> Quiet(w, n) && Quiet(w, m))
  {
    hide Shaped, Quiet;
    assert [n, m][0] == n && [n, m][1] == m;
  }

  lemma {:induction false} BlockParts(at: string, b: Block)
    ensures BlockNode(at, b).tag == at && BlockNode(at, b).head == BlockHead(b.id, b.name)
    ensures BlockNode(at, b).kids == [StmtList(at, b.stmts), EndNode(at + ".terminator", b.terminator)]
  {
    hide StmtList, EndNode, BlockHead;
  }

  lemma {:induction false} BlockShaped(w: string, at: string, b: Block)
    requires OneLine(at)
    ensures Shaped(BlockNode(at, b))
    ensures Quiet(w, BlockNode(at, b)) <==> QuietBlock(w, b)
  {
    var l, e := StmtList(at, b.stmts), EndNode(at + ".terminator", b.terminator);
    assert OneLine(at + ".terminator");
    assert QuietBlock(w, b) <==> QuietStmts(w, b.stmts) && QuietEnd(w, b.terminator);
    hide *;
    BlockParts(at, b);
    BlockHeadClean(b.id, b.name);
    StmtListShaped(w, at, b.stmts);
    EndShaped(w, at + ".terminator", b.terminator);
    TwoShaped(w, l, e);
    ShapedAbove(w, BlockNode(at, b));
  }

  lemma {:induction false} TwoSeparate(at: string, n: Node, m: Node, s: string, t: string)
    requires Separate(n) && Separate(m) && Under(at + s, n) && Under(at + t, m) && Off(at + s, m)
    ensures AllSeparate([n, m]) && forall w :: AnyField([n, m], w) ==> StartsWith(w, at)
  {
    UnderLonger(at, s, n);
    UnderLonger(at, t, m);
    hide HasField, Separate;
    forall w | HasField(n, w) ensures Off(w, m) {
      OffUnder(at + s, w, m);
    }
  }

  lemma {:induction false} StmtsBeforeEnd(at: string)
    ensures Apart(at + ".stmt", at + ".terminator")
  {
    DiffersAt(at + ".stmt", at + ".terminator", |at| + 1);
  }

  lemma {:induction false} EndLabel(at: string)
    requires Label(at)
    ensures Label(at + ".terminator")
  {
    LongerLabel(at, ".terminator");
  }

  lemma {:induction false} BlockSeparate(at: string, b: Block)
    requires Label(at)
    ensures Separate(BlockNode(at, b)) && Under(at, BlockNode(at, b))
  {
    hide *;
    var l, e, n := StmtList(at, b.stmts), EndNode(at + ".terminator", b.terminator), BlockNode(at, b);
    BlockParts(at, b);
    BlockHeadClean(b.id, b.name);
    StmtsBeforeEnd(at);
    EndLabel(at);
    EndOff(at + ".stmt", at + ".terminator", b.terminator);
    StmtListSeparate(at, b.stmts);
    EndSeparate(at + ".terminator", b.terminator);
    TwoSeparate(at, l, e, ".stmt", ".terminator");
    NoFieldAbove(n, at);
  }

  lemma {:induction false} BodyShaped(w: string, at: string, body: Option<seq<Block>>)
    requires OneLine(at)
    ensures Shaped(BodyNode(at, body))
    ensures Quiet(w, BodyNode(at, body)) <==> QuietBody(w, body)
  {
    match body
    case Some(bs) =>
      CountHead(|bs|);
      OneLineIsSilent(w, Dec(|bs|));
      var ns := BlockNodes(at + ".block", bs);
      hide BlockNode, QuietBlock, Dec, Silent, FieldHead;
      forall i | 0 <= i < |bs| ensures Shaped(ns[i]) && (Quiet(w, ns[i]) <==> QuietBlock(w, bs[i])) {
        BlockShaped(w, Indexed(at + ".block", i), bs[i]);
      }
    case None => OneLineIsSilent(w, "null");
  }

  lemma {:induction false} BodySeparate(at: string, body: Option<seq<Block>>)
    requires Label(at)
    ensures Separate(BodyNode(at, body)) && Under(at + ".block", BodyNode(at, body))
  {
    if body.Some? {
      var bs := body.value;
      CountHead(|bs|);
      var ns, base := BlockNodes(at + ".block", bs), at + ".block";
      hide BlockNode, FieldHead, Off, Separate, Under, Apart, Dec, Indexed;
      forall i | 0 <= i < |ns| ensures Separate(ns[i]) && Under(Indexed(base, i), ns[i]) {
        IndexedLabel(at, ".block", i);
        BlockSeparate(Indexed(base, i), bs[i]);
      }
      forall i, j | 0 <= i < j < |ns| ensures Off(Indexed(base, i), ns[j]) {
        IndexedApart(base, i, j);
        BlockOff(Indexed(base, i), Indexed(base, j), bs[j]);
      }
      ListIsSeparate(base, ns);
      NoFieldAbove(BodyNode(at, body), base);
    }
  }
}
