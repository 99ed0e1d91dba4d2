/** What the canonical MIR text determines. */
module MirDigest {

  // What the canonical text is worth: under one label and before any further text, the text of a
  // MIR tree determines the tree, so a digest of the text names the tree. There are two exceptions.
  // Some components are never written. And a field projection prints its name as it is: two trees
  // can collide, but only if a name in one of them holds the type line of its own projection, and
  // in both of them a name, or what follows, holds a line labelled like one of their type lines.

  import opened Options
  import opened Decimal
  import opened Quoting
  import opened MirTree
  import opened MirNodes
  import opened MirHeads
  import opened MirPrint
  import opened MirBody
  import opened MirBlocks
  import opened MirImitation
  import opened MirFields

  /** Two types followed by any texts: equal text, equal types and equal rests. */
  lemma {:induction false} TypeTextDetermines(at: string, t: Type, x: string, u: Type, y: string)
    requires OneLine(at)
    ensures NodeText(TypeNode(at, t)) + x == NodeText(TypeNode(at, u)) + y <==> t == u && x == y
  {
    if NodeText(TypeNode(at, t)) + x == NodeText(TypeNode(at, u)) + y {
      TypeClean(at, t);
      TypeClean(at, u);
      TypeDetermined(at, t, u);
      CleanIsShaped(TypeNode(at, t));
      CleanIsShaped(TypeNode(at, u));
      TwoSided(TypeNode(at, t), x, TypeNode(at, u), y);
    }
  }

  /** The same for values; a float constant is told by its bits. */
  lemma {:induction false} ValueTextDetermines(at: string, v: Value, x: string, w: Value, y: string)
    requires OneLine(at)
    ensures NodeText(ValueNode(at, v)) + x == NodeText(ValueNode(at, w)) + y <==> v == w && x == y
  {
    if NodeText(ValueNode(at, v)) + x == NodeText(ValueNode(at, w)) + y {
      ValueClean(at, v);
      ValueClean(at, w);
      ValueDetermined(at, v, w);
      CleanIsShaped(ValueNode(at, v));
      CleanIsShaped(ValueNode(at, w));
      TwoSided(ValueNode(at, v), x, ValueNode(at, w), y);
    }
  }

  /** In neither tree does a name hold the type line of its own projection; or the label has no space
      and one of the trees is settled: no name in it, and no line after it, is labelled like the type
      line of one of its projections. */
  ghost predicate Decodable(at: string, n: Node, x: string, m: Node, y: string) {
    (Own(n) && Own(m)) || (NoSpace(at) && (Settled(n, x) || Settled(m, y)))
  }

  /** In particular one tree of single lines is enough when nothing follows, and so are two of them
      before any texts. */
  lemma {:induction false} SingleLinesDecode(at: string, n: Node, x: string, m: Node, y: string)
    requires SingleLines(n)
    ensures SingleLines(m) ==> Decodable(at, n, x, m, y)
    ensures NoSpace(at) ==> Decodable(at, n, "", m, y)
  {
    SingleLinesAreQuiet(n);
    SingleLinesSettle(n, "");
    if SingleLines(m) {
      SingleLinesAreQuiet(m);
    }
    forall w ensures Silent(w, [NEWLINE] + "") {
      NothingIsSilent(w);
    }
    hide Silent, SingleLines, Own;
  }

  lemma {:induction false} NothingIsSilent(w: string)
    ensures Silent(w, [NEWLINE] + "")
  {
    assert |TypeMark(w)| > |[NEWLINE] + ""|;
  }

  /** The same for right-hand sides, up to the components that are not written. */
  lemma {:induction false} RValueTextDetermines(at: string, v: RValue, x: string, w: RValue, y: string)
    requires OneLine(at) && Decodable(at, RValueNode(at, v), x, RValueNode(at, w), y)
    ensures NodeText(RValueNode(at, v)) + x == NodeText(RValueNode(at, w)) + y
       <==> EraseRValue(v) == EraseRValue(w) && x == y
  {
    RValueDetermined(at, v, w);
    RValueDetermined(at, w, v);
    RValueShaped("", at, v);
    RValueShaped("", at, w);
    if NoSpace(at) {
      RValueSeparate(at, v);
      RValueSeparate(at, w);
    }
    hide RValueNode, NodeText, EraseRValue, Own, Settled, Aligned, Shaped, Separate, NoSpace, OneLine;
    if NodeText(RValueNode(at, v)) + x == NodeText(RValueNode(at, w)) + y {
      TextDecodes(RValueNode(at, v), x, RValueNode(at, w), y);
    }
  }

  /** The same for statements. */
  lemma {:induction false} StmtTextDetermines(at: string, v: Stmt, x: string, w: Stmt, y: string)
    requires OneLine(at) && Decodable(at, StmtNode(at, v), x, StmtNode(at, w), y)
    ensures NodeText(StmtNode(at, v)) + x == NodeText(StmtNode(at, w)) + y <==> EraseStmt(v) == EraseStmt(w) && x == y
  {
    StmtDetermined(at, v, w);
    StmtDetermined(at, w, v);
    StmtShaped("", at, v);
    StmtShaped("", at, w);
    if NoSpace(at) {
      StmtSeparate(at, v);
      StmtSeparate(at, w);
    }
    hide StmtNode, NodeText, EraseStmt, Own, Settled, Aligned, Shaped, Separate, NoSpace, OneLine;
    if NodeText(StmtNode(at, v)) + x == NodeText(StmtNode(at, w)) + y {
      TextDecodes(StmtNode(at, v), x, StmtNode(at, w), y);
    }
  }

  /** The same for terminators. */
  lemma {:induction false} TerminatorTextDetermines(at: string, v: Terminator, x: string, w: Terminator, y: string)
    requires OneLine(at) && Decodable(at, TerminatorNode(at, v), x, TerminatorNode(at, w), y)
    ensures NodeText(TerminatorNode(at, v)) + x == NodeText(TerminatorNode(at, w)) + y <==> v == w && x == y
  {
    TerminatorDetermined(at, v, w);
    TerminatorDetermined(at, w, v);
    TerminatorShaped("", at, v);
    TerminatorShaped("", at, w);
    if NoSpace(at) {
      TerminatorSeparate(at, v);
      TerminatorSeparate(at, w);
    }
    hide TerminatorNode, NodeText, Own, Settled, Aligned, Shaped, Separate, NoSpace, OneLine;
    if NodeText(TerminatorNode(at, v)) + x == NodeText(TerminatorNode(at, w)) + y {
      TextDecodes(TerminatorNode(at, v), x, TerminatorNode(at, w), y);
    }
  }

  /** Two function bodies: equal text exactly for bodies that are equal up to the unwritten components,
      and equal rests. */
  lemma {:induction false} BodyTextDetermines(
      at: string, v: Option<seq<Block>>, x: string, w: Option<seq<Block>>, y: string)
    requires OneLine(at) && Decodable(at, BodyNode(at, v), x, BodyNode(at, w), y)
    ensures NodeText(BodyNode(at, v)) + x == NodeText(BodyNode(at, w)) + y <==> EraseBody(v) == EraseBody(w) && x == y
  {
    BodyDetermined(at, v, w);
    BodyDetermined(at, w, v);
    BodyShaped("", at, v);
    BodyShaped("", at, w);
    if NoSpace(at) {
      BodySeparate(at, v);
      BodySeparate(at, w);
    }
    hide BodyNode, NodeText, EraseBody, Own, Settled, Aligned, Shaped, Separate, NoSpace, OneLine;
    if NodeText(BodyNode(at, v)) + x == NodeText(BodyNode(at, w)) + y {
      TextDecodes(BodyNode(at, v), x, BodyNode(at, w), y);
    }
  }

  /** The unwritten component: different right-hand sides with the same text, for every label. */
  lemma {:induction false} ComponentsAreErased(at: string, a: nat, b: nat, ty: Type)
    ensures NodeText(RValueNode(at, Nullary(LocalInvocationId(a), ty)))
         == NodeText(RValueNode(at, Nullary(LocalInvocationId(b), ty)))
    ensures NodeText(RValueNode(at, Nullary(WorkgroupId(a), ty)))
         == NodeText(RValueNode(at, Nullary(WorkgroupId(b), ty)))
  {
    RValueDetermined(at, Nullary(LocalInvocationId(a), ty), Nullary(LocalInvocationId(b), ty));
    RValueDetermined(at, Nullary(WorkgroupId(a), ty), Nullary(WorkgroupId(b), ty));
  }

  // ----- colliding names --------------------------------------------------------------------------

  /** The line of a field projection. */
  function FieldLine(w: string, index: nat, name: string): string {
    w + " " + ProjectionHead(PField(index, name, Void))
  }

  function TypeLine(w: string): string { w + ".type Void" }

  /** A name that goes on with the projection's type line and the line of the next projection. */
  function Forged(at: string, index: nat, name: string, next: string): string {
    name + ([NEWLINE] + TypeLine(Indexed(at + ".projection", 0)) + [NEWLINE]
            + FieldLine(Indexed(at + ".projection", 1), index, next))
  }

  /** Two places that differ in how their names are cut. */
  function LeftPlace(at: string, local: nat, index: nat, a: string, b: string, c: string): Place {
    Place(local, [PField(index, a, Void), PField(index, Forged(at, index, b, c), Void)])
  }

  function RightPlace(at: string, local: nat, index: nat, a: string, b: string, c: string): Place {
    Place(local, [PField(index, Forged(at, index, a, b), Void), PField(index, c, Void)])
  }

  lemma {:induction false} FieldText(w: string, index: nat, name: string, more: string)
    ensures NodeText(ProjectionNode(w, PField(index, name + more, Void)))
         == (FieldLine(w, index, name) + more) + [NEWLINE] + (TypeLine(w) + [NEWLINE])
  {
    var n := ProjectionNode(w, PField(index, name + more, Void));
    NodeTextParts(n);
    NameInHead(index, name, more, Void);
    OneNode(TypeNode(w + ".type", Void));
    VoidText(w);
    hide NodeText, KidsText, ProjectionHead;
    assert w + " " + (ProjectionHead(PField(index, name, Void)) + more) == FieldLine(w, index, name) + more;
  }

  lemma {:induction false} VoidText(w: string)
    ensures NodeText(TypeNode(w + ".type", Void)) == TypeLine(w) + [NEWLINE]
  {
    var n := TypeNode(w + ".type", Void);
    NodeTextParts(n);
    assert n.kids == [] && n.head == "Void" && KidsText([]) == "";
    assert w + ".type" + " " + "Void" == w + ".type Void";
  }

  lemma {:induction false} NamesCut(x: string, t: string, y: string, z: string, v: string)
    ensures (x + "") + [NEWLINE] + (t + [NEWLINE])
            + ((y + ([NEWLINE] + t + [NEWLINE] + z)) + [NEWLINE] + (v + [NEWLINE]))
         == (x + ([NEWLINE] + t + [NEWLINE] + y)) + [NEWLINE] + (t + [NEWLINE])
            + ((z + "") + [NEWLINE] + (v + [NEWLINE]))
  {
    var nl := [NEWLINE];
    var front := x + nl + t + nl + y + nl + t + nl;
    assert (x + "") + nl + (t + nl) + ((y + (nl + t + nl + z)) + nl + (v + nl)) == front + z + nl + v + nl;
    assert (x + (nl + t + nl + y)) + nl + (t + nl) + ((z + "") + nl + (v + nl)) == front + z + nl + v + nl;
  }

  lemma {:induction false} TwoNodes(n: Node, m: Node)
    ensures KidsText([n, m]) == NodeText(n) + NodeText(m)
  {
    KidsTextSnoc([n], m);
    OneNode(n);
    assert [n] + [m] == [n, m];
  }

  /** Two different places with one text, under every label and for all names: so the condition on
      field names cannot be dropped for both. */
  lemma {:induction false} PlacesCollide(at: string, local: nat, index: nat, a: string, b: string, c: string)
    ensures LeftPlace(at, local, index, a, b, c) != RightPlace(at, local, index, a, b, c)
    ensures NodeText(PlaceNode(at, LeftPlace(at, local, index, a, b, c)))
         == NodeText(PlaceNode(at, RightPlace(at, local, index, a, b, c)))
  {
    var w0, w1 := Indexed(at + ".projection", 0), Indexed(at + ".projection", 1);
    var p, q := LeftPlace(at, local, index, a, b, c), RightPlace(at, local, index, a, b, c);
    var l0, l1 := ProjectionNode(w0, p.projections[0]), ProjectionNode(w1, p.projections[1]);
    var r0, r1 := ProjectionNode(w0, q.projections[0]), ProjectionNode(w1, q.projections[1]);
    PlaceKids(at, p);
    PlaceKids(at, q);
    PlacesDiffer(at, local, index, a, b, c);
    var cut := [NEWLINE] + TypeLine(w0) + [NEWLINE] + FieldLine(w1, index, b);
    var next := [NEWLINE] + TypeLine(w0) + [NEWLINE] + FieldLine(w1, index, c);
    assert Forged(at, index, a, b) == a + cut && Forged(at, index, b, c) == b + next && a + "" == a && c + "" == c;
    NodeTextParts(PlaceNode(at, p));
    NodeTextParts(PlaceNode(at, q));
    hide *;
    FieldText(w0, index, a, "");
    FieldText(w1, index, b, next);
    FieldText(w0, index, a, cut);
    FieldText(w1, index, c, "");
    TwoNodes(l0, l1);
    TwoNodes(r0, r1);
    NamesCut(FieldLine(w0, index, a), TypeLine(w0), FieldLine(w1, index, b), FieldLine(w1, index, c), TypeLine(w1));
  }

  lemma {:induction false} PlaceKids(at: string, p: Place)
    requires |p.projections| == 2
    ensures PlaceNode(at, p) == Node(at, PlaceHead(p),
      [ProjectionNode(Indexed(at + ".projection", 0), p.projections[0]),
       ProjectionNode(Indexed(at + ".projection", 1), p.projections[1])])
  {
    hide ProjectionNode, Indexed;
  }

  lemma {:induction false} PlacesDiffer(at: string, local: nat, index: nat, a: string, b: string, c: string)
    ensures LeftPlace(at, local, index, a, b, c).projections[0] == PField(index, a, Void)
    ensures LeftPlace(at, local, index, a, b, c).projections[1] == PField(index, Forged(at, index, b, c), Void)
    ensures RightPlace(at, local, index, a, b, c).projections[0] == PField(index, Forged(at, index, a, b), Void)
    ensures RightPlace(at, local, index, a, b, c).projections[1] == PField(index, c, Void)
    ensures LeftPlace(at, local, index, a, b, c) != RightPlace(at, local, index, a, b, c)
    ensures PlaceHead(LeftPlace(at, local, index, a, b, c)) == PlaceHead(RightPlace(at, local, index, a, b, c))
    ensures |LeftPlace(at, local, index, a, b, c).projections| == 2
    ensures |RightPlace(at, local, index, a, b, c).projections| == 2
  {
    assert |Forged(at, index, a, b)| > |a|;
  }

  /** Nodes with one head and children of one text have one text. */
  lemma {:induction false} SameKidsText(at: string, head: string, ns: seq<Node>, ms: seq<Node>)
    requires KidsText(ns) == KidsText(ms)
    ensures NodeText(Node(at, head, ns)) == NodeText(Node(at, head, ms))
  {
    NodeTextParts(Node(at, head, ns));
    NodeTextParts(Node(at, head, ms));
  }

  /** The collision reaches right-hand sides, and from there statements, terminators and bodies. */
  lemma {:induction false} RValuesCollide(at: string, local: nat, index: nat, a: string, b: string, c: string)
    ensures var p := LeftPlace(at + ".place", local, index, a, b, c);
      var q := RightPlace(at + ".place", local, index, a, b, c);
      EraseRValue(Discriminant(p)) != EraseRValue(Discriminant(q))
      && NodeText(RValueNode(at, Discriminant(p))) == NodeText(RValueNode(at, Discriminant(q)))
  {
    PlacesCollide(at + ".place", local, index, a, b, c);
    var p := LeftPlace(at + ".place", local, index, a, b, c);
    var q := RightPlace(at + ".place", local, index, a, b, c);
    hide NodeText, KidsText, PlaceNode, LeftPlace, RightPlace;
    OneNode(PlaceNode(at + ".place", p));
    OneNode(PlaceNode(at + ".place", q));
    SameKidsText(at, "Discriminant", [PlaceNode(at + ".place", p)], [PlaceNode(at + ".place", q)]);
  }

  lemma {:induction false} StmtsCollide(at: string, dest: nat, local: nat, index: nat, a: string, b: string, c: string)
    ensures var p := LeftPlace(at + ".value" + ".place", local, index, a, b, c);
      var q := RightPlace(at + ".value" + ".place", local, index, a, b, c);
      EraseStmt(Assign(dest, Discriminant(p))) != EraseStmt(Assign(dest, Discriminant(q)))
      && NodeText(StmtNode(at, Assign(dest, Discriminant(p)))) == NodeText(StmtNode(at, Assign(dest, Discriminant(q))))
  {
    RValuesCollide(at + ".value", local, index, a, b, c);
    var v := Discriminant(LeftPlace(at + ".value" + ".place", local, index, a, b, c));
    var w := Discriminant(RightPlace(at + ".value" + ".place", local, index, a, b, c));
    hide NodeText, KidsText, RValueNode, LeftPlace, RightPlace, Dec;
    var n, m := RValueNode(at + ".value", v), RValueNode(at + ".value", w);
    TwoNodes(Leaf(at + ".dest", Dec(dest)), n);
    TwoNodes(Leaf(at + ".dest", Dec(dest)), m);
    SameKidsText(at, "Assign", [Leaf(at + ".dest", Dec(dest)), n], [Leaf(at + ".dest", Dec(dest)), m]);
  }

  lemma {:induction false} TerminatorsCollide(
      at: string, target: nat, local: nat, index: nat, a: string, b: string, c: string)
    ensures var p := LeftPlace(at + ".place", local, index, a, b, c);
      var q := RightPlace(at + ".place", local, index, a, b, c);
      p != q
      && NodeText(TerminatorNode(at, Drop(p, target, None))) == NodeText(TerminatorNode(at, Drop(q, target, None)))
  {
    PlacesCollide(at + ".place", local, index, a, b, c);
    var p := LeftPlace(at + ".place", local, index, a, b, c);
    var q := RightPlace(at + ".place", local, index, a, b, c);
    hide NodeText, KidsText, PlaceNode, LeftPlace, RightPlace, Dec;
    var n, m := PlaceNode(at + ".place", p), PlaceNode(at + ".place", q);
    var rest := [Leaf(at + ".target", Dec(target)), Leaf(at + ".unwind", "null")];
    KidsTextAppend([n], rest);
    KidsTextAppend([m], rest);
    OneNode(n);
    OneNode(m);
    assert TerminatorKids(at, Drop(p, target, None)) == [n] + rest;
    assert TerminatorKids(at, Drop(q, target, None)) == [m] + rest;
    SameKidsText(at, "Drop", [n] + rest, [m] + rest);
  }

  /** A body of one block that ends in such a drop. */
  function DropBody(p: Place): Option<seq<Block>> { Some([Block(0, None, [], Some(Drop(p, 0, None)))]) }

  lemma {:induction false} BodiesCollide(at: string, local: nat, index: nat, a: string, b: string, c: string)
    ensures var l := Indexed(at + ".block", 0) + ".terminator" + ".place";
      var p, q := LeftPlace(l, local, index, a, b, c), RightPlace(l, local, index, a, b, c);
      EraseBody(DropBody(p)) != EraseBody(DropBody(q))
      && NodeText(BodyNode(at, DropBody(p))) == NodeText(BodyNode(at, DropBody(q)))
  {
    var w := Indexed(at + ".block", 0);
    var p := LeftPlace(w + ".terminator" + ".place", local, index, a, b, c);
    var q := RightPlace(w + ".terminator" + ".place", local, index, a, b, c);
    TerminatorsCollide(w + ".terminator", 0, local, index, a, b, c);
    var stmts, head := StmtList(w, []), BlockHead(0, None);
    BodyOfDrop(at, p);
    BodyOfDrop(at, q);
    hide *;
    var n := TerminatorNode(w + ".terminator", Drop(p, 0, None));
    var m := TerminatorNode(w + ".terminator", Drop(q, 0, None));
    TwoNodes(stmts, n);
    TwoNodes(stmts, m);
    SameKidsText(w, head, [stmts, n], [stmts, m]);
    OneNode(Node(w, head, [stmts, n]));
    OneNode(Node(w, head, [stmts, m]));
    SameKidsText(at + ".blocks", Dec(1), [Node(w, head, [stmts, n])], [Node(w, head, [stmts, m])]);
  }

  lemma {:induction false} BodyOfDrop(at: string, p: Place)
    ensures var w := Indexed(at + ".block", 0);
      BodyNode(at, DropBody(p)) == Node(at + ".blocks", Dec(1),
        [Node(w, BlockHead(0, None), [StmtList(w, []), TerminatorNode(w + ".terminator", Drop(p, 0, None))])])
    ensures EraseBody(DropBody(p)).Some? && |EraseBody(DropBody(p)).value| == 1
    ensures EraseBody(DropBody(p)).value[0].terminator == Some(Drop(p, 0, None))
  {
    hide TerminatorNode, StmtList, BlockHead, Dec;
  }
}
