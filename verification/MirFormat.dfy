/** The lines of the canonical MIR text, spelled out. */
module MirFormat {

  // The grammar of the canonical text: which lines each kind of tree prints, with every word of the
  // format written out. What is determined by the text is the matter of MirDigest; here it is said
  // what the text is.

  import opened Options
  import opened Decimal
  import opened Quoting
  import opened MirTree
  import opened MirNodes
  import opened MirHeads
  import opened MirPrint
  import opened MirBody
  import opened MirBlocks

  /** A label and what stands behind it. */
  function Line(at: string, rest: string): string { at + " " + rest }

  // ----- lists of nodes -------------------------------------------------------------------------------

  lemma {:induction false} NodeLines(n: Node)
    ensures Lines(n) == [Line(n.tag, n.head)] + LinesOf(n.kids)
  {
  }

  lemma {:induction false} LeafLines(at: string, head: string)
    ensures Lines(Leaf(at, head)) == [Line(at, head)]
  {
    assert LinesOf([]) == [];
  }

  lemma {:induction false} NoLines()
    ensures LinesOf([]) == []
  {
  }

  lemma {:induction false} OneOf(a: Node)
    ensures LinesOf([a]) == Lines(a)
  {
    assert LinesOf([a]) == Lines(a) + LinesOf([]);
  }

  lemma {:induction false} TwoOf(a: Node, b: Node)
    ensures LinesOf([a, b]) == Lines(a) + Lines(b)
  {
    OneOf(b);
    assert [a, b][1..] == [b];
  }

  lemma {:induction false} ThreeOf(a: Node, b: Node, c: Node)
    ensures LinesOf([a, b, c]) == Lines(a) + Lines(b) + Lines(c)
  {
    TwoOf(b, c);
    assert [a, b, c][1..] == [b, c];
  }

  lemma {:induction false} FourOf(a: Node, b: Node, c: Node, d: Node)
    ensures LinesOf([a, b, c, d]) == Lines(a) + Lines(b) + Lines(c) + Lines(d)
  {
    ThreeOf(b, c, d);
    assert [a, b, c, d][1..] == [b, c, d];
  }

  lemma {:induction false} FiveOf(a: Node, b: Node, c: Node, d: Node, e: Node)
    ensures LinesOf([a, b, c, d, e]) == Lines(a) + Lines(b) + Lines(c) + Lines(d) + Lines(e)
  {
    FourOf(b, c, d, e);
    assert [a, b, c, d, e][1..] == [b, c, d, e];
  }

  // ----- statements -----------------------------------------------------------------------------------

  function StmtFormat(at: string, s: Stmt): seq<string> {
    match s
    case Assign(dest, value) =>
      [Line(at, "Assign"), Line(at + ".dest", Dec(dest))] + Lines(RValueNode(at + ".value", value))
    case DerefAssign(ptr, value) =>
      [Line(at, "DerefAssign"), Line(at + ".ptr", Dec(ptr))] + Lines(RValueNode(at + ".value", value))
    case FieldDerefAssign(ptr, field, value) =>
      [Line(at, "FieldDerefAssign"), Line(at + ".ptr", Dec(ptr)), Line(at + ".field", Quoted(field))]
      + Lines(RValueNode(at + ".value", value))
    case FieldAssign(base, field, value) =>
      [Line(at, "FieldAssign"), Line(at + ".base", Dec(base)), Line(at + ".field", Quoted(field))]
      + Lines(RValueNode(at + ".value", value))
    case GlobalStore(name, value) =>
      [Line(at, "GlobalStore"), Line(at + ".global", Quoted(name))] + Lines(RValueNode(at + ".value", value))
    case IndexStore(base, index, ty, value) =>
      [Line(at, "IndexStore")] + Lines(ValueNode(at + ".base", base)) + Lines(ValueNode(at + ".index", index))
      + Lines(TypeNode(at + ".elem_ty", ty)) + Lines(RValueNode(at + ".value", value))
    case StorageLive(local) => [Line(at, "StorageLive"), Line(at + ".local", Dec(local))]
    case StorageDead(local) => [Line(at, "StorageDead"), Line(at + ".local", Dec(local))]
    case Nop => [Line(at, "Nop")]
    case WorkgroupBarrier => [Line(at, "WorkgroupBarrier")]
  }

  lemma {:induction false} FieldStmtLines(at: string, s: Stmt)
    requires s.FieldDerefAssign? || s.FieldAssign?
    ensures [Line(at, StmtName(s))] + LinesOf(StmtKids(at, s)) == StmtFormat(at, s)
  {
    hide Lines, LinesOf, RValueNode, Dec, Quoted;
    var value, leaf := RValueNode(at + ".value", s.value), Leaf(at + ".field", Quoted(s.field));
    LeafLines(at + ".field", Quoted(s.field));
    if s.FieldDerefAssign? {
      LeafLines(at + ".ptr", Dec(s.ptr));
      ThreeOf(Leaf(at + ".ptr", Dec(s.ptr)), leaf, value);
    } else {
      LeafLines(at + ".base", Dec(s.base));
      ThreeOf(Leaf(at + ".base", Dec(s.base)), leaf, value);
    }
  }

  lemma {:induction false} IndexStoreLines(at: string, s: Stmt)
    requires s.IndexStore?
    ensures [Line(at, StmtName(s))] + LinesOf(StmtKids(at, s)) == StmtFormat(at, s)
  {
    hide Lines, LinesOf, RValueNode, ValueNode, TypeNode;
    FourOf(ValueNode(at + ".base", s.target), ValueNode(at + ".index", s.index), TypeNode(at + ".elem_ty", s.ty),
           RValueNode(at + ".value", s.value));
  }

  lemma {:induction false} StmtLines(at: string, s: Stmt)
    ensures Lines(StmtNode(at, s)) == StmtFormat(at, s)
  {
    NodeLines(StmtNode(at, s));
    NoLines();
    hide Lines, LinesOf, RValueNode, ValueNode, TypeNode, Dec, Quoted;
    match s
    case Assign(dest, value) =>
      LeafLines(at + ".dest", Dec(dest));
      TwoOf(Leaf(at + ".dest", Dec(dest)), RValueNode(at + ".value", value));
    case DerefAssign(ptr, value) =>
      LeafLines(at + ".ptr", Dec(ptr));
      TwoOf(Leaf(at + ".ptr", Dec(ptr)), RValueNode(at + ".value", value));
    case FieldDerefAssign(_, _, _) => FieldStmtLines(at, s);
    case FieldAssign(_, _, _) => FieldStmtLines(at, s);
    case GlobalStore(name, value) =>
      LeafLines(at + ".global", Quoted(name));
      TwoOf(Leaf(at + ".global", Quoted(name)), RValueNode(at + ".value", value));
    case IndexStore(_, _, _, _) => IndexStoreLines(at, s);
    case StorageLive(local) => LeafLines(at + ".local", Dec(local)); OneOf(Leaf(at + ".local", Dec(local)));
    case StorageDead(local) => LeafLines(at + ".local", Dec(local)); OneOf(Leaf(at + ".local", Dec(local)));
    case Nop =>
    case WorkgroupBarrier =>
  }

  // ----- terminators ----------------------------------------------------------------------------------

  function Optionally(n: Option<nat>): string {
    match n
    case None => "null"
    case Some(id) => Dec(id)
  }

  function TerminatorFormat(at: string, t: Terminator): seq<string> {
    match t
    case Goto(target) => [Line(at, "Goto"), Line(at + ".target", Dec(target))]
    case If(cond, yes, no) =>
      [Line(at, "If")] + Lines(ValueNode(at + ".cond", cond))
      + [Line(at + ".then", Dec(yes)), Line(at + ".else", Dec(no))]
    case Switch(value, targets, default) =>
      [Line(at, "Switch")] + Lines(ValueNode(at + ".value", value))
      + [Line(at + ".targets", Dec(|targets|))] + TargetFormat(at + ".target", targets, 0)
      + [Line(at + ".default", Dec(default))]
    case Call(func, args, dest, next, unwind) =>
      [Line(at, "Call")] + Lines(ValueNode(at + ".func", func))
      + [Line(at + ".args", Dec(|args|))] + ValuesFormat(at + ".arg", args, 0)
      + [Line(at + ".dest", Optionally(dest)), Line(at + ".target", Optionally(next)),
         Line(at + ".unwind", Optionally(unwind))]
    case Return(result) =>
      [Line(at, "Return")]
      + (if result.Some? then Lines(ValueNode(at + ".value", result.value)) else [Line(at + ".value", "null")])
    case Unreachable => [Line(at, "Unreachable")]
    case Drop(place, target, unwind) =>
      [Line(at, "Drop")] + Lines(PlaceNode(at + ".place", place))
      + [Line(at + ".target", Dec(target)), Line(at + ".unwind", Optionally(unwind))]
    case Assert(cond, expected, msg, target, unwind) =>
      [Line(at, "Assert")] + Lines(ValueNode(at + ".cond", cond))
      + [Line(at + ".expected", if expected then "true" else "false"), Line(at + ".msg", Quoted(msg)),
         Line(at + ".target", Dec(target)), Line(at + ".unwind", Optionally(unwind))]
    case Resume => [Line(at, "Resume")]
    case Abort => [Line(at, "Abort")]
  }

  /** The targets of a switch from number `i` on. */
  function TargetFormat(at: string, ts: seq<Target>, i: nat): seq<string>
    requires i <= |ts|
    decreases |ts| - i
  {
    if i == |ts| then []
    else
      Lines(ConstNode(at + "[" + Dec(i) + "]" + ".value", ts[i].constant))
      + [Line(at + "[" + Dec(i) + "]" + ".block", Dec(ts[i].block))] + TargetFormat(at, ts, i + 1)
  }

  /** Values under numbered labels from number `i` on. */
  function ValuesFormat(at: string, vs: seq<Value>, i: nat): seq<string>
    requires i <= |vs|
    decreases |vs| - i
  {
    if i == |vs| then [] else Lines(ValueNode(at + "[" + Dec(i) + "]", vs[i])) + ValuesFormat(at, vs, i + 1)
  }

  lemma {:induction false} TargetLines(at: string, ts: seq<Target>, i: nat)
    requires i <= |ts|
    ensures LinesOf(TargetNodes(at, i, ts)) == TargetFormat(at, ts, i)
    decreases |ts| - i
  {
    hide Lines, LinesOf, ConstNode, Dec;
    NoLines();
    if i < |ts| {
      var w := Indexed(at, i);
      var a, b := ConstNode(w + ".value", ts[i].constant), Leaf(w + ".block", Dec(ts[i].block));
      LinesOfAppend([a, b], TargetNodes(at, i + 1, ts));
      TwoOf(a, b);
      LeafLines(w + ".block", Dec(ts[i].block));
      TargetLines(at, ts, i + 1);
    }
  }

  lemma {:induction false} ValuesLines(at: string, vs: seq<Value>, i: nat)
    requires i <= |vs|
    ensures LinesOf(ValueNodes(at, vs)[i..]) == ValuesFormat(at, vs, i)
    decreases |vs| - i
  {
    hide Lines, LinesOf, ValueNode, Dec;
    NoLines();
    var ns := ValueNodes(at, vs);
    if i < |vs| {
      assert ns[i..] == [ns[i]] + ns[i + 1..];
      LinesOfAppend([ns[i]], ns[i + 1..]);
      OneOf(ns[i]);
      ValuesLines(at, vs, i + 1);
    } else {
      assert ns[i..] == [];
    }
  }

  lemma {:induction false} ValueListLines(counted: string, each: string, vs: seq<Value>)
    ensures Lines(ValueList(counted, each, vs)) == [Line(counted, Dec(|vs|))] + ValuesFormat(each, vs, 0)
  {
    NodeLines(ValueList(counted, each, vs));
    ValuesLines(each, vs, 0);
    hide Lines, LinesOf, ValueNode, Dec, ValuesFormat;
    assert ValueNodes(each, vs)[0..] == ValueNodes(each, vs);
  }

  lemma {:induction false} TargetListLines(at: string, ts: seq<Target>)
    ensures Lines(TargetList(at, ts)) == [Line(at + ".targets", Dec(|ts|))] + TargetFormat(at + ".target", ts, 0)
  {
    NodeLines(TargetList(at, ts));
    TargetLines(at + ".target", ts, 0);
    hide Lines, LinesOf, TargetNodes, Dec, TargetFormat;
  }

  lemma {:induction false} TerminatorLines(at: string, t: Terminator)
    ensures Lines(TerminatorNode(at, t)) == TerminatorFormat(at, t)
  {
    NodeLines(TerminatorNode(at, t));
    NoLines();
    hide Lines, LinesOf, ValueNode, PlaceNode, ValueList, TargetList, Dec, Quoted, TargetFormat, ValuesFormat;
    match t
    case Goto(target) => LeafLines(at + ".target", Dec(target)); OneOf(Leaf(at + ".target", Dec(target)));
    case If(cond, yes, no) =>
      LeafLines(at + ".then", Dec(yes));
      LeafLines(at + ".else", Dec(no));
      ThreeOf(ValueNode(at + ".cond", cond), Leaf(at + ".then", Dec(yes)), Leaf(at + ".else", Dec(no)));
    case Switch(value, targets, default) =>
      TargetListLines(at, targets);
      LeafLines(at + ".default", Dec(default));
      ThreeOf(ValueNode(at + ".value", value), TargetList(at, targets), Leaf(at + ".default", Dec(default)));
    case Call(_, _, _, _, _) => CallLines(at, t);
    case Return(result) => ResultLines(at, result);
    case Drop(place, target, unwind) =>
      LeafLines(at + ".target", Dec(target));
      LeafLines(at + ".unwind", OptionalNumber(unwind));
      ThreeOf(PlaceNode(at + ".place", place), Leaf(at + ".target", Dec(target)),
              Leaf(at + ".unwind", OptionalNumber(unwind)));
    case Assert(_, _, _, _, _) => AssertLines(at, t);
    case Unreachable =>
    case Resume =>
    case Abort =>
  }

  lemma {:induction false} ResultLines(at: string, result: Option<Value>)
    ensures LinesOf([ResultNode(at + ".value", result)])
         == if result.Some? then Lines(ValueNode(at + ".value", result.value)) else [Line(at + ".value", "null")]
  {
    hide Lines, LinesOf, ValueNode;
    OneOf(ResultNode(at + ".value", result));
    LeafLines(at + ".value", "null");
  }

  lemma {:induction false} CallLines(at: string, t: Terminator)
    requires t.Call?
    ensures [Line(at, "Call")] + LinesOf(CallKids(at, t)) == TerminatorFormat(at, t)
  {
    hide Lines, LinesOf, ValueNode, ValueList, Dec, ValuesFormat;
    var ks := CallKids(at, t);
    ValueListLines(at + ".args", at + ".arg", t.args);
    LeafLines(at + ".dest", OptionalNumber(t.dest));
    LeafLines(at + ".target", OptionalNumber(t.next));
    LeafLines(at + ".unwind", OptionalNumber(t.unwind));
    FiveOf(ks[0], ks[1], ks[2], ks[3], ks[4]);
    assert ks == [ks[0], ks[1], ks[2], ks[3], ks[4]];
  }

  lemma {:induction false} AssertLines(at: string, t: Terminator)
    requires t.Assert?
    ensures [Line(at, "Assert")] + LinesOf(AssertKids(at, t)) == TerminatorFormat(at, t)
  {
    hide Lines, LinesOf, ValueNode, Dec, Quoted;
    var ks := AssertKids(at, t);
    LeafLines(at + ".expected", BoolName(t.expected));
    LeafLines(at + ".msg", Quoted(t.msg));
    LeafLines(at + ".target", Dec(t.target));
    LeafLines(at + ".unwind", OptionalNumber(t.unwind));
    FiveOf(ks[0], ks[1], ks[2], ks[3], ks[4]);
    assert ks == [ks[0], ks[1], ks[2], ks[3], ks[4]];
  }

  // ----- right-hand sides -----------------------------------------------------------------------------

  function RValueFormat(at: string, r: RValue): seq<string> {
    match r
    case Use(value) => [Line(at, "Use")] + Lines(ValueNode(at + ".value", value))
    case BinaryOp(op, left, right) =>
      [Line(at, "BinaryOp"), Line(at + ".op", BinOpName(op))] + Lines(ValueNode(at + ".left", left))
      + Lines(ValueNode(at + ".right", right))
    case UnaryOp(op, operand) =>
      [Line(at, "UnaryOp"), Line(at + ".op", UnaryOpName(op))] + Lines(ValueNode(at + ".operand", operand))
    case Ref(isMut, place) =>
      [Line(at, "Ref"), Line(at + ".is_mut", if isMut then "true" else "false")]
      + Lines(PlaceNode(at + ".place", place))
    case AddressOf(isMut, place) =>
      [Line(at, "AddressOf"), Line(at + ".is_mut", if isMut then "true" else "false")]
      + Lines(PlaceNode(at + ".place", place))
    case Cast(kind, value, ty) =>
      [Line(at, "Cast"), Line(at + ".kind", CastKindName(kind))] + Lines(ValueNode(at + ".value", value))
      + Lines(TypeNode(at + ".type", ty))
    case Aggregate(kind, operands) =>
      [Line(at, "Aggregate")] + AggregateFormat(at + ".kind", kind)
      + [Line(at + ".operands", Dec(|operands|))] + ValuesFormat(at + ".operand", operands, 0)
    case Repeat(value, count) =>
      [Line(at, "Repeat"), Line(at + ".count", Dec(count))] + Lines(ValueNode(at + ".value", value))
    case Discriminant(place) => [Line(at, "Discriminant")] + Lines(PlaceNode(at + ".place", place))
    case Len(place) => [Line(at, "Len")] + Lines(PlaceNode(at + ".place", place))
    case Nullary(op, ty) =>
      [Line(at, "NullaryOp"), Line(at + ".op", NullaryOpName(op))]
      + (if op.ThreadIndex? then [Line(at + ".component", Dec(op.component))] else [])
      + Lines(TypeNode(at + ".type", ty))
    case FieldAccess(base, field, ty) =>
      [Line(at, "FieldAccess")] + Lines(ValueNode(at + ".base", base))
      + [Line(at + ".field", Quoted(field))] + Lines(TypeNode(at + ".field_type", ty))
    case VariantField(base, variant, index, ty) =>
      [Line(at, "VariantField")] + Lines(ValueNode(at + ".base", base))
      + [Line(at + ".variant", Quoted(variant) + (" field_index=" + Dec(index)))]
      + Lines(TypeNode(at + ".field_type", ty))
    case IndexAccess(base, index, ty) =>
      [Line(at, "IndexAccess")] + Lines(ValueNode(at + ".base", base)) + Lines(ValueNode(at + ".index", index))
      + Lines(TypeNode(at + ".element_type", ty))
    case Deref(ptr, ty) =>
      [Line(at, "Deref")] + Lines(ValueNode(at + ".ptr", ptr)) + Lines(TypeNode(at + ".pointee_type", ty))
    case TextureSample(texture, sampler, coords) =>
      [Line(at, "TextureSample")] + Lines(ValueNode(at + ".texture", texture))
      + Lines(ValueNode(at + ".sampler", sampler)) + Lines(ValueNode(at + ".coords", coords))
  }

  function AggregateFormat(at: string, k: AggregateKind): seq<string> {
    match k
    case AArray(element) => [Line(at, "Array")] + Lines(TypeNode(at + ".element", element))
    case ATuple => [Line(at, "Tuple")]
    case AStruct(name) => [Line(at, "Struct" + (" " + Quoted(name)))]
    case AVariant(enum, discriminant, variant) =>
      [Line(at, "Variant" + (" enum=" + (Quoted(enum)
        + (" discriminant=" + (Dec(discriminant) + (" variant=" + Quoted(variant)))))))]
    case AClosure(name) => [Line(at, "Closure" + (" " + Quoted(name)))]
  }

  lemma {:induction false} AggregateLines(at: string, k: AggregateKind)
    ensures Lines(AggregateNode(at, k)) == AggregateFormat(at, k)
  {
    NodeLines(AggregateNode(at, k));
    NoLines();
    hide Lines, LinesOf, TypeNode, Quoted, Dec;
    match k
    case AArray(element) =>
      assert "Array" + "" == "Array";
      OneOf(TypeNode(at + ".element", element));
    case ATuple => assert "Tuple" + "" == "Tuple";
    case _ =>
  }

  lemma {:induction false} NullaryLines(at: string, op: NullaryOp)
    ensures Lines(NullaryNode(at, op)) == [Line(at + ".op", NullaryOpName(op))]
      + if op.ThreadIndex? then [Line(at + ".component", Dec(op.component))] else []
  {
    NodeLines(NullaryNode(at, op));
    NoLines();
    hide Lines, LinesOf, Dec, NullaryOpName;
    if op.ThreadIndex? {
      LeafLines(at + ".component", Dec(op.component));
      OneOf(Leaf(at + ".component", Dec(op.component)));
    }
  }

  lemma {:induction false} BinaryLines(at: string, r: RValue)
    requires r.BinaryOp?
    ensures [Line(at, RValueName(r))] + LinesOf(RValueKids(at, r)) == RValueFormat(at, r)
  {
    hide Lines, LinesOf, ValueNode, BinOpName;
    LeafLines(at + ".op", BinOpName(r.op));
    ThreeOf(Leaf(at + ".op", BinOpName(r.op)), ValueNode(at + ".left", r.left), ValueNode(at + ".right", r.right));
  }

  lemma {:induction false} CastLines(at: string, r: RValue)
    requires r.Cast?
    ensures [Line(at, RValueName(r))] + LinesOf(RValueKids(at, r)) == RValueFormat(at, r)
  {
    hide Lines, LinesOf, ValueNode, TypeNode, CastKindName;
    LeafLines(at + ".kind", CastKindName(r.kind));
    ThreeOf(Leaf(at + ".kind", CastKindName(r.kind)), ValueNode(at + ".value", r.value), TypeNode(at + ".type", r.ty));
  }

  lemma {:induction false} AggregateValueLines(at: string, r: RValue)
    requires r.Aggregate?
    ensures [Line(at, RValueName(r))] + LinesOf(RValueKids(at, r)) == RValueFormat(at, r)
  {
    hide Lines, LinesOf, AggregateNode, ValueList, AggregateFormat, ValuesFormat, Dec;
    AggregateLines(at + ".kind", r.akind);
    ValueListLines(at + ".operands", at + ".operand", r.operands);
    TwoOf(AggregateNode(at + ".kind", r.akind), ValueList(at + ".operands", at + ".operand", r.operands));
  }

  lemma {:induction false} RValueLines(at: string, r: RValue)
    ensures Lines(RValueNode(at, r)) == RValueFormat(at, r)
  {
    NodeLines(RValueNode(at, r));
    hide Lines, LinesOf, ValueNode, TypeNode, PlaceNode, ValueList, AggregateNode, NullaryNode, AccessKids;
    hide Dec, Quoted, AggregateFormat, ValuesFormat, BinOpName, UnaryOpName, CastKindName;
    match r
    case Use(value) => OneOf(ValueNode(at + ".value", value));
    case BinaryOp(_, _, _) => BinaryLines(at, r);
    case UnaryOp(op, operand) =>
      LeafLines(at + ".op", UnaryOpName(op));
      TwoOf(Leaf(at + ".op", UnaryOpName(op)), ValueNode(at + ".operand", operand));
    case Cast(_, _, _) => CastLines(at, r);
    case Aggregate(_, _) => AggregateValueLines(at, r);
    case Repeat(value, count) =>
      LeafLines(at + ".count", Dec(count));
      TwoOf(Leaf(at + ".count", Dec(count)), ValueNode(at + ".value", value));
    case Nullary(op, ty) =>
      NullaryLines(at, op);
      TwoOf(NullaryNode(at, op), TypeNode(at + ".type", ty));
    case FieldAccess(_, _, _) => FieldAccessLines(at, r);
    case VariantField(_, _, _, _) => VariantFieldLines(at, r);
    case IndexAccess(_, _, _) => IndexAccessLines(at, r);
    case Deref(_, _) => DerefLines(at, r);
    case TextureSample(_, _, _) => TextureLines(at, r);
    case _ => OverPlaceLines(at, r);
  }

  lemma {:induction false} OverPlaceLines(at: string, r: RValue)
    requires HasPlace(r)
    ensures [Line(at, RValueName(r))] + LinesOf(RValueKids(at, r)) == RValueFormat(at, r)
  {
    hide Lines, LinesOf, PlaceNode;
    if r.Ref? || r.AddressOf? {
      LeafLines(at + ".is_mut", BoolName(r.isMut));
      TwoOf(Leaf(at + ".is_mut", BoolName(r.isMut)), PlaceNode(at + ".place", r.place));
    } else {
      OneOf(PlaceNode(at + ".place", r.place));
    }
  }

  lemma {:induction false} FieldAccessLines(at: string, r: RValue)
    requires r.FieldAccess?
    ensures [Line(at, RValueName(r))] + LinesOf(AccessKids(at, r)) == RValueFormat(at, r)
  {
    hide Lines, LinesOf, ValueNode, TypeNode, Dec, Quoted;
    var leaf := Leaf(at + ".field", Quoted(r.field));
    LeafLines(at + ".field", Quoted(r.field));
    ThreeOf(ValueNode(at + ".base", r.base), leaf, TypeNode(at + ".field_type", r.ty));
  }

  lemma {:induction false} VariantFieldLines(at: string, r: RValue)
    requires r.VariantField?
    ensures [Line(at, RValueName(r))] + LinesOf(AccessKids(at, r)) == RValueFormat(at, r)
  {
    hide Lines, LinesOf, ValueNode, TypeNode, Dec, Quoted;
    var leaf := Leaf(at + ".variant", VariantHead(r.variant, r.fieldIndex));
    LeafLines(at + ".variant", VariantHead(r.variant, r.fieldIndex));
    ThreeOf(ValueNode(at + ".base", r.base), leaf, TypeNode(at + ".field_type", r.ty));
  }

  lemma {:induction false} IndexAccessLines(at: string, r: RValue)
    requires r.IndexAccess?
    ensures [Line(at, RValueName(r))] + LinesOf(AccessKids(at, r)) == RValueFormat(at, r)
  {
    hide Lines, LinesOf, ValueNode, TypeNode, Dec, Quoted;
    ThreeOf(ValueNode(at + ".base", r.base), ValueNode(at + ".index", r.index), TypeNode(at + ".element_type", r.ty));
  }

  lemma {:induction false} DerefLines(at: string, r: RValue)
    requires r.Deref?
    ensures [Line(at, RValueName(r))] + LinesOf(AccessKids(at, r)) == RValueFormat(at, r)
  {
    hide Lines, LinesOf, ValueNode, TypeNode, Dec, Quoted;
    TwoOf(ValueNode(at + ".ptr", r.ptr), TypeNode(at + ".pointee_type", r.ty));
  }

  lemma {:induction false} TextureLines(at: string, r: RValue)
    requires r.TextureSample?
    ensures [Line(at, RValueName(r))] + LinesOf(AccessKids(at, r)) == RValueFormat(at, r)
  {
    hide Lines, LinesOf, ValueNode, TypeNode, Dec, Quoted;
    ThreeOf(ValueNode(at + ".texture", r.texture), ValueNode(at + ".sampler", r.sampler),
            ValueNode(at + ".coords", r.coords));
  }

  /** The names of operators, casts and nullary operations. */
  lemma {:induction false} ArithmeticNames()
    ensures BinOpName(Add) == "Add" && BinOpName(Sub) == "Sub" && BinOpName(Mul) == "Mul" && BinOpName(Div) == "Div"
    ensures BinOpName(Rem) == "Rem" && BinOpName(Pow) == "Pow" && BinOpName(BitAnd) == "BitAnd"
    ensures BinOpName(BitOr) == "BitOr" && BinOpName(BitXor) == "BitXor" && BinOpName(Shl) == "Shl"
    ensures BinOpName(Shr) == "Shr"
  {
  }

  lemma {:induction false} ComparisonNames()
    ensures BinOpName(Eq) == "Eq" && BinOpName(Ne) == "Ne" && BinOpName(Lt) == "Lt"
    ensures BinOpName(Le) == "Le" && BinOpName(Gt) == "Gt" && BinOpName(Ge) == "Ge"
    ensures UnaryOpName(Not) == "Not" && UnaryOpName(BitNot) == "BitNot" && UnaryOpName(Neg) == "Neg"
  {
  }

  lemma {:induction false} CheckedNames()
    ensures BinOpName(AddChecked) == "AddChecked" && BinOpName(SubChecked) == "SubChecked"
    ensures BinOpName(MulChecked) == "MulChecked" && BinOpName(AddWrapping) == "AddWrapping"
    ensures BinOpName(SubWrapping) == "SubWrapping" && BinOpName(MulWrapping) == "MulWrapping"
  {
  }

  lemma {:induction false} SaturatingNames()
    ensures BinOpName(AddSaturating) == "AddSaturating" && BinOpName(SubSaturating) == "SubSaturating"
    ensures BinOpName(MulSaturating) == "MulSaturating"
  {
  }

  lemma {:induction false} OtherNames()
    ensures CastKindName(IntToInt) == "IntToInt" && CastKindName(FloatToFloat) == "FloatToFloat"
    ensures CastKindName(IntToFloat) == "IntToFloat" && CastKindName(FloatToInt) == "FloatToInt"
    ensures CastKindName(PtrToInt) == "PtrToInt" && CastKindName(IntToPtr) == "IntToPtr"
    ensures CastKindName(PtrToPtr) == "PtrToPtr" && CastKindName(FnToPtr) == "FnToPtr"
    ensures CastKindName(Transmute) == "Transmute"
    ensures NullaryOpName(SizeOf) == "SizeOf" && NullaryOpName(AlignOf) == "AlignOf"
    ensures forall n :: NullaryOpName(ThreadIndex(n)) == "ThreadIndex"
    ensures forall n :: NullaryOpName(LocalInvocationId(n)) == "LocalInvocationId"
    ensures forall n :: NullaryOpName(WorkgroupId(n)) == "WorkgroupId"
    ensures IntSizeName(I8) == "I8" && IntSizeName(I16) == "I16" && IntSizeName(I32) == "I32"
    ensures IntSizeName(I64) == "I64" && IntSizeName(I128) == "I128" && IntSizeName(ISize) == "ISize"
    ensures FloatSizeName(F32) == "F32" && FloatSizeName(F64) == "F64"
    ensures ConvName(CCBuild) == "Build" && ConvName(CCC) == "C" && ConvName(CCFast) == "Fast"
    ensures ConvName(CCCold) == "Cold"
  {
  }

  // ----- places, values and constants -----------------------------------------------------------------

  function Truth(b: bool): string { if b then "true" else "false" }

  function ProjectionFormat(at: string, p: Projection): seq<string> {
    match p
    case PDeref => [Line(at, "Deref")]
    case PField(index, name, ty) =>
      [Line(at, "Field" + (" index=" + (Dec(index) + (" name=" + name))))] + Lines(TypeNode(at + ".type", ty))
    case PIndex(local) => [Line(at, "Index" + (" " + Dec(local)))]
    case ConstantIndex(offset, fromEnd) =>
      [Line(at, "ConstantIndex" + (" offset=" + (Dec(offset) + (" from_end=" + Truth(fromEnd)))))]
    case Subslice(from, to, fromEnd) =>
      [Line(at, "Subslice" + (" from=" + (Dec(from) + (" to=" + (Dec(to) + (" from_end=" + Truth(fromEnd)))))))]
    case Downcast(variant) => [Line(at, "Downcast" + (" " + Dec(variant)))]
  }

  lemma {:induction false} ProjectionLines(at: string, p: Projection)
    ensures Lines(ProjectionNode(at, p)) == ProjectionFormat(at, p)
  {
    NodeLines(ProjectionNode(at, p));
    NoLines();
    hide Lines, LinesOf, TypeNode, Dec;
    if p.PField? {
      OneOf(TypeNode(at + ".type", p.ty));
    }
    assert "Deref" + "" == "Deref";
  }

  lemma {:induction false} PlaceLines(at: string, p: Place)
    ensures Lines(PlaceNode(at, p))
         == [Line(at, "local=" + (Dec(p.local) + (" projections=" + Dec(|p.projections|))))]
            + LinesOf(seq(|p.projections|, i requires 0 <= i < |p.projections| =>
                ProjectionNode(at + ".projection" + "[" + Dec(i) + "]", p.projections[i])))
  {
    NodeLines(PlaceNode(at, p));
    hide Lines, LinesOf, ProjectionNode, Dec;
    assert ProjectionNodes(at, p.projections) == seq(|p.projections|, i requires 0 <= i < |p.projections| =>
                ProjectionNode(at + ".projection" + "[" + Dec(i) + "]", p.projections[i]));
  }

  function ValueFormat(at: string, v: Value): seq<string> {
    match v
    case Local(id) => [Line(at, "Local" + (" " + Dec(id)))]
    case VConst(constant) => [Line(at, "Const")] + Lines(ConstNode(at + ".const", constant))
    case Global(name) => [Line(at, "Global" + (" " + Quoted(name)))]
    case Function(name) => [Line(at, "Function" + (" " + Quoted(name)))]
  }

  lemma {:induction false} ValueLines(at: string, v: Value)
    ensures Lines(ValueNode(at, v)) == ValueFormat(at, v)
  {
    NodeLines(ValueNode(at, v));
    NoLines();
    hide Lines, LinesOf, ConstNode, Dec, Quoted;
    if v.VConst? {
      OneOf(ConstNode(at + ".const", v.constant));
      assert "Const" + "" == "Const";
    }
  }

  function ConstFormat(at: string, c: Const): seq<string> {
    match c
    case CBool(flag) => [Line(at, "Bool" + (" " + Truth(flag)))]
    case CInt(number, ty) => [Line(at, "Int" + (" " + DecInt(number)))] + Lines(TypeNode(at + ".type", ty))
    case CUint(unsigned, ty) => [Line(at, "Uint" + (" " + Dec(unsigned)))] + Lines(TypeNode(at + ".type", ty))
    case CFloat(bits, ty) => [Line(at, "Float" + (" bits=" + Dec(bits)))] + Lines(TypeNode(at + ".type", ty))
    case CStr(index) => [Line(at, "Str" + (" index=" + Dec(index)))]
    case CByteStr(bytes) => [Line(at, "ByteStr" + (" " + HexBytes(bytes)))]
    case CNull(ty) => [Line(at, "Null")] + Lines(TypeNode(at + ".type", ty))
    case CUnit => [Line(at, "Unit")]
    case CZeroed(ty) => [Line(at, "Zeroed")] + Lines(TypeNode(at + ".type", ty))
    case CUndef(ty) => [Line(at, "Undef")] + Lines(TypeNode(at + ".type", ty))
    case CStruct(name, fields) =>
      [Line(at, "Struct" + (" " + (Quoted(name) + (" fields=" + Dec(|fields|)))))]
      + LinesOf(seq(|fields|, i requires 0 <= i < |fields| => ConstNode(at + ".field" + "[" + Dec(i) + "]", fields[i])))
  }

  lemma {:induction false} ConstHeads(c: Const)
    ensures ConstHead(c) == match c
      case CBool(flag) => "Bool" + (" " + Truth(flag))
      case CInt(number, _) => "Int" + (" " + DecInt(number))
      case CUint(unsigned, _) => "Uint" + (" " + Dec(unsigned))
      case CFloat(bits, _) => "Float" + (" bits=" + Dec(bits))
      case CStr(index) => "Str" + (" index=" + Dec(index))
      case CByteStr(bytes) => "ByteStr" + (" " + HexBytes(bytes))
      case CNull(_) => "Null"
      case CUnit => "Unit"
      case CZeroed(_) => "Zeroed"
      case CUndef(_) => "Undef"
      case CStruct(name, fields) => "Struct" + (" " + (Quoted(name) + (" fields=" + Dec(|fields|))))
  {
    hide Dec, DecInt, Quoted, HexBytes;
    assert ConstName(c) + "" == ConstName(c);
  }

  lemma {:induction false} ConstNodeParts(at: string, c: Const)
    ensures ConstNode(at, c) == Node(at, ConstHead(c), ConstKids(at, c))
  {
  }

  lemma {:induction false} ConstLines(at: string, c: Const)
    ensures Lines(ConstNode(at, c)) == ConstFormat(at, c)
  {
    NodeLines(ConstNode(at, c));
    NoLines();
    ConstHeads(c);
    ConstNodeParts(at, c);
    hide Lines, LinesOf, TypeNode, ConstNode, ConstHead, Dec, DecInt, Quoted, HexBytes;
    match c
    case CInt(_, ty) => OneOf(TypeNode(at + ".type", ty));
    case CUint(_, ty) => OneOf(TypeNode(at + ".type", ty));
    case CFloat(_, ty) => OneOf(TypeNode(at + ".type", ty));
    case CNull(ty) => OneOf(TypeNode(at + ".type", ty));
    case CZeroed(ty) => OneOf(TypeNode(at + ".type", ty));
    case CUndef(ty) => OneOf(TypeNode(at + ".type", ty));
    case CStruct(_, fields) =>
      assert ConstKids(at, c) == seq(|fields|, i requires 0 <= i < |fields| =>
        ConstNode(at + ".field" + "[" + Dec(i) + "]", fields[i]));
    case _ =>
  }

  // ----- types and signatures -------------------------------------------------------------------------

  function TypeFormat(at: string, t: Type): seq<string> {
    match t
    case Void => [Line(at, "Void")]
    case TBool => [Line(at, "Bool")]
    case TInt(size, signed) =>
      [Line(at, "Int" + (" size=" + (IntSizeName(size) + (" signed=" + Truth(signed)))))]
    case TFloat(size) => [Line(at, "Float" + (" size=" + FloatSizeName(size)))]
    case Ptr(inner) => [Line(at, "Ptr")] + Lines(TypeNode(at + ".inner", inner))
    case TArray(element, count) =>
      [Line(at, "Array" + (" count=" + Dec(count)))] + Lines(TypeNode(at + ".element", element))
    case Slice(element) => [Line(at, "Slice")] + Lines(TypeNode(at + ".element", element))
    case TOption(inner) => [Line(at, "Option")] + Lines(TypeNode(at + ".inner", inner))
    case TStruct(name) => [Line(at, "Struct" + (" " + Quoted(name)))]
    case FnPtr(sig) => [Line(at, "FnPtr")] + SigFormat(sig)
    case Never => [Line(at, "Never")]
    case Vector(element, lanes) =>
      [Line(at, "Vector" + (" lanes=" + Dec(lanes)))] + Lines(TypeNode(at + ".element", element))
    case Texture2D(element) => [Line(at, "Texture2D")] + Lines(TypeNode(at + ".element", element))
    case Sampler => [Line(at, "Sampler")]
    case SampledImage(element) => [Line(at, "SampledImage")] + Lines(TypeNode(at + ".element", element))
    case TraitObject(name) => [Line(at, "TraitObject" + (" " + Quoted(name)))]
    case TVec(element) => [Line(at, "Vec")] + Lines(TypeNode(at + ".element", element))
    case TMap(key, value) =>
      [Line(at, "Map")] + Lines(TypeNode(at + ".key", key)) + Lines(TypeNode(at + ".value", value))
    case TTuple(elements) =>
      [Line(at, "Tuple" + (" " + Dec(|elements|)))]
      + LinesOf(seq(|elements|, i requires 0 <= i < |elements| =>
          TypeNode(at + ".element" + "[" + Dec(i) + "]", elements[i])))
  }

  /** A signature prints the same lines wherever it stands. */
  function SigFormat(sig: FnSig): seq<string> {
    [Line("sig", "variadic=" + (Truth(sig.variadic) + (" calling_conv=" + ConvName(sig.conv))))]
    + ([Line("sig.params", Dec(|sig.params|))]
       + LinesOf(seq(|sig.params|, i requires 0 <= i < |sig.params| =>
           TypeNode("sig.param" + "[" + Dec(i) + "]", sig.params[i]))))
    + Lines(TypeNode("sig.ret", sig.ret))
  }

  lemma {:induction false} SigLines(sig: FnSig)
    ensures LinesOf(SigNodes(sig)) == SigFormat(sig)
  {
    var ns := SigNodes(sig);
    LeafLines("sig", SigHead(sig));
    NodeLines(ns[1]);
    hide Lines, LinesOf, TypeNode, Dec, ConvName;
    assert ParamNodes(sig) == seq(|sig.params|, i requires 0 <= i < |sig.params| =>
           TypeNode("sig.param" + "[" + Dec(i) + "]", sig.params[i]));
    ThreeOf(ns[0], ns[1], ns[2]);
    assert ns == [ns[0], ns[1], ns[2]];
  }

  lemma {:induction false} TypeHeads(t: Type)
    ensures TypeHead(t) == match t
      case Void => "Void"
      case TBool => "Bool"
      case TInt(size, signed) => "Int" + (" size=" + (IntSizeName(size) + (" signed=" + Truth(signed))))
      case TFloat(size) => "Float" + (" size=" + FloatSizeName(size))
      case Ptr(_) => "Ptr"
      case TArray(_, count) => "Array" + (" count=" + Dec(count))
      case Slice(_) => "Slice"
      case TOption(_) => "Option"
      case TStruct(name) => "Struct" + (" " + Quoted(name))
      case FnPtr(_) => "FnPtr"
      case Never => "Never"
      case Vector(_, lanes) => "Vector" + (" lanes=" + Dec(lanes))
      case Texture2D(_) => "Texture2D"
      case Sampler => "Sampler"
      case SampledImage(_) => "SampledImage"
      case TraitObject(name) => "TraitObject" + (" " + Quoted(name))
      case TVec(_) => "Vec"
      case TMap(_, _) => "Map"
      case TTuple(elements) => "Tuple" + (" " + Dec(|elements|))
  {
    hide Dec, Quoted, IntSizeName, FloatSizeName;
    assert TypeName(t) + "" == TypeName(t);
  }

  lemma {:induction false} TypeLines(at: string, t: Type)
    ensures Lines(TypeNode(at, t)) == TypeFormat(at, t)
  {
    NodeLines(TypeNode(at, t));
    NoLines();
    TypeNodeParts(at, t);
    TypeHeads(t);
    hide Lines, LinesOf, TypeNode, TypeHead, Dec, Quoted, SigNodes, SigFormat, IntSizeName, FloatSizeName;
    match t
    case Ptr(inner) => OneOf(TypeNode(at + ".inner", inner));
    case TOption(inner) => OneOf(TypeNode(at + ".inner", inner));
    case TArray(element, _) => OneOf(TypeNode(at + ".element", element));
    case Slice(element) => OneOf(TypeNode(at + ".element", element));
    case Vector(element, _) => OneOf(TypeNode(at + ".element", element));
    case Texture2D(element) => OneOf(TypeNode(at + ".element", element));
    case SampledImage(element) => OneOf(TypeNode(at + ".element", element));
    case TVec(element) => OneOf(TypeNode(at + ".element", element));
    case TMap(key, value) => TwoOf(TypeNode(at + ".key", key), TypeNode(at + ".value", value));
    case FnPtr(sig) => SigLines(sig);
    case TTuple(elements) =>
      assert TypeKids(at, t) == seq(|elements|, i requires 0 <= i < |elements| =>
          TypeNode(at + ".element" + "[" + Dec(i) + "]", elements[i]));
    case _ =>
  }

  lemma {:induction false} TypeNodeParts(at: string, t: Type)
    ensures TypeNode(at, t) == Node(at, TypeHead(t), TypeKids(at, t))
  {
  }

  // ----- blocks ---------------------------------------------------------------------------------------

  function BlockFormat(at: string, b: Block): seq<string> {
    [Line(at, "id=" + (Dec(b.id) + (" label=" + if b.name.Some? then Quoted(b.name.value) else "null")))]
    + ([Line(at + ".stmts", Dec(|b.stmts|))]
       + LinesOf(seq(|b.stmts|, i requires 0 <= i < |b.stmts| =>
           StmtNode(at + ".stmt" + "[" + Dec(i) + "]", b.stmts[i]))))
    + (if b.terminator.Some? then Lines(TerminatorNode(at + ".terminator", b.terminator.value))
       else [Line(at + ".terminator", "null")])
  }

  lemma {:induction false} BlockLines(at: string, b: Block)
    ensures Lines(BlockNode(at, b)) == BlockFormat(at, b)
  {
    var l, e := StmtList(at, b.stmts), EndNode(at + ".terminator", b.terminator);
    NodeLines(BlockNode(at, b));
    NodeLines(l);
    LeafLines(at + ".terminator", "null");
    hide Lines, LinesOf, StmtNode, TerminatorNode, Dec, Quoted;
    assert StmtNodes(at + ".stmt", b.stmts) == seq(|b.stmts|, i requires 0 <= i < |b.stmts| =>
           StmtNode(at + ".stmt" + "[" + Dec(i) + "]", b.stmts[i]));
    TwoOf(l, e);
  }

  /** A function's body: a line with the number of its blocks and then the blocks, or a line that says
      that there are none. */
  lemma {:induction false} BodyLines(at: string, body: Option<seq<Block>>)
    ensures Lines(BodyNode(at, body)) == match body
      case None => [Line(at + ".blocks", "null")]
      case Some(bs) =>
        [Line(at + ".blocks", Dec(|bs|))]
        + LinesOf(seq(|bs|, i requires 0 <= i < |bs| => BlockNode(at + ".block" + "[" + Dec(i) + "]", bs[i])))
  {
    NodeLines(BodyNode(at, body));
    NoLines();
    hide Lines, LinesOf, BlockNode, Dec;
    match body
    case None =>
    case Some(bs) =>
      assert BlockNodes(at + ".block", bs)
          == seq(|bs|, i requires 0 <= i < |bs| => BlockNode(at + ".block" + "[" + Dec(i) + "]", bs[i]));
  }
}
