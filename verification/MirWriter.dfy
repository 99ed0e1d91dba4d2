/**
 The writer itself: `write_mir_*` append to one output, line by line. Each method is proved to
 append the text of the tree that MirPrint and MirBody give its argument. What that text
 determines is the matter of MirDigest.
 */
module MirWriter {
  import opened Options
  import opened Decimal
  import opened Quoting
  import opened MirTree
  import opened MirNodes
  import opened MirHeads
  import opened MirPrint
  import opened MirBody

  class Output {
    var text: string

    constructor ()
      ensures text == ""
    {
      text := "";
    }

    /** `push_line` */
    method PushLine(line: string)
      modifies this
      ensures text == old(text) + (line + [NEWLINE])
    {
      text := text + line;
      text := text + [NEWLINE];
      assert text == old(text) + (line + [NEWLINE]);
    }
  }

  // ----- one line, then children ---------------------------------------------------------------

  lemma {:induction false} Regroup(a: string, b: string, c: string)
    ensures a + b + c == a + (b + c)
  {
  }

  /** A line and the children after it make the node's text. */
  lemma {:induction false} LineThenKids(n: Node)
    ensures NodeText(n) == (n.tag + " " + n.head + [NEWLINE]) + KidsText(n.kids)
  {
    NodeTextParts(n);
  }

  lemma {:induction false} NoKids()
    ensures KidsText([]) == ""
  {
  }

  lemma {:induction false} LeafText(at: string, head: string)
    ensures NodeText(Leaf(at, head)) == at + " " + head + [NEWLINE]
  {
    NodeTextParts(Leaf(at, head));
    NoKids();
    assert (at + " " + head + [NEWLINE]) + "" == at + " " + head + [NEWLINE];
  }

  lemma {:induction false} OneKid(a: Node)
    ensures KidsText([a]) == NodeText(a)
  {
    KidsTextSnoc([], a);
    NoKids();
    assert [] + [a] == [a] && "" + NodeText(a) == NodeText(a);
  }

  lemma {:induction false} TwoKids(a: Node, b: Node)
    ensures KidsText([a, b]) == NodeText(a) + NodeText(b)
  {
    OneKid(a);
    KidsTextSnoc([a], b);
    assert [a] + [b] == [a, b];
  }

  lemma {:induction false} ThreeKids(a: Node, b: Node, c: Node)
    ensures KidsText([a, b, c]) == NodeText(a) + NodeText(b) + NodeText(c)
  {
    TwoKids(a, b);
    KidsTextSnoc([a, b], c);
    assert [a, b] + [c] == [a, b, c];
  }

  lemma {:induction false} FourKids(a: Node, b: Node, c: Node, d: Node)
    ensures KidsText([a, b, c, d]) == NodeText(a) + NodeText(b) + NodeText(c) + NodeText(d)
  {
    ThreeKids(a, b, c);
    KidsTextSnoc([a, b, c], d);
    assert [a, b, c] + [d] == [a, b, c, d];
  }

  lemma {:induction false} FiveKids(a: Node, b: Node, c: Node, d: Node, e: Node)
    ensures KidsText([a, b, c, d, e]) == NodeText(a) + NodeText(b) + NodeText(c) + NodeText(d) + NodeText(e)
  {
    FourKids(a, b, c, d);
    KidsTextSnoc([a, b, c, d], e);
    assert [a, b, c, d] + [e] == [a, b, c, d, e];
  }

  /** Appending two texts is appending both at once. */
  lemma {:induction false} AppendTwo(before: string, a: Node, b: Node)
    ensures before + KidsText([a, b]) == before + NodeText(a) + NodeText(b)
  {
    TwoKids(a, b);
    Regroup(before, NodeText(a), NodeText(b));
  }

  lemma {:induction false} AppendThree(before: string, a: Node, b: Node, c: Node)
    ensures before + KidsText([a, b, c]) == before + NodeText(a) + NodeText(b) + NodeText(c)
  {
    ThreeKids(a, b, c);
    Regroup(before, NodeText(a), NodeText(b));
    Regroup(before, NodeText(a) + NodeText(b), NodeText(c));
  }

  lemma {:induction false} AppendFive(before: string, a: Node, b: Node, c: Node, d: Node, e: Node)
    ensures before + KidsText([a, b, c, d, e])
         == before + NodeText(a) + NodeText(b) + NodeText(c) + NodeText(d) + NodeText(e)
  {
    hide NodeText, KidsText;
    FiveKids(a, b, c, d, e);
    Regroup(before, NodeText(a), NodeText(b));
    Regroup(before, NodeText(a) + NodeText(b), NodeText(c));
    Regroup(before, NodeText(a) + NodeText(b) + NodeText(c), NodeText(d));
    Regroup(before, NodeText(a) + NodeText(b) + NodeText(c) + NodeText(d), NodeText(e));
  }

  lemma {:induction false} AppendFour(before: string, a: Node, b: Node, c: Node, d: Node)
    ensures before + KidsText([a, b, c, d])
         == before + NodeText(a) + NodeText(b) + NodeText(c) + NodeText(d)
  {
    hide NodeText, KidsText;
    FourKids(a, b, c, d);
    Regroup(before, NodeText(a), NodeText(b));
    Regroup(before, NodeText(a) + NodeText(b), NodeText(c));
    Regroup(before, NodeText(a) + NodeText(b) + NodeText(c), NodeText(d));
  }

  /** Push a line under a label. */
  method WriteLine(output: Output, at: string, head: string)
    modifies output
    ensures output.text == old(output.text) + NodeText(Leaf(at, head))
  {
    LeafText(at, head);
    output.PushLine(at + " " + head);
  }

  // ----- types ---------------------------------------------------------------------------------

  /** `write_mir_type` */
  method WriteType(output: Output, at: string, t: Type)
    modifies output
    ensures output.text == old(output.text) + NodeText(TypeNode(at, t))
    decreases t, 3
  {
    hide NodeText, KidsText, TypeHead;
    ghost var n := TypeNode(at, t);
    LineThenKids(n);
    output.PushLine(at + " " + TypeHead(t));
    ghost var line := at + " " + TypeHead(t) + [NEWLINE];
    match t {
      case Ptr(inner) => OneKid(TypeNode(at + ".inner", inner)); WriteType(output, at + ".inner", inner);
      case TOption(inner) => OneKid(TypeNode(at + ".inner", inner)); WriteType(output, at + ".inner", inner);
      case TArray(element, _) =>
        OneKid(TypeNode(at + ".element", element));
        WriteType(output, at + ".element", element);
      case Slice(element) => OneKid(TypeNode(at + ".element", element)); WriteType(output, at + ".element", element);
      case Vector(element, _) =>
        OneKid(TypeNode(at + ".element", element));
        WriteType(output, at + ".element", element);
      case Texture2D(element) =>
        OneKid(TypeNode(at + ".element", element));
        WriteType(output, at + ".element", element);
      case SampledImage(element) =>
        OneKid(TypeNode(at + ".element", element));
        WriteType(output, at + ".element", element);
      case TVec(element) => OneKid(TypeNode(at + ".element", element)); WriteType(output, at + ".element", element);
      case TMap(key, value) =>
        TwoKids(TypeNode(at + ".key", key), TypeNode(at + ".value", value));
        WriteType(output, at + ".key", key);
        WriteType(output, at + ".value", value);
      case FnPtr(sig) => WriteFnSig(output, sig);
      case TTuple(elements) => WriteTypes(output, at + ".element", elements, TypeKids(at, t));
      case _ => NoKids();
    }
    Regroup(old(output.text), line, KidsText(n.kids));
  }

  /** A counted list of types, each under its index. */
  method WriteTypes(output: Output, at: string, ts: seq<Type>, ghost ns: seq<Node>)
    requires |ns| == |ts|
    requires forall i :: 0 <= i < |ts| ==> ns[i] == TypeNode(Indexed(at, i), ts[i])
    modifies output
    ensures output.text == old(output.text) + KidsText(ns)
    decreases ts, 4
  {
    hide NodeText, KidsText, TypeNode;
    NoKids();
    ghost var before := output.text;
    for i := 0 to |ts|
      invariant output.text == before + KidsText(ns[..i])
    {
      KidsTextSnoc(ns[..i], ns[i]);
      assert ns[..i + 1] == ns[..i] + [ns[i]];
      Regroup(before, KidsText(ns[..i]), NodeText(ns[i]));
      WriteType(output, Indexed(at, i), ts[i]);
    }
    assert ns[..|ts|] == ns;
  }

  /** `write_mir_fn_sig` */
  method WriteFnSig(output: Output, sig: FnSig)
    modifies output
    ensures output.text == old(output.text) + KidsText(SigNodes(sig))
    decreases sig, 2
  {
    hide NodeText, KidsText, TypeNode, ParamNodes;
    ghost var ns := SigNodes(sig);
    ThreeKids(ns[0], ns[1], ns[2]);
    WriteLine(output, "sig", SigHead(sig));
    WriteParams(output, sig);
    WriteType(output, "sig.ret", sig.ret);
    Regroup(old(output.text), NodeText(ns[0]), NodeText(ns[1]));
    Regroup(old(output.text), NodeText(ns[0]) + NodeText(ns[1]), NodeText(ns[2]));
  }

  method WriteParams(output: Output, sig: FnSig)
    modifies output
    ensures output.text == old(output.text) + NodeText(SigNodes(sig)[1])
    decreases sig, 1
  {
    hide NodeText, KidsText, TypeNode;
    ghost var n := SigNodes(sig)[1];
    LineThenKids(n);
    output.PushLine("sig.params" + " " + Dec(|sig.params|));
    WriteTypes(output, "sig.param", sig.params, ParamNodes(sig));
    Regroup(old(output.text), "sig.params" + " " + Dec(|sig.params|) + [NEWLINE], KidsText(n.kids));
  }

  // ----- constants, values, places -----------------------------------------------------------

  /** `write_mir_const` */
  method WriteConst(output: Output, at: string, c: Const)
    modifies output
    ensures output.text == old(output.text) + NodeText(ConstNode(at, c))
    decreases c, 3
  {
    hide NodeText, KidsText, ConstHead, TypeNode;
    ghost var n := ConstNode(at, c);
    LineThenKids(n);
    output.PushLine(at + " " + ConstHead(c));
    ghost var line := at + " " + ConstHead(c) + [NEWLINE];
    match c {
      case CInt(_, ty) => OneKid(TypeNode(at + ".type", ty)); WriteType(output, at + ".type", ty);
      case CUint(_, ty) => OneKid(TypeNode(at + ".type", ty)); WriteType(output, at + ".type", ty);
      case CFloat(_, ty) => OneKid(TypeNode(at + ".type", ty)); WriteType(output, at + ".type", ty);
      case CNull(ty) => OneKid(TypeNode(at + ".type", ty)); WriteType(output, at + ".type", ty);
      case CZeroed(ty) => OneKid(TypeNode(at + ".type", ty)); WriteType(output, at + ".type", ty);
      case CUndef(ty) => OneKid(TypeNode(at + ".type", ty)); WriteType(output, at + ".type", ty);
      case CStruct(_, fields) => WriteFields(output, at + ".field", fields, ConstKids(at, c));
      case _ => NoKids();
    }
    Regroup(old(output.text), line, KidsText(n.kids));
  }

  method WriteFields(output: Output, at: string, cs: seq<Const>, ghost ns: seq<Node>)
    requires |ns| == |cs|
    requires forall i :: 0 <= i < |cs| ==> ns[i] == ConstNode(Indexed(at, i), cs[i])
    modifies output
    ensures output.text == old(output.text) + KidsText(ns)
    decreases cs, 4
  {
    hide NodeText, KidsText, ConstNode;
    NoKids();
    ghost var before := output.text;
    for i := 0 to |cs|
      invariant output.text == before + KidsText(ns[..i])
    {
      KidsTextSnoc(ns[..i], ns[i]);
      assert ns[..i + 1] == ns[..i] + [ns[i]];
      Regroup(before, KidsText(ns[..i]), NodeText(ns[i]));
      WriteConst(output, Indexed(at, i), cs[i]);
    }
    assert ns[..|cs|] == ns;
  }

  /** `write_mir_value` */
  method WriteValue(output: Output, at: string, v: Value)
    modifies output
    ensures output.text == old(output.text) + NodeText(ValueNode(at, v))
  {
    hide NodeText, KidsText, ValueHead, ConstNode;
    ghost var n := ValueNode(at, v);
    LineThenKids(n);
    output.PushLine(at + " " + ValueHead(v));
    NoKids();
    if v.VConst? {
      OneKid(ConstNode(at + ".const", v.constant));
      WriteConst(output, at + ".const", v.constant);
    }
    Regroup(old(output.text), at + " " + ValueHead(v) + [NEWLINE], KidsText(n.kids));
  }

  /** A counted list of values. */
  method WriteValueList(output: Output, counted: string, each: string, vs: seq<Value>)
    modifies output
    ensures output.text == old(output.text) + NodeText(ValueList(counted, each, vs))
  {
    hide NodeText, KidsText, ValueNode;
    ghost var n := ValueList(counted, each, vs);
    LineThenKids(n);
    NoKids();
    output.PushLine(counted + " " + Dec(|vs|));
    ghost var before, ns := output.text, ValueNodes(each, vs);
    for i := 0 to |vs|
      invariant output.text == before + KidsText(ns[..i])
    {
      KidsTextSnoc(ns[..i], ns[i]);
      assert ns[..i + 1] == ns[..i] + [ns[i]];
      Regroup(before, KidsText(ns[..i]), NodeText(ns[i]));
      WriteValue(output, Indexed(each, i), vs[i]);
    }
    assert ns[..|vs|] == ns;
    Regroup(old(output.text), counted + " " + Dec(|vs|) + [NEWLINE], KidsText(n.kids));
  }

  /** `write_mir_projection` */
  method WriteProjection(output: Output, at: string, p: Projection)
    modifies output
    ensures output.text == old(output.text) + NodeText(ProjectionNode(at, p))
  {
    hide NodeText, KidsText, ProjectionHead, TypeNode;
    ghost var n := ProjectionNode(at, p);
    LineThenKids(n);
    output.PushLine(at + " " + ProjectionHead(p));
    NoKids();
    if p.PField? {
      OneKid(TypeNode(at + ".type", p.ty));
      WriteType(output, at + ".type", p.ty);
    }
    Regroup(old(output.text), at + " " + ProjectionHead(p) + [NEWLINE], KidsText(n.kids));
  }

  /** `write_mir_place` */
  method WritePlace(output: Output, at: string, p: Place)
    modifies output
    ensures output.text == old(output.text) + NodeText(PlaceNode(at, p))
  {
    hide NodeText, KidsText, ProjectionNode, PlaceHead;
    ghost var n := PlaceNode(at, p);
    LineThenKids(n);
    NoKids();
    output.PushLine(at + " " + PlaceHead(p));
    ghost var before, ns := output.text, ProjectionNodes(at, p.projections);
    for i := 0 to |p.projections|
      invariant output.text == before + KidsText(ns[..i])
    {
      KidsTextSnoc(ns[..i], ns[i]);
      assert ns[..i + 1] == ns[..i] + [ns[i]];
      Regroup(before, KidsText(ns[..i]), NodeText(ns[i]));
      WriteProjection(output, Indexed(at + ".projection", i), p.projections[i]);
    }
    assert ns[..|p.projections|] == ns;
    Regroup(old(output.text), at + " " + PlaceHead(p) + [NEWLINE], KidsText(n.kids));
  }

  // ----- right-hand sides ----------------------------------------------------------------------

  /** `write_mir_aggregate_kind` */
  method WriteAggregateKind(output: Output, at: string, k: AggregateKind)
    modifies output
    ensures output.text == old(output.text) + NodeText(AggregateNode(at, k))
  {
    hide NodeText, KidsText, AggregateHead, TypeNode;
    ghost var n := AggregateNode(at, k);
    LineThenKids(n);
    output.PushLine(at + " " + AggregateHead(k));
    NoKids();
    if k.AArray? {
      OneKid(TypeNode(at + ".element", k.element));
      WriteType(output, at + ".element", k.element);
    }
    Regroup(old(output.text), at + " " + AggregateHead(k) + [NEWLINE], KidsText(n.kids));
  }

  method WriteNullaryOp(output: Output, at: string, op: NullaryOp)
    modifies output
    ensures output.text == old(output.text) + NodeText(NullaryNode(at, op))
  {
    hide NodeText, KidsText, NullaryOpName;
    ghost var n := NullaryNode(at, op);
    LineThenKids(n);
    output.PushLine(at + ".op" + " " + NullaryOpName(op));
    NoKids();
    if op.ThreadIndex? {
      OneKid(Leaf(at + ".component", Dec(op.component)));
      WriteLine(output, at + ".component", Dec(op.component));
    }
    Regroup(old(output.text), at + ".op" + " " + NullaryOpName(op) + [NEWLINE], KidsText(n.kids));
  }

  /** `write_mir_rvalue` */
  method WriteRValue(output: Output, at: string, r: RValue)
    modifies output
    ensures output.text == old(output.text) + NodeText(RValueNode(at, r))
  {
    hide NodeText, KidsText, RValueName, RValueKids;
    ghost var n := RValueNode(at, r);
    LineThenKids(n);
    output.PushLine(at + " " + RValueName(r));
    WriteRValueParts(output, at, r);
    Regroup(old(output.text), at + " " + RValueName(r) + [NEWLINE], KidsText(n.kids));
  }

  method WriteRValueParts(output: Output, at: string, r: RValue)
    modifies output
    ensures output.text == old(output.text) + KidsText(RValueKids(at, r))
  {
    hide NodeText, KidsText, ValueNode, TypeNode, PlaceNode, ValueList, AggregateNode, NullaryNode, AccessKids;
    hide BinOpName, UnaryOpName, CastKindName;
    match r
    case Use(value) => OneKid(ValueNode(at + ".value", value)); WriteValue(output, at + ".value", value);
    case Repeat(value, count) =>
      AppendTwo(output.text, Leaf(at + ".count", Dec(count)), ValueNode(at + ".value", value));
      WriteLine(output, at + ".count", Dec(count));
      WriteValue(output, at + ".value", value);
    case Discriminant(place) => OneKid(PlaceNode(at + ".place", place)); WritePlace(output, at + ".place", place);
    case Len(place) => OneKid(PlaceNode(at + ".place", place)); WritePlace(output, at + ".place", place);
    case Nullary(op, ty) =>
      AppendTwo(output.text, NullaryNode(at, op), TypeNode(at + ".type", ty));
      WriteNullaryOp(output, at, op);
      WriteType(output, at + ".type", ty);
    case Aggregate(kind, operands) =>
      AppendTwo(output.text, AggregateNode(at + ".kind", kind), ValueList(at + ".operands", at + ".operand", operands));
      WriteAggregateKind(output, at + ".kind", kind);
      WriteValueList(output, at + ".operands", at + ".operand", operands);
    case Ref(isMut, place) => WriteReference(output, at, isMut, place);
    case AddressOf(isMut, place) => WriteReference(output, at, isMut, place);
    case BinaryOp(_, _, _) => WriteOperation(output, at, r);
    case UnaryOp(_, _) => WriteOperation(output, at, r);
    case Cast(_, _, _) => WriteOperation(output, at, r);
    case FieldAccess(_, _, _) => WriteAccess(output, at, r);
    case VariantField(_, _, _, _) => WriteAccess(output, at, r);
    case IndexAccess(_, _, _) => WriteAccess(output, at, r);
    case Deref(_, _) => WriteAccess(output, at, r);
    case TextureSample(_, _, _) => WriteAccess(output, at, r);
  }

  method WriteReference(output: Output, at: string, isMut: bool, place: Place)
    modifies output
    ensures output.text
         == old(output.text) + KidsText([Leaf(at + ".is_mut", BoolName(isMut)), PlaceNode(at + ".place", place)])
  {
    hide NodeText, KidsText, PlaceNode;
    AppendTwo(output.text, Leaf(at + ".is_mut", BoolName(isMut)), PlaceNode(at + ".place", place));
    WriteLine(output, at + ".is_mut", BoolName(isMut));
    WritePlace(output, at + ".place", place);
  }

  method WriteOperation(output: Output, at: string, r: RValue)
    requires r.BinaryOp? || r.UnaryOp? || r.Cast?
    modifies output
    ensures output.text == old(output.text) + KidsText(RValueKids(at, r))
  {
    hide NodeText, KidsText, ValueNode, TypeNode, PlaceNode, ValueList, AggregateNode, NullaryNode, AccessKids;
    hide BinOpName, UnaryOpName, CastKindName;
    match r
    case BinaryOp(op, left, right) =>
      AppendThree(output.text, Leaf(at + ".op", BinOpName(op)),
                  ValueNode(at + ".left", left), ValueNode(at + ".right", right));
      WriteLine(output, at + ".op", BinOpName(op));
      WriteValue(output, at + ".left", left);
      WriteValue(output, at + ".right", right);
    case UnaryOp(op, operand) =>
      AppendTwo(output.text, Leaf(at + ".op", UnaryOpName(op)), ValueNode(at + ".operand", operand));
      WriteLine(output, at + ".op", UnaryOpName(op));
      WriteValue(output, at + ".operand", operand);
    case Cast(kind, value, ty) =>
      AppendThree(output.text, Leaf(at + ".kind", CastKindName(kind)),
                  ValueNode(at + ".value", value), TypeNode(at + ".type", ty));
      WriteLine(output, at + ".kind", CastKindName(kind));
      WriteValue(output, at + ".value", value);
      WriteType(output, at + ".type", ty);
  }

  method WriteAccess(output: Output, at: string, r: RValue)
    requires RValueKind(r) >= 11
    modifies output
    ensures output.text == old(output.text) + KidsText(AccessKids(at, r))
  {
    hide NodeText, KidsText, ValueNode, TypeNode, Quoted, VariantHead;
    match r
    case FieldAccess(base, field, ty) =>
      AppendThree(output.text, ValueNode(at + ".base", base),
                  Leaf(at + ".field", Quoted(field)), TypeNode(at + ".field_type", ty));
      WriteValue(output, at + ".base", base);
      WriteLine(output, at + ".field", Quoted(field));
      WriteType(output, at + ".field_type", ty);
    case VariantField(base, variant, index, ty) =>
      AppendThree(output.text, ValueNode(at + ".base", base),
                  Leaf(at + ".variant", VariantHead(variant, index)), TypeNode(at + ".field_type", ty));
      WriteValue(output, at + ".base", base);
      WriteLine(output, at + ".variant", VariantHead(variant, index));
      WriteType(output, at + ".field_type", ty);
    case IndexAccess(base, index, ty) =>
      AppendThree(output.text, ValueNode(at + ".base", base),
                  ValueNode(at + ".index", index), TypeNode(at + ".element_type", ty));
      WriteValue(output, at + ".base", base);
      WriteValue(output, at + ".index", index);
      WriteType(output, at + ".element_type", ty);
    case Deref(ptr, ty) =>
      AppendTwo(output.text, ValueNode(at + ".ptr", ptr), TypeNode(at + ".pointee_type", ty));
      WriteValue(output, at + ".ptr", ptr);
      WriteType(output, at + ".pointee_type", ty);
    case TextureSample(texture, sampler, coords) =>
      AppendThree(output.text, ValueNode(at + ".texture", texture),
                  ValueNode(at + ".sampler", sampler), ValueNode(at + ".coords", coords));
      WriteValue(output, at + ".texture", texture);
      WriteValue(output, at + ".sampler", sampler);
      WriteValue(output, at + ".coords", coords);
  }

  // ----- statements ------------------------------------------------------------------------------

  /** `write_mir_stmt` */
  method WriteStmt(output: Output, at: string, s: Stmt)
    modifies output
    ensures output.text == old(output.text) + NodeText(StmtNode(at, s))
  {
    hide NodeText, KidsText, StmtName, StmtKids;
    ghost var n := StmtNode(at, s);
    LineThenKids(n);
    output.PushLine(at + " " + StmtName(s));
    WriteStmtParts(output, at, s);
    Regroup(old(output.text), at + " " + StmtName(s) + [NEWLINE], KidsText(n.kids));
  }

  method WriteStmtParts(output: Output, at: string, s: Stmt)
    modifies output
    ensures output.text == old(output.text) + KidsText(StmtKids(at, s))
  {
    hide NodeText, KidsText, ValueNode, TypeNode, RValueNode, Quoted, Dec;
    NoKids();
    match s
    case Assign(dest, value) =>
      AppendTwo(output.text, Leaf(at + ".dest", Dec(dest)), RValueNode(at + ".value", value));
      WriteLine(output, at + ".dest", Dec(dest));
      WriteRValue(output, at + ".value", value);
    case DerefAssign(ptr, value) =>
      AppendTwo(output.text, Leaf(at + ".ptr", Dec(ptr)), RValueNode(at + ".value", value));
      WriteLine(output, at + ".ptr", Dec(ptr));
      WriteRValue(output, at + ".value", value);
    case FieldDerefAssign(ptr, field, value) =>
      AppendThree(output.text, Leaf(at + ".ptr", Dec(ptr)),
                  Leaf(at + ".field", Quoted(field)), RValueNode(at + ".value", value));
      WriteLine(output, at + ".ptr", Dec(ptr));
      WriteLine(output, at + ".field", Quoted(field));
      WriteRValue(output, at + ".value", value);
    case FieldAssign(base, field, value) =>
      AppendThree(output.text, Leaf(at + ".base", Dec(base)),
                  Leaf(at + ".field", Quoted(field)), RValueNode(at + ".value", value));
      WriteLine(output, at + ".base", Dec(base));
      WriteLine(output, at + ".field", Quoted(field));
      WriteRValue(output, at + ".value", value);
    case GlobalStore(name, value) =>
      AppendTwo(output.text, Leaf(at + ".global", Quoted(name)), RValueNode(at + ".value", value));
      WriteLine(output, at + ".global", Quoted(name));
      WriteRValue(output, at + ".value", value);
    case IndexStore(base, index, ty, value) =>
      AppendFour(output.text, ValueNode(at + ".base", base), ValueNode(at + ".index", index),
                 TypeNode(at + ".elem_ty", ty), RValueNode(at + ".value", value));
      WriteValue(output, at + ".base", base);
      WriteValue(output, at + ".index", index);
      WriteType(output, at + ".elem_ty", ty);
      WriteRValue(output, at + ".value", value);
    case StorageLive(local) => OneKid(Leaf(at + ".local", Dec(local))); WriteLine(output, at + ".local", Dec(local));
    case StorageDead(local) => OneKid(Leaf(at + ".local", Dec(local))); WriteLine(output, at + ".local", Dec(local));
    case Nop =>
    case WorkgroupBarrier =>
  }

  // ----- terminators -----------------------------------------------------------------------------

  /** `write_mir_terminator` */
  method WriteTerminator(output: Output, at: string, t: Terminator)
    modifies output
    ensures output.text == old(output.text) + NodeText(TerminatorNode(at, t))
  {
    hide NodeText, KidsText, TerminatorName, TerminatorKids;
    ghost var n := TerminatorNode(at, t);
    LineThenKids(n);
    output.PushLine(at + " " + TerminatorName(t));
    WriteTerminatorParts(output, at, t);
    Regroup(old(output.text), at + " " + TerminatorName(t) + [NEWLINE], KidsText(n.kids));
  }

  method WriteTerminatorParts(output: Output, at: string, t: Terminator)
    modifies output
    ensures output.text == old(output.text) + KidsText(TerminatorKids(at, t))
  {
    hide NodeText, KidsText, ValueNode, PlaceNode, ValueList, TargetList, ResultNode, CallKids, AssertKids;
    hide OptionalNumber, Quoted, Dec;
    NoKids();
    match t
    case Goto(target) => OneKid(Leaf(at + ".target", Dec(target))); WriteLine(output, at + ".target", Dec(target));
    case If(cond, thenBlock, elseBlock) =>
      AppendThree(output.text, ValueNode(at + ".cond", cond),
                  Leaf(at + ".then", Dec(thenBlock)), Leaf(at + ".else", Dec(elseBlock)));
      WriteValue(output, at + ".cond", cond);
      WriteLine(output, at + ".then", Dec(thenBlock));
      WriteLine(output, at + ".else", Dec(elseBlock));
    case Switch(value, targets, default) =>
      AppendThree(output.text, ValueNode(at + ".value", value),
                  TargetList(at, targets), Leaf(at + ".default", Dec(default)));
      WriteValue(output, at + ".value", value);
      WriteTargets(output, at, targets);
      WriteLine(output, at + ".default", Dec(default));
    case Call(_, _, _, _, _) => WriteCall(output, at, t);
    case Return(result) => OneKid(ResultNode(at + ".value", result)); WriteResult(output, at + ".value", result);
    case Drop(place, target, unwind) =>
      AppendThree(output.text, PlaceNode(at + ".place", place),
                  Leaf(at + ".target", Dec(target)), Leaf(at + ".unwind", OptionalNumber(unwind)));
      WritePlace(output, at + ".place", place);
      WriteLine(output, at + ".target", Dec(target));
      WriteLine(output, at + ".unwind", OptionalNumber(unwind));
    case Assert(_, _, _, _, _) => WriteAssert(output, at, t);
    case _ =>
  }

  method WriteResult(output: Output, at: string, result: Option<Value>)
    modifies output
    ensures output.text == old(output.text) + NodeText(ResultNode(at, result))
  {
    hide NodeText, ValueNode;
    match result
    case Some(value) => WriteValue(output, at, value);
    case None => WriteLine(output, at, "null");
  }

  method WriteCall(output: Output, at: string, t: Terminator)
    requires t.Call?
    modifies output
    ensures output.text == old(output.text) + KidsText(CallKids(at, t))
  {
    hide NodeText, KidsText, ValueNode, ValueList, OptionalNumber;
    ghost var kids := CallKids(at, t);
    AppendFive(output.text, kids[0], kids[1], kids[2], kids[3], kids[4]);
    WriteValue(output, at + ".func", t.func);
    WriteValueList(output, at + ".args", at + ".arg", t.args);
    WriteLine(output, at + ".dest", OptionalNumber(t.dest));
    WriteLine(output, at + ".target", OptionalNumber(t.next));
    WriteLine(output, at + ".unwind", OptionalNumber(t.unwind));
  }

  method WriteAssert(output: Output, at: string, t: Terminator)
    requires t.Assert?
    modifies output
    ensures output.text == old(output.text) + KidsText(AssertKids(at, t))
  {
    hide NodeText, KidsText, ValueNode, OptionalNumber, Quoted, Dec, BoolName;
    ghost var kids := AssertKids(at, t);
    AppendFive(output.text, kids[0], kids[1], kids[2], kids[3], kids[4]);
    WriteValue(output, at + ".cond", t.cond);
    WriteLine(output, at + ".expected", BoolName(t.expected));
    WriteLine(output, at + ".msg", Quoted(t.msg));
    WriteLine(output, at + ".target", Dec(t.target));
    WriteLine(output, at + ".unwind", OptionalNumber(t.unwind));
  }

  /** The targets of a switch: for each its constant, then its block. */
  method WriteTargets(output: Output, at: string, ts: seq<Target>)
    modifies output
    ensures output.text == old(output.text) + NodeText(TargetList(at, ts))
  {
    hide NodeText, KidsText, TargetNodes, ConstNode;
    ghost var n := TargetList(at, ts);
    LineThenKids(n);
    NoKids();
    output.PushLine(at + ".targets" + " " + Dec(|ts|));
    ghost var before, all := output.text, KidsText(TargetNodes(at + ".target", 0, ts));
    ghost var done := "";
    TargetStep(at + ".target", |ts|, ts);
    for i := 0 to |ts|
      invariant output.text == before + done
      invariant done + KidsText(TargetNodes(at + ".target", i, ts)) == all
    {
      ghost var c := ConstNode(Indexed(at + ".target", i) + ".value", ts[i].constant);
      ghost var b := Leaf(Indexed(at + ".target", i) + ".block", Dec(ts[i].block));
      TargetStep(at + ".target", i, ts);
      PairThenRest(c, b, TargetNodes(at + ".target", i + 1, ts), done);
      WriteConst(output, Indexed(at + ".target", i) + ".value", ts[i].constant);
      Regroup(before, done, NodeText(c));
      WriteLine(output, Indexed(at + ".target", i) + ".block", Dec(ts[i].block));
      Regroup(before, done + NodeText(c), NodeText(b));
      done := done + NodeText(c) + NodeText(b);
    }
    assert done + "" == done;
    Regroup(old(output.text), at + ".targets" + " " + Dec(|ts|) + [NEWLINE], KidsText(n.kids));
  }

  lemma {:induction false} PairThenRest(a: Node, b: Node, rest: seq<Node>, done: string)
    ensures done + KidsText([a, b] + rest) == done + NodeText(a) + NodeText(b) + KidsText(rest)
  {
    KidsTextAppend([a, b], rest);
    TwoKids(a, b);
    hide NodeText, KidsText;
    var x, y, z := NodeText(a), NodeText(b), KidsText(rest);
    Regroup(done, x, y);
    Regroup(done, x + y, z);
  }
}
