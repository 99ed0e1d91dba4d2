/**
 Right-hand sides, statements and terminators: the tree of lines that each prints under a label,
 that every line of the tree but those of a place is a single line, and that the tree determines
 what was printed, up to the components that are never written.
 */
module MirBody {
  import opened Options
  import opened Decimal
  import opened Quoting
  import opened MirTree
  import opened MirNodes
  import opened MirHeads
  import opened MirPrint

  // ----- right-hand sides -----------------------------------------------------------------------

  function AggregateNode(at: string, k: AggregateKind): Node {
    Node(at, AggregateHead(k), if k.AArray? then [TypeNode(at + ".element", k.element)] else [])
  }

  lemma {:induction false} AggregateClean(at: string, k: AggregateKind)
    requires OneLine(at)
    ensures Clean(AggregateNode(at, k))
  {
    AggregateNameClean(k);
    if k.AArray? {
      TypeClean(at + ".element", k.element);
    }
  }

  lemma {:induction false} AggregateDetermined(at: string, k: AggregateKind, l: AggregateKind)
    ensures Aligned(AggregateNode(at, k), AggregateNode(at, l))
    ensures AggregateNode(at, k) == AggregateNode(at, l) ==> k == l
  {
    if AggregateHead(k) == AggregateHead(l) {
      AggregateHeadDetermines(k, l);
      if k.AArray? {
        TypeDetermined(at + ".element", k.element, l.element);
      }
    }
  }

  /** The operator of a nullary operation; only the thread index prints its component. */
  function NullaryNode(at: string, op: NullaryOp): Node {
    Node(at + ".op", NullaryOpName(op),
         if op.ThreadIndex? then [Leaf(at + ".component", Dec(op.component))] else [])
  }

  /** What the text keeps of a nullary operation. */
  function EraseOp(op: NullaryOp): NullaryOp {
    match op
    case LocalInvocationId(_) => LocalInvocationId(0)
    case WorkgroupId(_) => WorkgroupId(0)
    case _ => op
  }

  lemma {:induction false} NullaryDetermined(at: string, op: NullaryOp, oq: NullaryOp)
    ensures Aligned(NullaryNode(at, op), NullaryNode(at, oq))
    ensures NullaryNode(at, op) == NullaryNode(at, oq) <==> EraseOp(op) == EraseOp(oq)
    ensures OneLine(at) ==> Clean(NullaryNode(at, op))
  {
    NullaryOpNames(op, oq);
    NullaryOpNameClean(op);
    if op.ThreadIndex? && oq.ThreadIndex? {
      NumberLeaf(at + ".component", op.component, oq.component);
    }
  }

  function RValueNode(at: string, r: RValue): Node { Node(at, RValueName(r), RValueKids(at, r)) }

  function RValueKids(at: string, r: RValue): seq<Node> {
    match r
    case Use(value) => [ValueNode(at + ".value", value)]
    case BinaryOp(op, left, right) =>
      [Leaf(at + ".op", BinOpName(op)), ValueNode(at + ".left", left), ValueNode(at + ".right", right)]
    case UnaryOp(op, operand) => [Leaf(at + ".op", UnaryOpName(op)), ValueNode(at + ".operand", operand)]
    case Ref(isMut, place) => [Leaf(at + ".is_mut", BoolName(isMut)), PlaceNode(at + ".place", place)]
    case AddressOf(isMut, place) => [Leaf(at + ".is_mut", BoolName(isMut)), PlaceNode(at + ".place", place)]
    case Cast(kind, value, ty) =>
      [Leaf(at + ".kind", CastKindName(kind)), ValueNode(at + ".value", value), TypeNode(at + ".type", ty)]
    case Aggregate(kind, operands) =>
      [AggregateNode(at + ".kind", kind), ValueList(at + ".operands", at + ".operand", operands)]
    case Repeat(value, count) => [Leaf(at + ".count", Dec(count)), ValueNode(at + ".value", value)]
    case Discriminant(place) => [PlaceNode(at + ".place", place)]
    case Len(place) => [PlaceNode(at + ".place", place)]
    case Nullary(op, ty) => [NullaryNode(at, op), TypeNode(at + ".type", ty)]
    case _ => AccessKids(at, r)
  }

  /** The lines of a read through a base, an index or a pointer, and of a texture sample. */
  function AccessKids(at: string, r: RValue): seq<Node>
    requires RValueKind(r) >= 11
  {
    match r
    case FieldAccess(base, field, ty) =>
      [ValueNode(at + ".base", base), Leaf(at + ".field", Quoted(field)), TypeNode(at + ".field_type", ty)]
    case VariantField(base, variant, index, ty) =>
      [ValueNode(at + ".base", base), Leaf(at + ".variant", VariantHead(variant, index)),
       TypeNode(at + ".field_type", ty)]
    case IndexAccess(base, index, ty) =>
      [ValueNode(at + ".base", base), ValueNode(at + ".index", index), TypeNode(at + ".element_type", ty)]
    case Deref(ptr, ty) => [ValueNode(at + ".ptr", ptr), TypeNode(at + ".pointee_type", ty)]
    case TextureSample(texture, sampler, coords) =>
      [ValueNode(at + ".texture", texture), ValueNode(at + ".sampler", sampler), ValueNode(at + ".coords", coords)]
  }

  function VariantHead(variant: string, index: nat): string {
    Quoted(variant) + (" field_index=" + Dec(index))
  }

  lemma {:induction false} VariantLeaf(at: string, v: string, i: nat, w: string, j: nat)
    ensures Aligned(Leaf(at, VariantHead(v, i)), Leaf(at, VariantHead(w, j)))
    ensures Leaf(at, VariantHead(v, i)) == Leaf(at, VariantHead(w, j)) ==> v == w && i == j
    ensures OneLine(at) ==> Clean(Leaf(at, VariantHead(v, i)))
  {
    if VariantHead(v, i) == VariantHead(w, j) {
      QuotedPrefixFree(v, " field_index=" + Dec(i), w, " field_index=" + Dec(j));
      Cancel(" field_index=", Dec(i), Dec(j));
      DecInjective(i, j);
    }
  }

  /** What the text keeps of a right-hand side. */
  function EraseRValue(r: RValue): RValue {
    match r
    case Nullary(op, ty) => Nullary(EraseOp(op), ty)
    case _ => r
  }

  predicate HasPlace(r: RValue) { r.Ref? || r.AddressOf? || r.Discriminant? || r.Len? }

  lemma {:induction false} BinaryClean(at: string, op: BinOp, left: Value, right: Value)
    requires OneLine(at)
    ensures AllClean([Leaf(at + ".op", BinOpName(op)), ValueNode(at + ".left", left), ValueNode(at + ".right", right)])
  {
    hide ValueNode, BinOpName, Clean, AllClean;
    BinOpNameClean(op);
    AnyLeaf(at + ".op", BinOpName(op), "");
    ValueClean(at + ".left", left);
    ValueClean(at + ".right", right);
    CleanThree(Leaf(at + ".op", BinOpName(op)), ValueNode(at + ".left", left), ValueNode(at + ".right", right));
  }

  lemma {:induction false} UnaryClean(at: string, op: UnaryOp, operand: Value)
    requires OneLine(at)
    ensures AllClean([Leaf(at + ".op", UnaryOpName(op)), ValueNode(at + ".operand", operand)])
  {
    hide ValueNode, UnaryOpName, Clean, AllClean;
    UnaryOpNameClean(op);
    AnyLeaf(at + ".op", UnaryOpName(op), "");
    ValueClean(at + ".operand", operand);
    CleanTwo(Leaf(at + ".op", UnaryOpName(op)), ValueNode(at + ".operand", operand));
  }

  lemma {:induction false} CastClean(at: string, kind: CastKind, value: Value, ty: Type)
    requires OneLine(at)
    ensures AllClean([Leaf(at + ".kind", CastKindName(kind)), ValueNode(at + ".value", value),
                      TypeNode(at + ".type", ty)])
  {
    hide ValueNode, TypeNode, CastKindName, Clean, AllClean;
    CastKindNameClean(kind);
    AnyLeaf(at + ".kind", CastKindName(kind), "");
    ValueClean(at + ".value", value);
    TypeClean(at + ".type", ty);
    CleanThree(Leaf(at + ".kind", CastKindName(kind)), ValueNode(at + ".value", value), TypeNode(at + ".type", ty));
  }

  lemma {:induction false} AggregatePartsClean(at: string, kind: AggregateKind, operands: seq<Value>)
    requires OneLine(at)
    ensures AllClean([AggregateNode(at + ".kind", kind), ValueList(at + ".operands", at + ".operand", operands)])
  {
    hide AggregateNode, ValueList, Clean, AllClean;
    AggregateClean(at + ".kind", kind);
    ValueListClean(at + ".operands", at + ".operand", operands);
    CleanTwo(AggregateNode(at + ".kind", kind), ValueList(at + ".operands", at + ".operand", operands));
  }

  lemma {:induction false} RepeatClean(at: string, value: Value, count: nat)
    requires OneLine(at)
    ensures AllClean([Leaf(at + ".count", Dec(count)), ValueNode(at + ".value", value)])
  {
    hide ValueNode, Dec, Clean, AllClean;
    NumberLeaf(at + ".count", count, count);
    ValueClean(at + ".value", value);
    CleanTwo(Leaf(at + ".count", Dec(count)), ValueNode(at + ".value", value));
  }

  lemma {:induction false} NullaryClean(at: string, op: NullaryOp, ty: Type)
    requires OneLine(at)
    ensures AllClean([NullaryNode(at, op), TypeNode(at + ".type", ty)])
  {
    hide NullaryNode, TypeNode, Clean, AllClean;
    NullaryDetermined(at, op, op);
    TypeClean(at + ".type", ty);
    CleanTwo(NullaryNode(at, op), TypeNode(at + ".type", ty));
  }

  lemma {:induction false} RValueKidsClean(at: string, r: RValue)
    requires OneLine(at) && !HasPlace(r)
    ensures AllClean(RValueKids(at, r))
  {
    hide ValueNode, TypeNode, PlaceNode, ValueList, AggregateNode, NullaryNode, AccessKids, AllClean;
    hide BinOpName, UnaryOpName, CastKindName;
    match r
    case Use(value) => UseClean(at, value);
    case BinaryOp(op, left, right) => BinaryClean(at, op, left, right);
    case UnaryOp(op, operand) => UnaryClean(at, op, operand);
    case Cast(kind, value, ty) => CastClean(at, kind, value, ty);
    case Aggregate(kind, operands) => AggregatePartsClean(at, kind, operands);
    case Repeat(value, count) => RepeatClean(at, value, count);
    case Nullary(op, ty) => NullaryClean(at, op, ty);
    case _ => RValueAccessClean(at, r);
  }

  lemma {:induction false} UseClean(at: string, value: Value)
    requires OneLine(at)
    ensures AllClean([ValueNode(at + ".value", value)])
  {
    ValueClean(at + ".value", value);
  }

  lemma {:induction false} FieldAccessClean(at: string, base: Value, leaf: Node, ty: Type)
    requires OneLine(at) && Clean(leaf)
    ensures AllClean([ValueNode(at + ".base", base), leaf, TypeNode(at + ".field_type", ty)])
  {
    hide ValueNode, TypeNode, Clean, AllClean;
    ValueClean(at + ".base", base);
    TypeClean(at + ".field_type", ty);
    CleanThree(ValueNode(at + ".base", base), leaf, TypeNode(at + ".field_type", ty));
  }

  lemma {:induction false} IndexAccessClean(at: string, base: Value, index: Value, ty: Type)
    requires OneLine(at)
    ensures AllClean([ValueNode(at + ".base", base), ValueNode(at + ".index", index),
                      TypeNode(at + ".element_type", ty)])
  {
    hide ValueNode, TypeNode, Clean, AllClean;
    ValueClean(at + ".base", base);
    ValueClean(at + ".index", index);
    TypeClean(at + ".element_type", ty);
    CleanThree(ValueNode(at + ".base", base), ValueNode(at + ".index", index), TypeNode(at + ".element_type", ty));
  }

  lemma {:induction false} DerefClean(at: string, ptr: Value, ty: Type)
    requires OneLine(at)
    ensures AllClean([ValueNode(at + ".ptr", ptr), TypeNode(at + ".pointee_type", ty)])
  {
    hide ValueNode, TypeNode, Clean, AllClean;
    ValueClean(at + ".ptr", ptr);
    TypeClean(at + ".pointee_type", ty);
    CleanTwo(ValueNode(at + ".ptr", ptr), TypeNode(at + ".pointee_type", ty));
  }

  lemma {:induction false} TextureClean(at: string, texture: Value, sampler: Value, coords: Value)
    requires OneLine(at)
    ensures AllClean([ValueNode(at + ".texture", texture), ValueNode(at + ".sampler", sampler),
                      ValueNode(at + ".coords", coords)])
  {
    hide ValueNode, Clean, AllClean;
    ValueClean(at + ".texture", texture);
    ValueClean(at + ".sampler", sampler);
    ValueClean(at + ".coords", coords);
    CleanThree(ValueNode(at + ".texture", texture), ValueNode(at + ".sampler", sampler),
               ValueNode(at + ".coords", coords));
  }

  lemma {:induction false} RValueAccessClean(at: string, r: RValue)
    requires OneLine(at) && RValueKind(r) >= 11
    ensures AllClean(AccessKids(at, r))
  {
    hide ValueNode, TypeNode, Clean, AllClean, Quoted, VariantHead;
    match r
    case FieldAccess(base, field, ty) =>
      QuotedLeaf(at + ".field", field, field);
      FieldAccessClean(at, base, Leaf(at + ".field", Quoted(field)), ty);
    case VariantField(base, variant, index, ty) =>
      VariantLeaf(at + ".variant", variant, index, variant, index);
      FieldAccessClean(at, base, Leaf(at + ".variant", VariantHead(variant, index)), ty);
    case IndexAccess(base, index, ty) => IndexAccessClean(at, base, index, ty);
    case Deref(ptr, ty) => DerefClean(at, ptr, ty);
    case TextureSample(texture, sampler, coords) => TextureClean(at, texture, sampler, coords);
  }

  lemma {:induction false} RValueClean(at: string, r: RValue)
    requires OneLine(at) && !HasPlace(r)
    ensures Clean(RValueNode(at, r))
  {
    RValueNameClean(r);
    RValueKidsClean(at, r);
  }

  /** Two right-hand sides print the same tree exactly when they differ in nothing but the
      unwritten components. */
  lemma {:induction false} RValueDetermined(at: string, r: RValue, q: RValue)
    ensures Aligned(RValueNode(at, r), RValueNode(at, q))
    ensures RValueNode(at, r) == RValueNode(at, q) <==> EraseRValue(r) == EraseRValue(q)
  {
    RValueNames(r, q);
    if RValueName(r) == RValueName(q) {
      RValueKidsDetermined(at, r, q);
    }
  }

  lemma {:induction false} RValueKidsDetermined(at: string, r: RValue, q: RValue)
    requires RValueKind(r) == RValueKind(q)
    ensures AllAligned(RValueKids(at, r), RValueKids(at, q))
    ensures RValueKids(at, r) == RValueKids(at, q) <==> EraseRValue(r) == EraseRValue(q)
  {
    hide ValueNode, TypeNode, PlaceNode, ValueList, AggregateNode, NullaryNode, AccessKids, Aligned;
    match r
    case Use(value) => ValueDetermined(at + ".value", value, q.value);
    case Aggregate(kind, operands) =>
      AggregateDetermined(at + ".kind", kind, q.akind);
      ValueListDetermined(at + ".operands", at + ".operand", operands, q.operands);
    case Repeat(value, count) =>
      NumberLeaf(at + ".count", count, q.count);
      ValueDetermined(at + ".value", value, q.value);
    case Nullary(op, ty) => NullaryDetermined(at, op, q.nop); TypeDetermined(at + ".type", ty, q.ty);
    case _ =>
      if RValueKind(r) >= 11 {
        RValueAccessDetermined(at, r, q);
      } else if r.BinaryOp? || r.UnaryOp? || r.Cast? {
        RValueOpDetermined(at, r, q);
      } else {
        RValuePlaceDetermined(at, r, q);
      }
  }

  lemma {:induction false} RValueOpDetermined(at: string, r: RValue, q: RValue)
    requires RValueKind(r) == RValueKind(q) && (r.BinaryOp? || r.UnaryOp? || r.Cast?)
    ensures AllAligned(RValueKids(at, r), RValueKids(at, q))
    ensures RValueKids(at, r) == RValueKids(at, q) <==> r == q
  {
    hide ValueNode, TypeNode, PlaceNode, ValueList, AggregateNode, NullaryNode, AccessKids, Aligned;
    hide BinOpName, UnaryOpName, CastKindName;
    match r
    case BinaryOp(op, left, right) =>
      BinOpNames(op, q.op);
      AnyLeaf(at + ".op", BinOpName(op), BinOpName(q.op));
      ValueDetermined(at + ".left", left, q.left);
      ValueDetermined(at + ".right", right, q.right);
    case UnaryOp(op, operand) =>
      UnaryOpNames(op, q.uop);
      AnyLeaf(at + ".op", UnaryOpName(op), UnaryOpName(q.uop));
      ValueDetermined(at + ".operand", operand, q.operand);
    case Cast(kind, value, ty) =>
      CastKindNames(kind, q.kind);
      AnyLeaf(at + ".kind", CastKindName(kind), CastKindName(q.kind));
      ValueDetermined(at + ".value", value, q.value);
      TypeDetermined(at + ".type", ty, q.ty);
  }

  lemma {:induction false} RValuePlaceDetermined(at: string, r: RValue, q: RValue)
    requires RValueKind(r) == RValueKind(q) && (r.Ref? || r.AddressOf? || r.Discriminant? || r.Len?)
    ensures AllAligned(RValueKids(at, r), RValueKids(at, q))
    ensures RValueKids(at, r) == RValueKids(at, q) <==> r == q
  {
    hide ValueNode, TypeNode, PlaceNode, ValueList, AggregateNode, NullaryNode, AccessKids, Aligned;
    PlaceDetermined(at + ".place", r.place, q.place);
    if r.Ref? || r.AddressOf? {
      BoolLeaf(at + ".is_mut", r.isMut, q.isMut);
    }
  }

  lemma {:induction false} RValueAccessDetermined(at: string, r: RValue, q: RValue)
    requires RValueKind(r) == RValueKind(q) && RValueKind(r) >= 11
    ensures AllAligned(AccessKids(at, r), AccessKids(at, q))
    ensures AccessKids(at, r) == AccessKids(at, q) <==> r == q
  {
    hide ValueNode, TypeNode, Aligned, Quoted, VariantHead;
    match r
    case IndexAccess(base, index, ty) =>
      ValueDetermined(at + ".base", base, q.base);
      ValueDetermined(at + ".index", index, q.index);
      TypeDetermined(at + ".element_type", ty, q.ty);
    case Deref(ptr, ty) =>
      ValueDetermined(at + ".ptr", ptr, q.ptr);
      TypeDetermined(at + ".pointee_type", ty, q.ty);
    case TextureSample(texture, sampler, coords) =>
      ValueDetermined(at + ".texture", texture, q.texture);
      ValueDetermined(at + ".sampler", sampler, q.sampler);
      ValueDetermined(at + ".coords", coords, q.coords);
    case _ => RValueFieldDetermined(at, r, q);
  }

  lemma {:induction false} RValueFieldDetermined(at: string, r: RValue, q: RValue)
    requires RValueKind(r) == RValueKind(q) && (r.FieldAccess? || r.VariantField?)
    ensures AllAligned(AccessKids(at, r), AccessKids(at, q))
    ensures AccessKids(at, r) == AccessKids(at, q) <==> r == q
  {
    hide ValueNode, TypeNode, Aligned, Quoted, VariantHead;
    ValueDetermined(at + ".base", r.base, q.base);
    TypeDetermined(at + ".field_type", r.ty, q.ty);
    match r
    case FieldAccess(_, field, _) => QuotedLeaf(at + ".field", field, q.field);
    case VariantField(_, variant, index, _) => VariantLeaf(at + ".variant", variant, index, q.variant, q.fieldIndex);
  }

  // ----- statements -----------------------------------------------------------------------------------

  function StmtNode(at: string, s: Stmt): Node { Node(at, StmtName(s), StmtKids(at, s)) }

  function StmtKids(at: string, s: Stmt): seq<Node> {
    match s
    case Assign(dest, value) => [Leaf(at + ".dest", Dec(dest)), RValueNode(at + ".value", value)]
    case DerefAssign(ptr, value) => [Leaf(at + ".ptr", Dec(ptr)), RValueNode(at + ".value", value)]
    case FieldDerefAssign(ptr, field, value) =>
      [Leaf(at + ".ptr", Dec(ptr)), Leaf(at + ".field", Quoted(field)), RValueNode(at + ".value", value)]
    case FieldAssign(base, field, value) =>
      [Leaf(at + ".base", Dec(base)), Leaf(at + ".field", Quoted(field)), RValueNode(at + ".value", value)]
    case GlobalStore(name, value) => [Leaf(at + ".global", Quoted(name)), RValueNode(at + ".value", value)]
    case IndexStore(base, index, ty, value) =>
      [ValueNode(at + ".base", base), ValueNode(at + ".index", index), TypeNode(at + ".elem_ty", ty),
       RValueNode(at + ".value", value)]
    case StorageLive(local) => [Leaf(at + ".local", Dec(local))]
    case StorageDead(local) => [Leaf(at + ".local", Dec(local))]
    case Nop => []
    case WorkgroupBarrier => []
  }

  function EraseStmt(s: Stmt): Stmt {
    match s
    case Assign(dest, value) => Assign(dest, EraseRValue(value))
    case DerefAssign(ptr, value) => DerefAssign(ptr, EraseRValue(value))
    case FieldDerefAssign(ptr, field, value) => FieldDerefAssign(ptr, field, EraseRValue(value))
    case FieldAssign(base, field, value) => FieldAssign(base, field, EraseRValue(value))
    case GlobalStore(name, value) => GlobalStore(name, EraseRValue(value))
    case IndexStore(base, index, ty, value) => IndexStore(base, index, ty, EraseRValue(value))
    case _ => s
  }

  predicate HasValue(s: Stmt) { !s.StorageLive? && !s.StorageDead? && !s.Nop? && !s.WorkgroupBarrier? }

  /** A statement's lines but those of its right-hand side, which come last. */
  function StmtFront(at: string, s: Stmt): seq<Node> {
    if HasValue(s) then StmtKids(at, s)[..|StmtKids(at, s)| - 1] else StmtKids(at, s)
  }

  lemma {:induction false} IndexStoreClean(at: string, base: Value, index: Value, ty: Type)
    requires OneLine(at)
    ensures Clean(ValueNode(at + ".base", base)) && Clean(ValueNode(at + ".index", index))
    ensures Clean(TypeNode(at + ".elem_ty", ty))
  {
    hide ValueNode, TypeNode, Clean;
    ValueClean(at + ".base", base);
    ValueClean(at + ".index", index);
    TypeClean(at + ".elem_ty", ty);
  }

  lemma {:induction false} OneBefore(a: Node, n: Node)
    ensures [a, n] == [a, n][..1] + [n] && (Clean(a) ==> AllClean([a, n][..1]))
  {
    hide Clean;
  }

  lemma {:induction false} TwoBefore(a: Node, b: Node, n: Node)
    ensures [a, b, n] == [a, b, n][..2] + [n] && (Clean(a) && Clean(b) ==> AllClean([a, b, n][..2]))
  {
    hide Clean;
  }

  lemma {:induction false} ThreeBefore(a: Node, b: Node, c: Node, n: Node)
    ensures [a, b, c, n] == [a, b, c, n][..3] + [n]
    ensures Clean(a) && Clean(b) && Clean(c) ==> AllClean([a, b, c, n][..3])
  {
    hide Clean;
  }

  lemma {:induction false} StmtFrontClean(at: string, s: Stmt)
    requires OneLine(at)
    ensures AllClean(StmtFront(at, s))
    ensures HasValue(s) ==> StmtKids(at, s) == StmtFront(at, s) + [RValueNode(at + ".value", s.value)]
  {
    hide ValueNode, TypeNode, RValueNode, Clean, AllClean, Quoted, Dec;
    match s
    case Assign(dest, value) =>
      NumberLeaf(at + ".dest", dest, dest);
      OneBefore(Leaf(at + ".dest", Dec(dest)), RValueNode(at + ".value", value));
    case DerefAssign(ptr, value) =>
      NumberLeaf(at + ".ptr", ptr, ptr);
      OneBefore(Leaf(at + ".ptr", Dec(ptr)), RValueNode(at + ".value", value));
    case FieldDerefAssign(ptr, field, value) =>
      NumberLeaf(at + ".ptr", ptr, ptr);
      QuotedLeaf(at + ".field", field, field);
      TwoBefore(Leaf(at + ".ptr", Dec(ptr)), Leaf(at + ".field", Quoted(field)), RValueNode(at + ".value", value));
    case FieldAssign(base, field, value) =>
      NumberLeaf(at + ".base", base, base);
      QuotedLeaf(at + ".field", field, field);
      TwoBefore(Leaf(at + ".base", Dec(base)), Leaf(at + ".field", Quoted(field)), RValueNode(at + ".value", value));
    case GlobalStore(name, value) =>
      QuotedLeaf(at + ".global", name, name);
      OneBefore(Leaf(at + ".global", Quoted(name)), RValueNode(at + ".value", value));
    case IndexStore(base, index, ty, value) =>
      IndexStoreClean(at, base, index, ty);
      ThreeBefore(ValueNode(at + ".base", base), ValueNode(at + ".index", index), TypeNode(at + ".elem_ty", ty),
                  RValueNode(at + ".value", value));
    case StorageLive(local) => NumberLeaf(at + ".local", local, local); OneClean(Leaf(at + ".local", Dec(local)));
    case StorageDead(local) => NumberLeaf(at + ".local", local, local); OneClean(Leaf(at + ".local", Dec(local)));
    case Nop => NothingClean();
    case WorkgroupBarrier => NothingClean();
  }

  lemma {:induction false} OneClean(a: Node)
    requires Clean(a)
    ensures AllClean([a])
  {
  }

  lemma {:induction false} SameStmtName(s: Stmt, t: Stmt)
    ensures StmtKind(s) == StmtKind(t) ==> StmtName(s) == StmtName(t)
  {
  }

  lemma {:induction false} ErasedStmtKind(s: Stmt)
    ensures StmtKind(EraseStmt(s)) == StmtKind(s)
  {
  }

  lemma {:induction false} StmtDetermined(at: string, s: Stmt, t: Stmt)
    ensures Aligned(StmtNode(at, s), StmtNode(at, t))
    ensures StmtNode(at, s) == StmtNode(at, t) <==> EraseStmt(s) == EraseStmt(t)
  {
    hide StmtKids, EraseStmt;
    StmtNames(s, t);
    ErasedStmtKind(s);
    ErasedStmtKind(t);
    SameStmtName(s, t);
    if StmtName(s) == StmtName(t) {
      StmtKidsDetermined(at, s, t);
    }
  }

  lemma {:induction false} StmtKidsDetermined(at: string, s: Stmt, t: Stmt)
    requires StmtKind(s) == StmtKind(t)
    ensures AllAligned(StmtKids(at, s), StmtKids(at, t))
    ensures StmtKids(at, s) == StmtKids(at, t) <==> EraseStmt(s) == EraseStmt(t)
  {
    hide ValueNode, TypeNode, PlaceNode, ValueList, RValueNode, Aligned, Quoted, EraseRValue;
    match s
    case Assign(dest, value) =>
      NumberLeaf(at + ".dest", dest, t.dest);
      RValueDetermined(at + ".value", value, t.value);
    case DerefAssign(ptr, value) =>
      NumberLeaf(at + ".ptr", ptr, t.ptr);
      RValueDetermined(at + ".value", value, t.value);
    case FieldDerefAssign(ptr, field, value) =>
      NumberLeaf(at + ".ptr", ptr, t.ptr);
      QuotedLeaf(at + ".field", field, t.field);
      RValueDetermined(at + ".value", value, t.value);
    case FieldAssign(base, field, value) =>
      NumberLeaf(at + ".base", base, t.base);
      QuotedLeaf(at + ".field", field, t.field);
      RValueDetermined(at + ".value", value, t.value);
    case GlobalStore(name, value) =>
      QuotedLeaf(at + ".global", name, t.name);
      RValueDetermined(at + ".value", value, t.value);
    case IndexStore(base, index, ty, value) =>
      ValueDetermined(at + ".base", base, t.target);
      ValueDetermined(at + ".index", index, t.index);
      TypeDetermined(at + ".elem_ty", ty, t.ty);
      RValueDetermined(at + ".value", value, t.value);
    case StorageLive(local) => NumberLeaf(at + ".local", local, t.local);
    case StorageDead(local) => NumberLeaf(at + ".local", local, t.local);
    case Nop =>
    case WorkgroupBarrier =>
  }

  // ----- terminators -------------------------------------------------------------------------------------

  function TerminatorNode(at: string, t: Terminator): Node {
    Node(at, TerminatorName(t), TerminatorKids(at, t))
  }

  /** A switch target: its constant's lines, then its block's line. */
  function TargetNodes(at: string, i: nat, ts: seq<Target>): (ns: seq<Node>)
    requires i <= |ts|
    ensures |ns| == 2 * (|ts| - i)
    decreases |ts| - i
  {
    if i == |ts| then []
    else
      [ConstNode(Indexed(at, i) + ".value", ts[i].constant), Leaf(Indexed(at, i) + ".block", Dec(ts[i].block))]
      + TargetNodes(at, i + 1, ts)
  }

  function TargetList(at: string, ts: seq<Target>): Node {
    Node(at + ".targets", Dec(|ts|), TargetNodes(at + ".target", 0, ts))
  }

  function ResultNode(at: string, v: Option<Value>): Node {
    match v case None => Leaf(at, "null") case Some(value) => ValueNode(at, value)
  }

  function TerminatorKids(at: string, t: Terminator): seq<Node> {
    match t
    case Goto(target) => [Leaf(at + ".target", Dec(target))]
    case If(cond, thenBlock, elseBlock) =>
      [ValueNode(at + ".cond", cond), Leaf(at + ".then", Dec(thenBlock)), Leaf(at + ".else", Dec(elseBlock))]
    case Switch(value, targets, default) =>
      [ValueNode(at + ".value", value), TargetList(at, targets), Leaf(at + ".default", Dec(default))]
    case Call(_, _, _, _, _) => CallKids(at, t)
    case Return(result) => [ResultNode(at + ".value", result)]
    case Drop(place, target, unwind) =>
      [PlaceNode(at + ".place", place), Leaf(at + ".target", Dec(target)),
       Leaf(at + ".unwind", OptionalNumber(unwind))]
    case Assert(_, _, _, _, _) => AssertKids(at, t)
    case _ => []
  }

  function CallKids(at: string, t: Terminator): seq<Node>
    requires t.Call?
  {
    [ValueNode(at + ".func", t.func), ValueList(at + ".args", at + ".arg", t.args),
     Leaf(at + ".dest", OptionalNumber(t.dest)), Leaf(at + ".target", OptionalNumber(t.next)),
     Leaf(at + ".unwind", OptionalNumber(t.unwind))]
  }

  function AssertKids(at: string, t: Terminator): seq<Node>
    requires t.Assert?
  {
    [ValueNode(at + ".cond", t.cond), Leaf(at + ".expected", BoolName(t.expected)),
     Leaf(at + ".msg", Quoted(t.msg)), Leaf(at + ".target", Dec(t.target)),
     Leaf(at + ".unwind", OptionalNumber(t.unwind))]
  }

  lemma {:induction false} TargetClean(at: string, t: Target, ns: seq<Node>)
    requires OneLine(at) && AllClean(ns)
    ensures AllClean([ConstNode(at + ".value", t.constant), Leaf(at + ".block", Dec(t.block))] + ns)
  {
    ConstClean(at + ".value", t.constant);
    NumberLeaf(at + ".block", t.block, t.block);
    hide ConstNode, Clean, Dec;
  }

  lemma {:induction false} NothingClean()
    ensures AllClean([])
  {
  }

  lemma {:induction false} TargetsClean(at: string, i: nat, ts: seq<Target>)
    requires OneLine(at) && i <= |ts|
    ensures AllClean(TargetNodes(at, i, ts))
    decreases |ts| - i
  {
    hide *;
    TargetStep(at, i, ts);
    NothingClean();
    if i < |ts| {
      TargetsClean(at, i + 1, ts);
      TargetClean(Indexed(at, i), ts[i], TargetNodes(at, i + 1, ts));
    }
  }

  lemma {:induction false} TargetsDetermined(at: string, i: nat, ts: seq<Target>, us: seq<Target>)
    requires |ts| == |us| && i <= |ts|
    ensures AllAligned(TargetNodes(at, i, ts), TargetNodes(at, i, us))
    ensures TargetNodes(at, i, ts) == TargetNodes(at, i, us) ==> forall k :: i <= k < |ts| ==> ts[k] == us[k]
    decreases |ts| - i
  {
    hide ConstNode, Aligned, AllAligned, Dec, Indexed, Leaf, TargetNodes;
    NothingAligned();
    TargetStep(at, i, ts);
    TargetStep(at, i, us);
    if i < |ts| {
      var x, y := Indexed(at, i) + ".value", Indexed(at, i) + ".block";
      ConstDetermined(x, ts[i].constant, us[i].constant);
      NumberLeaf(y, ts[i].block, us[i].block);
      TargetsDetermined(at, i + 1, ts, us);
      PairDetermines(ConstNode(x, ts[i].constant), Leaf(y, Dec(ts[i].block)), TargetNodes(at, i + 1, ts),
                     ConstNode(x, us[i].constant), Leaf(y, Dec(us[i].block)), TargetNodes(at, i + 1, us));
    }
  }

  lemma {:induction false} NothingAligned()
    ensures AllAligned([], [])
  {
  }

  lemma {:induction false} TargetStep(at: string, i: nat, ts: seq<Target>)
    requires i <= |ts|
    ensures TargetNodes(at, i, ts) == if i == |ts| then [] else
      [ConstNode(Indexed(at, i) + ".value", ts[i].constant), Leaf(Indexed(at, i) + ".block", Dec(ts[i].block))]
      + TargetNodes(at, i + 1, ts)
  {
  }

  lemma {:induction false} PairDetermines(a: Node, b: Node, ns: seq<Node>, c: Node, d: Node, ms: seq<Node>)
    requires Aligned(a, c) && Aligned(b, d) && AllAligned(ns, ms)
    ensures AllAligned([a, b] + ns, [c, d] + ms)
    ensures [a, b] + ns == [c, d] + ms ==> a == c && b == d && ns == ms
  {
    hide Aligned;
    var l, r := [a, b] + ns, [c, d] + ms;
    forall i | 0 <= i < |l|
      ensures Aligned(l[i], r[i])
    {
      assert i >= 2 ==> l[i] == ns[i - 2] && r[i] == ms[i - 2];
    }
    assert l[0] == a && l[1] == b && l[2..] == ns && r[0] == c && r[1] == d && r[2..] == ms;
  }

  lemma {:induction false} TargetListDetermined(at: string, ts: seq<Target>, us: seq<Target>)
    ensures Aligned(TargetList(at, ts), TargetList(at, us))
    ensures TargetList(at, ts) == TargetList(at, us) ==> ts == us
  {
    DecInjective(|ts|, |us|);
    if |ts| == |us| {
      TargetsDetermined(at + ".target", 0, ts, us);
    }
  }

  lemma {:induction false} ResultDetermined(at: string, v: Option<Value>, w: Option<Value>)
    ensures Aligned(ResultNode(at, v), ResultNode(at, w))
    ensures ResultNode(at, v) == ResultNode(at, w) ==> v == w
    ensures OneLine(at) ==> Clean(ResultNode(at, v))
  {
    if v.Some? {
      ValueHeadClean(v.value);
      if OneLine(at) {
        ValueClean(at, v.value);
      }
    }
    if w.Some? {
      ValueHeadClean(w.value);
    }
    if v.Some? && w.Some? {
      ValueDetermined(at, v.value, w.value);
    }
  }

  lemma {:induction false} TerminatorKidsClean(at: string, t: Terminator)
    requires OneLine(at) && !t.Drop?
    ensures AllClean(TerminatorKids(at, t))
  {
    hide ValueNode, PlaceNode, ValueList, TargetList, ResultNode;
    hide OptionalNumber, Quoted, Dec, Clean, CallKids, AssertKids;
    match t
    case Goto(target) => NumberLeaf(at + ".target", target, target);
    case If(cond, thenBlock, elseBlock) =>
      ValueClean(at + ".cond", cond);
      NumberLeaf(at + ".then", thenBlock, thenBlock);
      NumberLeaf(at + ".else", elseBlock, elseBlock);
    case Switch(value, targets, default) =>
      ValueClean(at + ".value", value);
      TargetListClean(at, targets);
      NumberLeaf(at + ".default", default, default);
    case Call(_, _, _, _, _) => CallClean(at, t);
    case Return(result) => ResultDetermined(at + ".value", result, result);
    case Assert(_, _, _, _, _) => AssertClean(at, t);
    case _ =>
  }

  lemma {:induction false} CallClean(at: string, t: Terminator)
    requires OneLine(at) && t.Call?
    ensures AllClean(CallKids(at, t))
  {
    hide ValueNode, ValueList, OptionalNumber, Clean, AllClean;
    var kids := CallKids(at, t);
    ValueClean(at + ".func", t.func);
    ValueListClean(at + ".args", at + ".arg", t.args);
    OptionLeaf(at + ".dest", t.dest, t.dest);
    OptionLeaf(at + ".target", t.next, t.next);
    OptionLeaf(at + ".unwind", t.unwind, t.unwind);
    CleanFive(kids[0], kids[1], kids[2], kids[3], kids[4]);
  }

  lemma {:induction false} AssertLeavesClean(at: string, t: Terminator)
    requires OneLine(at) && t.Assert?
    ensures Clean(Leaf(at + ".expected", BoolName(t.expected))) && Clean(Leaf(at + ".msg", Quoted(t.msg)))
  {
    hide Quoted, Clean;
    BoolLeaf(at + ".expected", t.expected, t.expected);
    QuotedLeaf(at + ".msg", t.msg, t.msg);
  }

  lemma {:induction false} AssertClean(at: string, t: Terminator)
    requires OneLine(at) && t.Assert?
    ensures AllClean(AssertKids(at, t))
  {
    hide ValueNode, OptionalNumber, Quoted, Dec, Clean, AllClean, BoolName;
    var kids := AssertKids(at, t);
    ValueClean(at + ".cond", t.cond);
    AssertLeavesClean(at, t);
    NumberLeaf(at + ".target", t.target, t.target);
    OptionLeaf(at + ".unwind", t.unwind, t.unwind);
    CleanFive(kids[0], kids[1], kids[2], kids[3], kids[4]);
  }

  lemma {:induction false} TargetListClean(at: string, ts: seq<Target>)
    requires OneLine(at)
    ensures Clean(TargetList(at, ts))
  {
    TargetsClean(at + ".target", 0, ts);
  }

  lemma {:induction false} TerminatorDetermined(at: string, t: Terminator, u: Terminator)
    ensures Aligned(TerminatorNode(at, t), TerminatorNode(at, u))
    ensures TerminatorNode(at, t) == TerminatorNode(at, u) ==> t == u
  {
    TerminatorNames(t, u);
    if TerminatorName(t) == TerminatorName(u) {
      TerminatorKidsDetermined(at, t, u);
    }
  }

  lemma {:induction false} TerminatorKidsDetermined(at: string, t: Terminator, u: Terminator)
    requires TerminatorKind(t) == TerminatorKind(u)
    ensures AllAligned(TerminatorKids(at, t), TerminatorKids(at, u))
    ensures TerminatorKids(at, t) == TerminatorKids(at, u) ==> t == u
  {
    hide ValueNode, TypeNode, PlaceNode, ValueList, ResultNode;
    hide TargetList, Aligned, Quoted, OptionalNumber, CallKids, AssertKids;
    match t
    case Goto(target) => NumberLeaf(at + ".target", target, u.target);
    case If(cond, a, b) =>
      ValueDetermined(at + ".cond", cond, u.cond);
      NumberLeaf(at + ".then", a, u.thenBlock);
      NumberLeaf(at + ".else", b, u.elseBlock);
    case Switch(value, targets, default) =>
      ValueDetermined(at + ".value", value, u.value);
      TargetListDetermined(at, targets, u.targets);
      NumberLeaf(at + ".default", default, u.default);
    case Call(func, args, dest, next, unwind) => CallDetermined(at, t, u);
    case Return(result) => ResultDetermined(at + ".value", result, u.result);
    case Drop(place, target, unwind) =>
      PlaceDetermined(at + ".place", place, u.place);
      NumberLeaf(at + ".target", target, u.target);
      OptionLeaf(at + ".unwind", unwind, u.unwind);
    case Assert(cond, expected, msg, target, unwind) => AssertDetermined(at, t, u);
    case _ =>
  }

  lemma {:induction false} CallDetermined(at: string, t: Terminator, u: Terminator)
    requires t.Call? && u.Call?
    ensures AllAligned(CallKids(at, t), CallKids(at, u))
    ensures CallKids(at, t) == CallKids(at, u) ==> t == u
  {
    hide ValueNode, TypeNode, PlaceNode, ValueList, Aligned, OptionalNumber;
    ValueDetermined(at + ".func", t.func, u.func);
    ValueListDetermined(at + ".args", at + ".arg", t.args, u.args);
    OptionLeaf(at + ".dest", t.dest, u.dest);
    OptionLeaf(at + ".target", t.next, u.next);
    OptionLeaf(at + ".unwind", t.unwind, u.unwind);
  }

  lemma {:induction false} AssertDetermined(at: string, t: Terminator, u: Terminator)
    requires t.Assert? && u.Assert?
    ensures AllAligned(AssertKids(at, t), AssertKids(at, u))
    ensures AssertKids(at, t) == AssertKids(at, u) ==> t == u
  {
    hide ValueNode, TypeNode, PlaceNode, ValueList, Aligned, OptionalNumber, Quoted;
    ValueDetermined(at + ".cond", t.cond, u.cond);
    BoolLeaf(at + ".expected", t.expected, u.expected);
    QuotedLeaf(at + ".msg", t.msg, u.msg);
    NumberLeaf(at + ".target", t.target, u.target);
    OptionLeaf(at + ".unwind", t.unwind, u.unwind);
  }
}
