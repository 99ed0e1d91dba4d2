/**
 The first line of every kind of MIR node, after its label, and the trees of lines the writer
 prints under a label. A head tells the node's constructor and its scalar fields. The names of one
 table are told apart by length and three of their characters, so that no table needs a
 comparison of every name with every other.
 */
module MirHeads {
  import opened Options
  import opened Decimal
  import opened Quoting
  import opened MirTree
  import opened MirNodes

  // ----- name tables --------------------------------------------------------------------------

  function IntSizeName(s: IntSize): string {
    match s
    case I8 => "I8" case I16 => "I16" case I32 => "I32" case I64 => "I64" case I128 => "I128"
    case ISize => "ISize"
  }

  function FloatSizeName(s: FloatSize): string {
    match s case F32 => "F32" case F64 => "F64"
  }

  function ConvName(c: CallingConv): string {
    match c case CCBuild => "Build" case CCC => "C" case CCFast => "Fast" case CCCold => "Cold"
  }

  function BinOpName(op: BinOp): string {
    match op
    case Add => "Add" case Sub => "Sub" case Mul => "Mul" case Div => "Div" case Rem => "Rem"
    case Pow => "Pow" case BitAnd => "BitAnd" case BitOr => "BitOr" case BitXor => "BitXor"
    case Shl => "Shl" case Shr => "Shr" case Eq => "Eq" case Ne => "Ne" case Lt => "Lt"
    case Le => "Le" case Gt => "Gt" case Ge => "Ge"
    case AddChecked => "AddChecked" case SubChecked => "SubChecked" case MulChecked => "MulChecked"
    case AddWrapping => "AddWrapping" case SubWrapping => "SubWrapping" case MulWrapping => "MulWrapping"
    case AddSaturating => "AddSaturating" case SubSaturating => "SubSaturating"
    case MulSaturating => "MulSaturating"
  }

  function UnaryOpName(op: UnaryOp): string {
    match op case Not => "Not" case BitNot => "BitNot" case Neg => "Neg"
  }

  function CastKindName(k: CastKind): string {
    match k
    case IntToInt => "IntToInt" case FloatToFloat => "FloatToFloat" case IntToFloat => "IntToFloat"
    case FloatToInt => "FloatToInt" case PtrToInt => "PtrToInt" case IntToPtr => "IntToPtr"
    case PtrToPtr => "PtrToPtr" case FnToPtr => "FnToPtr" case Transmute => "Transmute"
  }

  function NullaryOpName(op: NullaryOp): string {
    match op
    case SizeOf => "SizeOf" case AlignOf => "AlignOf" case ThreadIndex(_) => "ThreadIndex"
    case LocalInvocationId(_) => "LocalInvocationId" case WorkgroupId(_) => "WorkgroupId"
  }

  function TypeName(t: Type): string {
    match t
    case Void => "Void" case TBool => "Bool" case TInt(_, _) => "Int" case TFloat(_) => "Float"
    case Ptr(_) => "Ptr" case TArray(_, _) => "Array" case Slice(_) => "Slice"
    case TOption(_) => "Option" case TStruct(_) => "Struct" case FnPtr(_) => "FnPtr"
    case Never => "Never" case Vector(_, _) => "Vector" case Texture2D(_) => "Texture2D"
    case Sampler => "Sampler" case SampledImage(_) => "SampledImage"
    case TraitObject(_) => "TraitObject" case TVec(_) => "Vec" case TMap(_, _) => "Map"
    case TTuple(_) => "Tuple"
  }

  function ConstName(c: Const): string {
    match c
    case CBool(_) => "Bool" case CInt(_, _) => "Int" case CUint(_, _) => "Uint"
    case CFloat(_, _) => "Float" case CStr(_) => "Str" case CByteStr(_) => "ByteStr"
    case CNull(_) => "Null" case CUnit => "Unit" case CZeroed(_) => "Zeroed"
    case CUndef(_) => "Undef" case CStruct(_, _) => "Struct"
  }

  function ValueName(v: Value): string {
    match v
    case Local(_) => "Local" case VConst(_) => "Const" case Global(_) => "Global"
    case Function(_) => "Function"
  }

  function ProjectionName(p: Projection): string {
    match p
    case PDeref => "Deref" case PField(_, _, _) => "Field" case PIndex(_) => "Index"
    case ConstantIndex(_, _) => "ConstantIndex" case Subslice(_, _, _) => "Subslice"
    case Downcast(_) => "Downcast"
  }

  function AggregateName(k: AggregateKind): string {
    match k
    case AArray(_) => "Array" case ATuple => "Tuple" case AStruct(_) => "Struct"
    case AVariant(_, _, _) => "Variant" case AClosure(_) => "Closure"
  }

  function RValueName(r: RValue): string {
    match r
    case Use(_) => "Use" case BinaryOp(_, _, _) => "BinaryOp" case UnaryOp(_, _) => "UnaryOp"
    case Ref(_, _) => "Ref" case AddressOf(_, _) => "AddressOf" case Cast(_, _, _) => "Cast"
    case Aggregate(_, _) => "Aggregate" case Repeat(_, _) => "Repeat"
    case Discriminant(_) => "Discriminant" case Len(_) => "Len" case Nullary(_, _) => "NullaryOp"
    case FieldAccess(_, _, _) => "FieldAccess" case VariantField(_, _, _, _) => "VariantField"
    case IndexAccess(_, _, _) => "IndexAccess" case Deref(_, _) => "Deref"
    case TextureSample(_, _, _) => "TextureSample"
  }

  function StmtName(s: Stmt): string {
    match s
    case Assign(_, _) => "Assign" case DerefAssign(_, _) => "DerefAssign"
    case FieldDerefAssign(_, _, _) => "FieldDerefAssign" case FieldAssign(_, _, _) => "FieldAssign"
    case GlobalStore(_, _) => "GlobalStore" case IndexStore(_, _, _, _) => "IndexStore"
    case StorageLive(_) => "StorageLive" case StorageDead(_) => "StorageDead" case Nop => "Nop"
    case WorkgroupBarrier => "WorkgroupBarrier"
  }

  function TerminatorName(t: Terminator): string {
    match t
    case Goto(_) => "Goto" case If(_, _, _) => "If" case Switch(_, _, _) => "Switch"
    case Call(_, _, _, _, _) => "Call" case Return(_) => "Return" case Unreachable => "Unreachable"
    case Drop(_, _, _) => "Drop" case Assert(_, _, _, _, _) => "Assert" case Resume => "Resume"
    case Abort => "Abort"
  }

  // ----- each table names its entries apart -----------------------------------------------------

  lemma {:induction false} IntSizeNames(a: IntSize, b: IntSize)
    ensures IntSizeName(a) == IntSizeName(b) ==> a == b
  {
    assert Mark(IntSizeName(a)) == Mark(IntSizeName(b)) ==> a == b;
  }

  lemma {:induction false} IntSizeNameClean(a: IntSize)
    ensures NoSpace(IntSizeName(a)) && OneLine(IntSizeName(a))
  {
  }

  lemma {:induction false} FloatSizeNames(a: FloatSize, b: FloatSize)
    ensures FloatSizeName(a) == FloatSizeName(b) ==> a == b
  {
    assert Mark(FloatSizeName(a)) == Mark(FloatSizeName(b)) ==> a == b;
  }

  lemma {:induction false} FloatSizeNameClean(a: FloatSize)
    ensures NoSpace(FloatSizeName(a)) && OneLine(FloatSizeName(a))
  {
  }

  lemma {:induction false} ConvNames(a: CallingConv, b: CallingConv)
    ensures ConvName(a) == ConvName(b) ==> a == b
  {
    assert Mark(ConvName(a)) == Mark(ConvName(b)) ==> a == b;
  }

  lemma {:induction false} ConvNameClean(a: CallingConv)
    ensures NoSpace(ConvName(a)) && OneLine(ConvName(a))
  {
  }

  /** The mark of each operator's name. */
  function BinOpMark(op: BinOp): (int, char, char, char) {
    match op
    case Add => (3, 'A', 'd', 'd') case Sub => (3, 'S', 'u', 'b') case Mul => (3, 'M', 'u', 'l')
    case Div => (3, 'D', 'i', 'v') case Rem => (3, 'R', 'e', 'm') case Pow => (3, 'P', 'o', 'w')
    case BitAnd => (6, 'B', 'A', 'd') case BitOr => (5, 'B', 't', 'r') case BitXor => (6, 'B', 'X', 'r')
    case Shl => (3, 'S', 'h', 'l') case Shr => (3, 'S', 'h', 'r') case Eq => (2, 'E', 'q', 'q')
    case Ne => (2, 'N', 'e', 'e') case Lt => (2, 'L', 't', 't') case Le => (2, 'L', 'e', 'e')
    case Gt => (2, 'G', 't', 't') case Ge => (2, 'G', 'e', 'e')
    case AddChecked => (10, 'A', 'e', 'd') case SubChecked => (10, 'S', 'e', 'd')
    case MulChecked => (10, 'M', 'e', 'd') case AddWrapping => (11, 'A', 'a', 'g')
    case SubWrapping => (11, 'S', 'a', 'g') case MulWrapping => (11, 'M', 'a', 'g')
    case AddSaturating => (13, 'A', 'u', 'g') case SubSaturating => (13, 'S', 'u', 'g')
    case MulSaturating => (13, 'M', 'u', 'g')
  }

  lemma {:induction false} BinOpMarks(op: BinOp)
    ensures BinOpName(op) != "" && Mark(BinOpName(op)) == BinOpMark(op)
  {
  }

  lemma {:induction false} BinOpNames(a: BinOp, b: BinOp)
    ensures BinOpName(a) == BinOpName(b) ==> a == b
  {
    BinOpMarks(a);
    BinOpMarks(b);
    hide BinOpName, Mark;
  }

  lemma {:induction false} BinOpNameClean(a: BinOp)
    ensures OneLine(BinOpName(a)) && !FieldHead(BinOpName(a))
  {
  }

  lemma {:induction false} UnaryOpNames(a: UnaryOp, b: UnaryOp)
    ensures UnaryOpName(a) == UnaryOpName(b) ==> a == b
  {
    assert Mark(UnaryOpName(a)) == Mark(UnaryOpName(b)) ==> a == b;
  }

  lemma {:induction false} UnaryOpNameClean(a: UnaryOp)
    ensures OneLine(UnaryOpName(a)) && !FieldHead(UnaryOpName(a))
  {
  }

  lemma {:induction false} CastKindNames(a: CastKind, b: CastKind)
    ensures CastKindName(a) == CastKindName(b) ==> a == b
  {
    assert Mark(CastKindName(a)) == Mark(CastKindName(b)) ==> a == b;
  }

  lemma {:induction false} CastKindNameClean(a: CastKind)
    ensures OneLine(CastKindName(a)) && !FieldHead(CastKindName(a))
  {
  }

  function TypeKind(t: Type): nat {
    match t
    case Void => 0 case TBool => 1 case TInt(_, _) => 2 case TFloat(_) => 3 case Ptr(_) => 4
    case TArray(_, _) => 5 case Slice(_) => 6 case TOption(_) => 7 case TStruct(_) => 8
    case FnPtr(_) => 9 case Never => 10 case Vector(_, _) => 11 case Texture2D(_) => 12
    case Sampler => 13 case SampledImage(_) => 14 case TraitObject(_) => 15 case TVec(_) => 16
    case TMap(_, _) => 17 case TTuple(_) => 18
  }

  /** The mark of each kind's name. */
  function TypeNameMark(t: Type): (int, char, char, char) {
    match t
    case Void => (4, 'V', 'i', 'd') case TBool => (4, 'B', 'o', 'l') case TInt(_, _) => (3, 'I', 'n', 't')
    case TFloat(_) => (5, 'F', 'o', 't') case Ptr(_) => (3, 'P', 't', 'r') case TArray(_, _) => (5, 'A', 'r', 'y')
    case Slice(_) => (5, 'S', 'i', 'e') case TOption(_) => (6, 'O', 'i', 'n') case TStruct(_) => (6, 'S', 'u', 't')
    case FnPtr(_) => (5, 'F', 'P', 'r') case Never => (5, 'N', 'v', 'r') case Vector(_, _) => (6, 'V', 't', 'r')
    case Texture2D(_) => (9, 'T', 'u', 'D') case Sampler => (7, 'S', 'p', 'r')
    case SampledImage(_) => (12, 'S', 'd', 'e') case TraitObject(_) => (11, 'T', 'O', 't')
    case TVec(_) => (3, 'V', 'e', 'c') case TMap(_, _) => (3, 'M', 'a', 'p') case TTuple(_) => (5, 'T', 'p', 'e')
  }

  lemma {:induction false} TypeMarks(t: Type)
    ensures TypeName(t) != "" && Mark(TypeName(t)) == TypeNameMark(t)
  {
  }

  lemma {:induction false} TypeNames(a: Type, b: Type)
    ensures TypeName(a) == TypeName(b) ==> TypeKind(a) == TypeKind(b)
  {
    TypeMarks(a);
    TypeMarks(b);
    hide TypeName, Mark;
  }

  lemma {:induction false} TypeNameStart(a: Type)
    ensures |TypeName(a)| > 1 && TypeName(a)[1] != 'i'
  {
  }

  lemma {:induction false} TypeNameWord(a: Type)
    ensures NoSpace(TypeName(a))
  {
  }

  lemma {:induction false} TypeNameClean(a: Type)
    ensures NoSpace(TypeName(a)) && OneLine(TypeName(a))
  {
    TypeNameWord(a);
    hide NoSpace;
  }

  function RValueKind(r: RValue): nat {
    match r
    case Use(_) => 0 case BinaryOp(_, _, _) => 1 case UnaryOp(_, _) => 2 case Ref(_, _) => 3
    case AddressOf(_, _) => 4 case Cast(_, _, _) => 5 case Aggregate(_, _) => 6
    case Repeat(_, _) => 7 case Discriminant(_) => 8 case Len(_) => 9 case Nullary(_, _) => 10
    case FieldAccess(_, _, _) => 11 case VariantField(_, _, _, _) => 12
    case IndexAccess(_, _, _) => 13 case Deref(_, _) => 14 case TextureSample(_, _, _) => 15
  }

  /** The mark of each kind's name. */
  function RValueMark(r: RValue): (int, char, char, char) {
    match r
    case Use(_) => (3, 'U', 's', 'e') case BinaryOp(_, _, _) => (8, 'B', 'r', 'p')
    case UnaryOp(_, _) => (7, 'U', 'r', 'p') case Ref(_, _) => (3, 'R', 'e', 'f')
    case AddressOf(_, _) => (9, 'A', 'e', 'f') case Cast(_, _, _) => (4, 'C', 's', 't')
    case Aggregate(_, _) => (9, 'A', 'e', 'e') case Repeat(_, _) => (6, 'R', 'e', 't')
    case Discriminant(_) => (12, 'D', 'm', 't') case Len(_) => (3, 'L', 'e', 'n')
    case Nullary(_, _) => (9, 'N', 'a', 'p') case FieldAccess(_, _, _) => (11, 'F', 'A', 's')
    case VariantField(_, _, _, _) => (12, 'V', 't', 'd') case IndexAccess(_, _, _) => (11, 'I', 'A', 's')
    case Deref(_, _) => (5, 'D', 'r', 'f') case TextureSample(_, _, _) => (13, 'T', 'e', 'e')
  }

  lemma {:induction false} RValueMarks(r: RValue)
    ensures RValueName(r) != "" && Mark(RValueName(r)) == RValueMark(r)
  {
  }

  lemma {:induction false} RValueNames(a: RValue, b: RValue)
    ensures RValueName(a) == RValueName(b) ==> RValueKind(a) == RValueKind(b)
  {
    RValueMarks(a);
    RValueMarks(b);
    hide RValueName, Mark;
  }

  lemma {:induction false} RValueNameClean(a: RValue)
    ensures OneLine(RValueName(a)) && !FieldHead(RValueName(a))
  {
  }

  function NullaryOpKind(x: NullaryOp): nat {
    match x
    case SizeOf => 0 case AlignOf => 1 case ThreadIndex(_) => 2
    case LocalInvocationId(_) => 3 case WorkgroupId(_) => 4
  }

  lemma {:induction false} NullaryOpNames(a: NullaryOp, b: NullaryOp)
    ensures NullaryOpName(a) == NullaryOpName(b) ==> NullaryOpKind(a) == NullaryOpKind(b)
  {
    assert Mark(NullaryOpName(a)) == Mark(NullaryOpName(b)) ==> NullaryOpKind(a) == NullaryOpKind(b);
  }

  lemma {:induction false} NullaryOpNameClean(a: NullaryOp)
    ensures OneLine(NullaryOpName(a)) && !FieldHead(NullaryOpName(a))
  {
  }

  function ConstKind(x: Const): nat {
    match x
    case CBool(_) => 0 case CInt(_, _) => 1 case CUint(_, _) => 2 case CFloat(_, _) => 3
    case CStr(_) => 4 case CByteStr(_) => 5 case CNull(_) => 6 case CUnit => 7
    case CZeroed(_) => 8 case CUndef(_) => 9 case CStruct(_, _) => 10
  }

  lemma {:induction false} ConstNames(a: Const, b: Const)
    ensures ConstName(a) == ConstName(b) ==> ConstKind(a) == ConstKind(b)
  {
    assert Mark(ConstName(a)) == Mark(ConstName(b)) ==> ConstKind(a) == ConstKind(b);
  }

  lemma {:induction false} ConstNameClean(a: Const)
    ensures NoSpace(ConstName(a)) && OneLine(ConstName(a))
    ensures |ConstName(a)| > 2 && ConstName(a)[2] != 'e'
  {
  }

  function ValueKind(x: Value): nat {
    match x
    case Local(_) => 0 case VConst(_) => 1 case Global(_) => 2 case Function(_) => 3
  }

  lemma {:induction false} ValueNames(a: Value, b: Value)
    ensures ValueName(a) == ValueName(b) ==> ValueKind(a) == ValueKind(b)
  {
    assert Mark(ValueName(a)) == Mark(ValueName(b)) ==> ValueKind(a) == ValueKind(b);
  }

  lemma {:induction false} ValueNameClean(a: Value)
    ensures NoSpace(ValueName(a)) && OneLine(ValueName(a))
    ensures |ValueName(a)| > 1 && ValueName(a)[1] != 'i'
  {
  }

  function ProjectionKind(x: Projection): nat {
    match x
    case PDeref => 0 case PField(_, _, _) => 1 case PIndex(_) => 2
    case ConstantIndex(_, _) => 3 case Subslice(_, _, _) => 4 case Downcast(_) => 5
  }

  lemma {:induction false} ProjectionNames(a: Projection, b: Projection)
    ensures ProjectionName(a) == ProjectionName(b) ==> ProjectionKind(a) == ProjectionKind(b)
  {
    assert Mark(ProjectionName(a)) == Mark(ProjectionName(b)) ==> ProjectionKind(a) == ProjectionKind(b);
  }

  lemma {:induction false} ProjectionNameClean(a: Projection)
    ensures NoSpace(ProjectionName(a)) && OneLine(ProjectionName(a))
  {
  }

  function AggregateKind(x: AggregateKind): nat {
    match x
    case AArray(_) => 0 case ATuple => 1 case AStruct(_) => 2 case AVariant(_, _, _) => 3
    case AClosure(_) => 4
  }

  lemma {:induction false} AggregateNames(a: AggregateKind, b: AggregateKind)
    ensures AggregateName(a) == AggregateName(b) ==> AggregateKind(a) == AggregateKind(b)
  {
    assert Mark(AggregateName(a)) == Mark(AggregateName(b)) ==> AggregateKind(a) == AggregateKind(b);
  }

  lemma {:induction false} AggregateNameClean(a: AggregateKind)
    ensures NoSpace(AggregateName(a)) && OneLine(AggregateName(a))
    ensures |AggregateName(a)| > 1 && AggregateName(a)[1] != 'i'
  {
  }

  function StmtKind(x: Stmt): nat {
    match x
    case Assign(_, _) => 0 case DerefAssign(_, _) => 1 case FieldDerefAssign(_, _, _) => 2
    case FieldAssign(_, _, _) => 3 case GlobalStore(_, _) => 4
    case IndexStore(_, _, _, _) => 5 case StorageLive(_) => 6 case StorageDead(_) => 7
    case Nop => 8 case WorkgroupBarrier => 9
  }

  lemma {:induction false} StmtNames(a: Stmt, b: Stmt)
    ensures StmtName(a) == StmtName(b) ==> StmtKind(a) == StmtKind(b)
  {
    assert Mark(StmtName(a)) == Mark(StmtName(b)) ==> StmtKind(a) == StmtKind(b);
  }

  lemma {:induction false} StmtNameClean(a: Stmt)
    ensures OneLine(StmtName(a)) && !FieldHead(StmtName(a))
  {
  }

  function TerminatorKind(x: Terminator): nat {
    match x
    case Goto(_) => 0 case If(_, _, _) => 1 case Switch(_, _, _) => 2
    case Call(_, _, _, _, _) => 3 case Return(_) => 4 case Unreachable => 5
    case Drop(_, _, _) => 6 case Assert(_, _, _, _, _) => 7 case Resume => 8 case Abort => 9
  }

  lemma {:induction false} TerminatorNames(a: Terminator, b: Terminator)
    ensures TerminatorName(a) == TerminatorName(b) ==> TerminatorKind(a) == TerminatorKind(b)
  {
    assert Mark(TerminatorName(a)) == Mark(TerminatorName(b)) ==> TerminatorKind(a) == TerminatorKind(b);
  }

  lemma {:induction false} TerminatorNameClean(a: Terminator)
    ensures OneLine(TerminatorName(a)) && !FieldHead(TerminatorName(a))
  {
  }

  // ----- heads ------------------------------------------------------------------------------------

  function OptionalNumber(o: Option<nat>): string {
    match o case None => "null" case Some(n) => Dec(n)
  }

  lemma {:induction false} OptionalNumbers(a: Option<nat>, b: Option<nat>)
    ensures OptionalNumber(a) == OptionalNumber(b) ==> a == b
    ensures OneLine(OptionalNumber(a)) && !FieldHead(OptionalNumber(a))
  {
    assert a.Some? ==> IsDigit(OptionalNumber(a)[0]);
    assert b.Some? ==> IsDigit(OptionalNumber(b)[0]);
    if a.Some? && b.Some? {
      DecInjective(a.value, b.value);
    }
  }

  /** What a type's line says after its name. */
  function TypeRest(t: Type): (s: string)
    ensures Ends(s) && OneLine(s)
  {
    match t
    case TInt(size, signed) =>
      IntSizeNameClean(size);
      " size=" + (IntSizeName(size) + (" signed=" + BoolName(signed)))
    case TFloat(size) => FloatSizeNameClean(size); " size=" + FloatSizeName(size)
    case TArray(_, count) => " count=" + Dec(count)
    case TStruct(name) => " " + Quoted(name)
    case Vector(_, lanes) => " lanes=" + Dec(lanes)
    case TraitObject(name) => " " + Quoted(name)
    case TTuple(elements) => " " + Dec(|elements|)
    case _ => ""
  }

  function TypeHead(t: Type): string { TypeName(t) + TypeRest(t) }

  /** The same constructor with the same scalar fields. */
  ghost predicate SameTypeTop(t: Type, u: Type) {
    match t
    case TInt(size, signed) => u.TInt? && u.size == size && u.signed == signed
    case TFloat(size) => u.TFloat? && u.fsize == size
    case TArray(_, count) => u.TArray? && u.count == count
    case TStruct(name) => u.TStruct? && u.name == name
    case Vector(_, lanes) => u.Vector? && u.lanes == lanes
    case TraitObject(name) => u.TraitObject? && u.name == name
    case TTuple(elements) => u.TTuple? && |u.elements| == |elements|
    case _ => TypeKind(t) == TypeKind(u)
  }

  lemma {:induction false} TypeHeadParts(t: Type, u: Type)
    requires TypeHead(t) == TypeHead(u)
    ensures TypeKind(t) == TypeKind(u) && TypeRest(t) == TypeRest(u)
  {
    TypeNameClean(t);
    TypeNameClean(u);
    FirstWord(TypeName(t), TypeRest(t), TypeName(u), TypeRest(u));
    TypeNames(t, u);
  }

  lemma {:induction false} IntRest(a: IntSize, x: bool, b: IntSize, y: bool)
    requires TypeRest(TInt(a, x)) == TypeRest(TInt(b, y))
    ensures a == b && x == y
  {
    var p, q := " signed=" + BoolName(x), " signed=" + BoolName(y);
    Cancel(" size=", IntSizeName(a) + p, IntSizeName(b) + q);
    IntSizeNameClean(a);
    IntSizeNameClean(b);
    FirstWord(IntSizeName(a), p, IntSizeName(b), q);
    IntSizeNames(a, b);
    Cancel(" signed=", BoolName(x), BoolName(y));
  }

  /** A type's line tells its constructor and scalar fields. */
  lemma {:induction false} TypeHeadDetermines(t: Type, u: Type)
    requires TypeHead(t) == TypeHead(u)
    ensures SameTypeTop(t, u)
  {
    TypeHeadParts(t, u);
    match t
    case TInt(size, signed) => IntRest(size, signed, u.size, u.signed);
    case TFloat(size) =>
      Cancel(" size=", FloatSizeName(size), FloatSizeName(u.fsize));
      FloatSizeNames(size, u.fsize);
    case TArray(_, count) => Cancel(" count=", Dec(count), Dec(u.count)); DecInjective(count, u.count);
    case TStruct(name) => Cancel(" ", Quoted(name), Quoted(u.name)); QuotedInjective(name, u.name);
    case Vector(_, lanes) => Cancel(" lanes=", Dec(lanes), Dec(u.lanes)); DecInjective(lanes, u.lanes);
    case TraitObject(name) => Cancel(" ", Quoted(name), Quoted(u.name)); QuotedInjective(name, u.name);
    case TTuple(es) => Cancel(" ", Dec(|es|), Dec(|u.elements|)); DecInjective(|es|, |u.elements|);
    case _ =>
  }

  lemma {:induction false} TypeHeadClean(t: Type)
    ensures OneLine(TypeHead(t)) && !FieldHead(TypeHead(t))
  {
    TypeNameClean(t);
    TypeNameStart(t);
    hide TypeName, TypeRest;
  }

  function ConstRest(c: Const): (s: string)
    ensures Ends(s) && OneLine(s)
  {
    match c
    case CBool(flag) => " " + BoolName(flag)
    case CInt(number, _) => DecIntIsWord(number); " " + DecInt(number)
    case CUint(unsigned, _) => " " + Dec(unsigned)
    case CFloat(bits, _) => " bits=" + Dec(bits)
    case CStr(index) => " index=" + Dec(index)
    case CByteStr(bytes) => " " + HexBytes(bytes)
    case CStruct(name, fields) => " " + (Quoted(name) + (" fields=" + Dec(|fields|)))
    case _ => ""
  }

  function ConstHead(c: Const): string { ConstName(c) + ConstRest(c) }

  ghost predicate SameConstTop(c: Const, d: Const) {
    match c
    case CBool(flag) => d.CBool? && d.flag == flag
    case CInt(number, _) => d.CInt? && d.number == number
    case CUint(unsigned, _) => d.CUint? && d.unsigned == unsigned
    case CFloat(bits, _) => d.CFloat? && d.bits == bits
    case CStr(index) => d.CStr? && d.index == index
    case CByteStr(bytes) => d.CByteStr? && d.bytes == bytes
    case CStruct(name, fields) => d.CStruct? && d.name == name && |d.fields| == |fields|
    case _ => ConstKind(c) == ConstKind(d)
  }

  lemma {:induction false} ConstHeadParts(c: Const, d: Const)
    requires ConstHead(c) == ConstHead(d)
    ensures ConstKind(c) == ConstKind(d) && ConstRest(c) == ConstRest(d)
  {
    ConstNameClean(c);
    ConstNameClean(d);
    FirstWord(ConstName(c), ConstRest(c), ConstName(d), ConstRest(d));
    ConstNames(c, d);
  }

  lemma {:induction false} ConstHeadDetermines(c: Const, d: Const)
    requires ConstHead(c) == ConstHead(d)
    ensures SameConstTop(c, d)
  {
    ConstHeadParts(c, d);
    match c
    case CBool(flag) => Cancel(" ", BoolName(flag), BoolName(d.flag));
    case CInt(n, _) => Cancel(" ", DecInt(n), DecInt(d.number)); DecIntInjective(n, d.number);
    case CUint(n, _) => Cancel(" ", Dec(n), Dec(d.unsigned)); DecInjective(n, d.unsigned);
    case CFloat(bits, _) => Cancel(" bits=", Dec(bits), Dec(d.bits)); DecInjective(bits, d.bits);
    case CStr(index) => Cancel(" index=", Dec(index), Dec(d.index)); DecInjective(index, d.index);
    case CByteStr(bytes) => Cancel(" ", HexBytes(bytes), HexBytes(d.bytes)); HexBytesInjective(bytes, d.bytes);
    case CStruct(name, fields) =>
      var p, q := " fields=" + Dec(|fields|), " fields=" + Dec(|d.fields|);
      Cancel(" ", Quoted(name) + p, Quoted(d.name) + q);
      QuotedPrefixFree(name, p, d.name, q);
      Cancel(" fields=", Dec(|fields|), Dec(|d.fields|));
      DecInjective(|fields|, |d.fields|);
    case _ =>
  }

  lemma {:induction false} ConstHeadClean(c: Const)
    ensures OneLine(ConstHead(c)) && !FieldHead(ConstHead(c))
  {
    ConstNameClean(c);
  }

  function ValueRest(v: Value): (s: string)
    ensures Ends(s) && OneLine(s)
  {
    match v
    case Local(id) => " " + Dec(id)
    case VConst(_) => ""
    case Global(name) => " " + Quoted(name)
    case Function(name) => " " + Quoted(name)
  }

  function ValueHead(v: Value): string { ValueName(v) + ValueRest(v) }

  ghost predicate SameValueTop(v: Value, w: Value) {
    match v
    case Local(id) => w == v
    case VConst(_) => w.VConst?
    case Global(name) => w == v
    case Function(name) => w == v
  }

  lemma {:induction false} ValueHeadDetermines(v: Value, w: Value)
    requires ValueHead(v) == ValueHead(w)
    ensures SameValueTop(v, w)
  {
    ValueNameClean(v);
    ValueNameClean(w);
    FirstWord(ValueName(v), ValueRest(v), ValueName(w), ValueRest(w));
    ValueNames(v, w);
    match v
    case Local(id) => Cancel(" ", Dec(id), Dec(w.id)); DecInjective(id, w.id);
    case VConst(_) =>
    case Global(name) => Cancel(" ", Quoted(name), Quoted(w.name)); QuotedInjective(name, w.name);
    case Function(name) => Cancel(" ", Quoted(name), Quoted(w.name)); QuotedInjective(name, w.name);
  }

  /** A value's line is one line, and never the `null` a missing value prints. */
  lemma {:induction false} ValueHeadClean(v: Value)
    ensures OneLine(ValueHead(v)) && ValueHead(v) != "null" && !FieldHead(ValueHead(v))
  {
    ValueNameClean(v);
    assert ValueHead(v)[0] == ValueName(v)[0] && "null"[0] == 'n';
  }

  /** The one place where a name is printed as it is: a field projection's name is not quoted. */
  function ProjectionRest(p: Projection): (s: string)
    ensures Ends(s)
  {
    match p
    case PDeref => ""
    case PField(index, name, _) => " index=" + (Dec(index) + (" name=" + name))
    case PIndex(local) => " " + Dec(local)
    case ConstantIndex(offset, fromEnd) =>
      " offset=" + (Dec(offset) + (" from_end=" + BoolName(fromEnd)))
    case Subslice(from, to, fromEnd) =>
      " from=" + (Dec(from) + (" to=" + (Dec(to) + (" from_end=" + BoolName(fromEnd)))))
    case Downcast(variant) => " " + Dec(variant)
  }

  function ProjectionHead(p: Projection): string { ProjectionName(p) + ProjectionRest(p) }

  lemma {:induction false} FieldIsField(p: Projection)
    ensures FieldHead(ProjectionHead(p)) <==> p.PField?
  {
    hide Dec;
  }

  lemma {:induction false} ProjectionRestClean(p: Projection)
    requires p.PField? ==> OneLine(p.name)
    ensures OneLine(ProjectionRest(p))
  {
    RestWords();
    hide Dec, OneLine;
    match p
    case PDeref =>
    case PField(index, name, _) =>
      Together(" name=", name, "");
      Together(" index=", Dec(index), " name=" + name);
    case PIndex(local) => Together(" ", Dec(local), "");
    case ConstantIndex(offset, fromEnd) =>
      Together(" from_end=", BoolName(fromEnd), "");
      Together(" offset=", Dec(offset), " from_end=" + BoolName(fromEnd));
    case Subslice(from, to, fromEnd) =>
      Together(" from_end=", BoolName(fromEnd), "");
      Together(" to=", Dec(to), " from_end=" + BoolName(fromEnd));
      Together(" from=", Dec(from), " to=" + (Dec(to) + (" from_end=" + BoolName(fromEnd))));
    case Downcast(variant) => Together(" ", Dec(variant), "");
  }

  lemma {:induction false} RestWords()
    ensures OneLine("") && OneLine(" ") && OneLine(" name=") && OneLine(" index=") && OneLine(" from_end=")
    ensures OneLine(" offset=") && OneLine(" to=") && OneLine(" from=")
  {
  }

  lemma {:induction false} ProjectionHeadClean(p: Projection)
    requires p.PField? ==> OneLine(p.name)
    ensures OneLine(ProjectionHead(p))
  {
    ProjectionNameClean(p);
    ProjectionRestClean(p);
    Together(ProjectionName(p), ProjectionRest(p), "");
  }

  lemma {:induction false} Together(tag: string, s: string, rest: string)
    requires OneLine(tag) && OneLine(s) && OneLine(rest)
    ensures OneLine(tag + s) && OneLine(tag + (s + rest))
  {
  }

  ghost predicate SameProjectionTop(p: Projection, q: Projection) {
    match p
    case PField(index, name, _) => q.PField? && q.index == index && q.name == name
    case _ => p == q
  }

  /** A number in the middle of a line, ended by a space. */
  lemma {:induction false} NumberThen(n: nat, p: string, m: nat, q: string)
    requires Dec(n) + p == Dec(m) + q && Ends(p) && Ends(q)
    ensures n == m && p == q
  {
    FirstWord(Dec(n), p, Dec(m), q);
    DecInjective(n, m);
  }

  lemma {:induction false} SubsliceRest(a: nat, b: nat, x: bool, c: nat, d: nat, y: bool)
    requires ProjectionRest(Subslice(a, b, x)) == ProjectionRest(Subslice(c, d, y))
    ensures a == c && b == d && x == y
  {
    var p1, q1 := " from_end=" + BoolName(x), " from_end=" + BoolName(y);
    var p2, q2 := " to=" + (Dec(b) + p1), " to=" + (Dec(d) + q1);
    Cancel(" from=", Dec(a) + p2, Dec(c) + q2);
    NumberThen(a, p2, c, q2);
    Cancel(" to=", Dec(b) + p1, Dec(d) + q1);
    NumberThen(b, p1, d, q1);
    Cancel(" from_end=", BoolName(x), BoolName(y));
  }

  lemma {:induction false} ProjectionHeadParts(p: Projection, q: Projection)
    requires ProjectionHead(p) == ProjectionHead(q)
    ensures ProjectionKind(p) == ProjectionKind(q) && ProjectionRest(p) == ProjectionRest(q)
  {
    ProjectionNameClean(p);
    ProjectionNameClean(q);
    FirstWord(ProjectionName(p), ProjectionRest(p), ProjectionName(q), ProjectionRest(q));
    ProjectionNames(p, q);
  }

  lemma {:induction false} ProjectionHeadDetermines(p: Projection, q: Projection)
    requires ProjectionHead(p) == ProjectionHead(q)
    ensures SameProjectionTop(p, q)
  {
    ProjectionHeadParts(p, q);
    match p
    case PDeref =>
    case PField(index, name, _) =>
      var x, y := " name=" + name, " name=" + q.name;
      Cancel(" index=", Dec(index) + x, Dec(q.index) + y);
      NumberThen(index, x, q.index, y);
      Cancel(" name=", name, q.name);
    case PIndex(local) => Cancel(" ", Dec(local), Dec(q.local)); DecInjective(local, q.local);
    case ConstantIndex(offset, fromEnd) =>
      var x, y := " from_end=" + BoolName(fromEnd), " from_end=" + BoolName(q.fromEnd);
      Cancel(" offset=", Dec(offset) + x, Dec(q.offset) + y);
      NumberThen(offset, x, q.offset, y);
      Cancel(" from_end=", BoolName(fromEnd), BoolName(q.fromEnd));
    case Subslice(from, to, fromEnd) => SubsliceRest(from, to, fromEnd, q.from, q.to, q.fromEnd);
    case Downcast(variant) => Cancel(" ", Dec(variant), Dec(q.variant)); DecInjective(variant, q.variant);
  }

  function AggregateRest(k: AggregateKind): (s: string)
    ensures Ends(s) && OneLine(s)
  {
    match k
    case AArray(_) => ""
    case ATuple => ""
    case AStruct(name) => " " + Quoted(name)
    case AVariant(enum, discriminant, variant) =>
      " enum=" + (Quoted(enum) + (" discriminant=" + (Dec(discriminant) + (" variant=" + Quoted(variant)))))
    case AClosure(name) => " " + Quoted(name)
  }

  function AggregateHead(k: AggregateKind): string { AggregateName(k) + AggregateRest(k) }

  ghost predicate SameAggregateTop(k: AggregateKind, l: AggregateKind) {
    match k
    case AArray(_) => l.AArray?
    case _ => k == l
  }

  lemma {:induction false} VariantRest(e: string, n: nat, v: string, f: string, m: nat, w: string)
    requires AggregateRest(AVariant(e, n, v)) == AggregateRest(AVariant(f, m, w))
    ensures e == f && n == m && v == w
  {
    var p1, q1 := " variant=" + Quoted(v), " variant=" + Quoted(w);
    var p2, q2 := " discriminant=" + (Dec(n) + p1), " discriminant=" + (Dec(m) + q1);
    Cancel(" enum=", Quoted(e) + p2, Quoted(f) + q2);
    QuotedPrefixFree(e, p2, f, q2);
    Cancel(" discriminant=", Dec(n) + p1, Dec(m) + q1);
    NumberThen(n, p1, m, q1);
    Cancel(" variant=", Quoted(v), Quoted(w));
    QuotedInjective(v, w);
  }

  lemma {:induction false} AggregateHeadDetermines(k: AggregateKind, l: AggregateKind)
    requires AggregateHead(k) == AggregateHead(l)
    ensures SameAggregateTop(k, l)
  {
    AggregateNameClean(k);
    AggregateNameClean(l);
    FirstWord(AggregateName(k), AggregateRest(k), AggregateName(l), AggregateRest(l));
    AggregateNames(k, l);
    match k
    case AArray(_) =>
    case ATuple =>
    case AStruct(name) => Cancel(" ", Quoted(name), Quoted(l.name)); QuotedInjective(name, l.name);
    case AVariant(e, n, v) => VariantRest(e, n, v, l.enum, l.discriminant, l.variant);
    case AClosure(name) => Cancel(" ", Quoted(name), Quoted(l.name)); QuotedInjective(name, l.name);
  }
}
