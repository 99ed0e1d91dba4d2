/** BDF messages and their projection to values. */
module BdfMessage {

  // The effect-typed envelope `buildlang.bdf-message/v0`: its projection to a BDF value, the
  // way back, and the binary form of the whole message.

  import opened BdfValue
  import opened BdfParse
  import opened BdfCodec

  /** The bytes of an ASCII literal. */
  function Ascii(s: string): (b: bytes)
    ensures |b| == |s|
    ensures forall i :: 0 <= i < |s| ==> b[i] == (s[i] as int) % 128
  {
    seq(|s|, i requires 0 <= i < |s| => (s[i] as int) % 128)
  }

  const MESSAGE_SCHEMA: string := "buildlang.bdf-message/v0"

  // ----- capabilities -------------------------------------------------------------------------

  datatype Capability = Console | FileSystem | Network | Process | Environment | Clock | Foreign | Gpu

  /** `Capability::as_str` */
  function Name(c: Capability): string {
    match c
    case Console => "Console"
    case FileSystem => "FileSystem"
    case Network => "Network"
    case Process => "Process"
    case Environment => "Environment"
    case Clock => "Clock"
    case Foreign => "Foreign"
    case Gpu => "Gpu"
  }

  /** `Capability::from_str_strict` */
  function FromStrStrict(name: bytes): Result<Capability> {
    if name == Ascii("Console") then Success(Console)
    else if name == Ascii("FileSystem") then Success(FileSystem)
    else if name == Ascii("Network") then Success(Network)
    else if name == Ascii("Process") then Success(Process)
    else if name == Ascii("Environment") then Success(Environment)
    else if name == Ascii("Clock") then Success(Clock)
    else if name == Ascii("Foreign") then Success(Foreign)
    else if name == Ascii("Gpu") then Success(Gpu)
    else Failure(UnsupportedSchema(name, "a buildlang capability effect"))
  }

  /** A wire string parses to a capability exactly when it is that capability's name. */
  lemma {:induction false} NamesRoundTrip(c: Capability, name: bytes)
    ensures FromStrStrict(name) == Success(c) <==> name == Ascii(Name(c))
    ensures FromStrStrict(name).Failure? ==> FromStrStrict(name).error.schema == name
  {
    if name == Ascii(Name(c)) {
      assert name[0] == (Name(c)[0] as int) % 128 && |name| == |Name(c)|;
      var others := [Ascii("Console"), Ascii("Network"), Ascii("Process"), Ascii("Foreign")];
      assert others[0][0] == 67 && others[1][0] == 78 && others[2][0] == 80 && others[3][0] == 70;
    }
  }

  // ----- the message ---------------------------------------------------------------------------

  datatype ProducedBy = ProducedBy(tool: bytes, toolVersion: bytes)

  datatype Receipt = Receipt(sha256: bytes, derivedFrom: seq<bytes>, how: bytes)

  datatype NextAction = NextAction(tool: bytes, action: bytes, reason: bytes)

  datatype Message = Message(schema: bytes, producedBy: ProducedBy, effects: seq<Capability>,
                             payloadSchema: bytes, payload: Value, receipt: Receipt,
                             next: seq<NextAction>)

  predicate Text(s: bytes) { Utf8(s) && |s| < TWO_TO_THE_64 }

  /** What the Rust type holds: UTF-8 strings, lengths of 64 bits, a canonical payload. */
  ghost predicate WellFormed(m: Message) {
    && Text(m.schema) && Text(m.producedBy.tool) && Text(m.producedBy.toolVersion)
    && Text(m.payloadSchema) && Canonical(m.payload)
    && Text(m.receipt.sha256) && Text(m.receipt.how)
    && |m.effects| < TWO_TO_THE_64 && |m.receipt.derivedFrom| < TWO_TO_THE_64
    && |m.next| < TWO_TO_THE_64
    && (forall i :: 0 <= i < |m.receipt.derivedFrom| ==> Text(m.receipt.derivedFrom[i]))
    && (forall i :: 0 <= i < |m.next| ==> WellFormedAction(m.next[i]))
  }

  predicate WellFormedAction(n: NextAction) { Text(n.tool) && Text(n.action) && Text(n.reason) }

  // ----- projection ----------------------------------------------------------------------------

  function Pair(key: string, v: Value): Entry { Entry(Ascii(key), v) }

  function EffectValue(c: Capability): Value { Str(Ascii(Name(c))) }

  function ActionValue(n: NextAction): Value {
    Map([Pair("tool", Str(n.tool)), Pair("action", Str(n.action)), Pair("reason", Str(n.reason))])
  }

  function ReceiptValue(r: Receipt): Value {
    Map([Pair("sha256", Str(r.sha256)),
         Pair("derived_from",
              Array(seq(|r.derivedFrom|, i requires 0 <= i < |r.derivedFrom| => Str(r.derivedFrom[i])))),
         Pair("method", Str(r.how))])
  }

  function ProducedByValue(p: ProducedBy): Value {
    Map([Pair("tool", Str(p.tool)), Pair("tool_version", Str(p.toolVersion))])
  }

  /** `to_bdf_value` */
  function ToBdfValue(m: Message): Value {
    Map([Pair("schema", Str(m.schema)),
         Pair("produced_by", ProducedByValue(m.producedBy)),
         Pair("effects", Array(seq(|m.effects|, i requires 0 <= i < |m.effects| => EffectValue(m.effects[i])))),
         Pair("payload_schema", Str(m.payloadSchema)),
         Pair("payload", m.payload),
         Pair("receipt", ReceiptValue(m.receipt)),
         Pair("next", Array(seq(|m.next|, i requires 0 <= i < |m.next| => ActionValue(m.next[i]))))])
  }

  // ----- the way back ----------------------------------------------------------------------------

  function AsMap(v: Value, what: string): Result<seq<Entry>> {
    match v
    case Map(entries) => Success(entries)
    case _ => Failure(Json("expected " + what + " to be a map"))
  }

  function AsArray(v: Value, what: string): (r: Result<seq<Value>>)
    ensures r.Success? ==> v == Array(r.value)
  {
    match v
    case Array(items) => Success(items)
    case _ => Failure(Json("expected " + what + " to be an array"))
  }

  function ValueStr(v: Value, what: string): Result<bytes> {
    match v
    case Str(s) => Success(s)
    case _ => Failure(Json("expected " + what + " to be a string"))
  }

  function Field(entries: seq<Entry>, key: string): Result<Value> {
    var i := IndexOf(entries, Ascii(key));
    if i < |entries| then Success(entries[i].val) else Failure(Json("missing field '" + key + "'"))
  }

  function FieldStr(entries: seq<Entry>, key: string): Result<bytes> {
    var v :- Field(entries, key);
    ValueStr(v, key)
  }

  /** Collect a list, stopping at the first entry that does not convert. */
  function CollectEffects(items: seq<Value>): Result<seq<Capability>> {
    if items == [] then Success([])
    else
      var name :- ValueStr(items[0], "effects entry");
      var c :- FromStrStrict(name);
      var rest :- CollectEffects(items[1..]);
      Success([c] + rest)
  }

  function CollectStrings(items: seq<Value>): Result<seq<bytes>> {
    if items == [] then Success([])
    else
      var s :- ValueStr(items[0], "derived_from entry");
      var rest :- CollectStrings(items[1..]);
      Success([s] + rest)
  }

  function ActionOf(v: Value): Result<NextAction> {
    var entries :- AsMap(v, "next entry");
    var tool :- FieldStr(entries, "tool");
    var action :- FieldStr(entries, "action");
    var reason :- FieldStr(entries, "reason");
    Success(NextAction(tool, action, reason))
  }

  function CollectActions(items: seq<Value>): Result<seq<NextAction>> {
    if items == [] then Success([])
    else
      var n :- ActionOf(items[0]);
      var rest :- CollectActions(items[1..]);
      Success([n] + rest)
  }

  function ProducedByOf(entries: seq<Entry>): Result<ProducedBy> {
    var v :- Field(entries, "produced_by");
    var fields :- AsMap(v, "produced_by");
    var tool :- FieldStr(fields, "tool");
    var toolVersion :- FieldStr(fields, "tool_version");
    Success(ProducedBy(tool, toolVersion))
  }

  function ReceiptOf(entries: seq<Entry>): Result<Receipt> {
    var v :- Field(entries, "receipt");
    var fields :- AsMap(v, "receipt");
    var d :- Field(fields, "derived_from");
    var items :- AsArray(d, "derived_from");
    var derivedFrom :- CollectStrings(items);
    var sha256 :- FieldStr(fields, "sha256");
    var how :- FieldStr(fields, "method");
    Success(Receipt(sha256, derivedFrom, how))
  }

  function EffectsOf(entries: seq<Entry>): Result<seq<Capability>> {
    var v :- Field(entries, "effects");
    var items :- AsArray(v, "effects");
    CollectEffects(items)
  }

  function NextOf(entries: seq<Entry>): Result<seq<NextAction>> {
    var v :- Field(entries, "next");
    var items :- AsArray(v, "next");
    CollectActions(items)
  }

  /** `from_bdf_value` */
  function FromBdfValue(v: Value): Result<Message> {
    var entries :- AsMap(v, "message");
    var schema :- FieldStr(entries, "schema");
    var producedBy :- ProducedByOf(entries);
    var effects :- EffectsOf(entries);
    var payloadSchema :- FieldStr(entries, "payload_schema");
    var payload :- Field(entries, "payload");
    var receipt :- ReceiptOf(entries);
    var next :- NextOf(entries);
    Success(Message(schema, producedBy, effects, payloadSchema, payload, receipt, next))
  }

  /** `BdfMessage::to_bytes` and `from_bytes` */
  function MessageToBytes(m: Message): bytes { ToBytes(ToBdfValue(m)) }

  function MessageFromBytes(b: bytes): Result<Message> {
    var v :- FromBytes(b);
    var m :- FromBdfValue(v);
    if m.schema == Ascii(MESSAGE_SCHEMA) then Success(m)
    else Failure(UnsupportedSchema(m.schema, MESSAGE_SCHEMA))
  }

  // ----- the projection is faithful ----------------------------------------------------------------

  lemma {:induction false} FieldAt(entries: seq<Entry>, i: nat, key: string)
    requires i < |entries| && entries[i].key == Ascii(key) && DistinctKeys(entries)
    ensures Field(entries, key) == Success(entries[i].val)
  {
  }

  lemma {:induction false} ActionOfValue(n: NextAction)
    ensures ActionOf(ActionValue(n)) == Success(n)
  {
    var es := ActionValue(n).entries;
    assert es[1].key[0] == 97 && es[2].key[0] == 114;
    FieldAt(es, 0, "tool");
    FieldAt(es, 1, "action");
    FieldAt(es, 2, "reason");
  }

  lemma {:induction false} EffectsComeBack(effects: seq<Capability>, items: seq<Value>)
    requires |items| == |effects| && forall i :: 0 <= i < |effects| ==> items[i] == EffectValue(effects[i])
    ensures CollectEffects(items) == Success(effects)
  {
    if effects != [] {
      NamesRoundTrip(effects[0], Ascii(Name(effects[0])));
      EffectsComeBack(effects[1..], items[1..]);
      assert effects == [effects[0]] + effects[1..];
    }
  }

  lemma {:induction false} StringsComeBack(strings: seq<bytes>, items: seq<Value>)
    requires |items| == |strings| && forall i :: 0 <= i < |strings| ==> items[i] == Str(strings[i])
    ensures CollectStrings(items) == Success(strings)
  {
    if strings != [] {
      StringsComeBack(strings[1..], items[1..]);
      assert strings == [strings[0]] + strings[1..];
    }
  }

  lemma {:induction false} ActionsComeBack(next: seq<NextAction>, items: seq<Value>)
    requires |items| == |next| && forall i :: 0 <= i < |next| ==> items[i] == ActionValue(next[i])
    ensures CollectActions(items) == Success(next)
  {
    if next != [] {
      ActionOfValue(next[0]);
      ActionsComeBack(next[1..], items[1..]);
      assert next == [next[0]] + next[1..];
    }
  }

  lemma {:induction false} ReceiptComesBack(r: Receipt, entries: seq<Entry>)
    requires Field(entries, "receipt") == Success(ReceiptValue(r))
    ensures ReceiptOf(entries) == Success(r)
  {
    var es := ReceiptValue(r).entries;
    assert es[0].key[0] == 115 && es[2].key[0] == 109;
    FieldAt(es, 0, "sha256");
    FieldAt(es, 1, "derived_from");
    FieldAt(es, 2, "method");
    StringsComeBack(r.derivedFrom, es[1].val.items);
  }

  lemma {:induction false} ProducerComesBack(p: ProducedBy, entries: seq<Entry>)
    requires Field(entries, "produced_by") == Success(ProducedByValue(p))
    ensures ProducedByOf(entries) == Success(p)
  {
    var es := ProducedByValue(p).entries;
    FieldAt(es, 0, "tool");
    FieldAt(es, 1, "tool_version");
  }

  /** The keys of the projection, told apart by length or first byte. */
  lemma {:induction false} MessageKeysDistinct(m: Message)
    ensures DistinctKeys(ToBdfValue(m).entries)
  {
    var es := ToBdfValue(m).entries;
    assert |es| == 7;
    assert |es[0].key| == 6 && |es[1].key| == 11 && |es[3].key| == 14 && |es[6].key| == 4;
    assert es[2].key[0] == 101 && es[4].key[0] == 112 && es[5].key[0] == 114;
  }

  lemma {:induction false} EffectsFieldComesBack(m: Message)
    ensures EffectsOf(ToBdfValue(m).entries) == Success(m.effects)
  {
    var es := ToBdfValue(m).entries;
    MessageKeysDistinct(m);
    FieldAt(es, 2, "effects");
    EffectsComeBack(m.effects, es[2].val.items);
  }

  lemma {:induction false} NextFieldComesBack(m: Message)
    ensures NextOf(ToBdfValue(m).entries) == Success(m.next)
  {
    var es := ToBdfValue(m).entries;
    MessageKeysDistinct(m);
    FieldAt(es, 6, "next");
    ActionsComeBack(m.next, es[6].val.items);
  }

  lemma {:induction false} PartFieldsComeBack(m: Message)
    ensures ProducedByOf(ToBdfValue(m).entries) == Success(m.producedBy)
    ensures ReceiptOf(ToBdfValue(m).entries) == Success(m.receipt)
  {
    var es := ToBdfValue(m).entries;
    MessageKeysDistinct(m);
    FieldAt(es, 1, "produced_by");
    FieldAt(es, 5, "receipt");
    ProducerComesBack(m.producedBy, es);
    ReceiptComesBack(m.receipt, es);
  }

  lemma {:induction false} PlainFieldsComeBack(m: Message)
    ensures var es := ToBdfValue(m).entries;
      && FieldStr(es, "schema") == Success(m.schema)
      && FieldStr(es, "payload_schema") == Success(m.payloadSchema)
      && Field(es, "payload") == Success(m.payload)
  {
    var es := ToBdfValue(m).entries;
    MessageKeysDistinct(m);
    FieldAt(es, 0, "schema");
    FieldAt(es, 3, "payload_schema");
    FieldAt(es, 4, "payload");
  }

  /** The projection loses nothing, whatever the schema string says. */
  lemma {:induction false} ProjectionRoundTrip(m: Message)
    ensures FromBdfValue(ToBdfValue(m)) == Success(m)
  {
    PlainFieldsComeBack(m);
    PartFieldsComeBack(m);
    EffectsFieldComesBack(m);
    NextFieldComesBack(m);
  }

  // ----- the projection is canonical -----------------------------------------------------------------

  lemma {:induction false} AsciiText(s: string)
    requires |s| < TWO_TO_THE_64
    ensures Text(Ascii(s))
  {
    AsciiIsUtf8(Ascii(s));
  }

  lemma {:induction false} PairSpellable(key: string, v: Value)
    requires |key| < TWO_TO_THE_64 && Spellable(v)
    ensures SpellableEntry(Pair(key, v))
  {
    AsciiText(key);
  }

  lemma {:induction false} ProducerCanonical(p: ProducedBy)
    requires Text(p.tool) && Text(p.toolVersion)
    ensures Canonical(ProducedByValue(p))
  {
    PairSpellable("tool", Str(p.tool));
    PairSpellable("tool_version", Str(p.toolVersion));
  }

  lemma {:induction false} ActionCanonical(n: NextAction)
    requires WellFormedAction(n)
    ensures Canonical(ActionValue(n))
  {
    var es := ActionValue(n).entries;
    assert es[1].key[0] == 97 && es[2].key[0] == 114;
    PairSpellable("tool", Str(n.tool));
    PairSpellable("action", Str(n.action));
    PairSpellable("reason", Str(n.reason));
  }

  lemma {:induction false} ReceiptCanonical(r: Receipt)
    requires Text(r.sha256) && Text(r.how) && |r.derivedFrom| < TWO_TO_THE_64
    requires forall i :: 0 <= i < |r.derivedFrom| ==> Text(r.derivedFrom[i])
    ensures Canonical(ReceiptValue(r))
  {
    var es := ReceiptValue(r).entries;
    assert es[0].key[0] == 115 && es[2].key[0] == 109;
    PairSpellable("sha256", Str(r.sha256));
    PairSpellable("derived_from", es[1].val);
    PairSpellable("method", Str(r.how));
  }

  lemma {:induction false} EffectsCanonical(m: Message)
    requires WellFormed(m)
    ensures Canonical(ToBdfValue(m).entries[2].val)
  {
    forall i | 0 <= i < |m.effects|
      ensures Canonical(EffectValue(m.effects[i]))
    {
      AsciiText(Name(m.effects[i]));
    }
  }

  lemma {:induction false} NextCanonical(m: Message)
    requires WellFormed(m)
    ensures Canonical(ToBdfValue(m).entries[6].val)
  {
    forall i | 0 <= i < |m.next|
      ensures Canonical(ActionValue(m.next[i]))
    {
      ActionCanonical(m.next[i]);
    }
  }

  lemma {:induction false} StrCanonical(s: bytes)
    requires Text(s)
    ensures Canonical(Str(s))
  {
  }

  lemma {:induction false} ProjectionCanonical(m: Message)
    requires WellFormed(m)
    ensures Canonical(ToBdfValue(m))
  {
    hide Spellable, NoRepeats, DistinctKeys, SpellableEntry;
    var es := ToBdfValue(m).entries;
    MessageKeysDistinct(m);
    StrCanonical(m.schema);
    StrCanonical(m.payloadSchema);
    ProducerCanonical(m.producedBy);
    ReceiptCanonical(m.receipt);
    EffectsCanonical(m);
    NextCanonical(m);
    PairSpellable("schema", es[0].val);
    PairSpellable("produced_by", es[1].val);
    PairSpellable("effects", es[2].val);
    PairSpellable("payload_schema", es[3].val);
    PairSpellable("payload", es[4].val);
    PairSpellable("receipt", es[5].val);
    PairSpellable("next", es[6].val);
    SevenCanonical(es);
  }

  lemma {:induction false} SevenCanonical(es: seq<Entry>)
    requires |es| == 7 && DistinctKeys(es)
    requires forall i :: 0 <= i < 7 ==> SpellableEntry(es[i]) && NoRepeats(es[i].val)
    ensures Canonical(Map(es))
  {
  }

  /** A message with the v0 schema survives its binary form unchanged; with any other schema
      string it is rejected, and the error names that string. */
  lemma {:induction false} MessageRoundTrip(m: Message)
    requires WellFormed(m)
    ensures MessageFromBytes(MessageToBytes(m))
         == if m.schema == Ascii(MESSAGE_SCHEMA) then Success(m)
            else Failure(UnsupportedSchema(m.schema, MESSAGE_SCHEMA))
  {
    ProjectionCanonical(m);
    ProjectionRoundTrip(m);
    var b := MessageToBytes(m);
    RoundTrip(ToBdfValue(m), []);
    assert b + [] == b;
  }

  /** Different messages have different bytes, so a digest of the bytes names the message. */
  lemma {:induction false} MessageInjective(m: Message, n: Message)
    requires WellFormed(m) && WellFormed(n) && MessageToBytes(m) == MessageToBytes(n)
    ensures m == n
  {
    ProjectionCanonical(m);
    ProjectionCanonical(n);
    var b := MessageToBytes(m);
    assert b + [] == b;
    PrefixFree(ToBdfValue(m), ToBdfValue(n), []);
    ProjectionRoundTrip(m);
    ProjectionRoundTrip(n);
  }
}
