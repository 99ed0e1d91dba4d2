/** What is accepted as a BDF message. */
module BdfAccept {

  // Exactly those maps are a message that give a value of the right kind under every key of it, in
  // whatever order the entries stand and whatever other entries there are. Everything else is refused,
  // and a missing field is named.

  import opened BdfValue
  import opened BdfParse
  import opened BdfCodec
  import opened BdfMessage

  // ----- what a map tells ---------------------------------------------------------------------------

  /** The first entry under the key, which is the only one in a map, has this value. */
  ghost predicate Gives(entries: seq<Entry>, key: string, v: Value) {
    exists i :: 0 <= i < |entries| && entries[i] == Entry(Ascii(key), v) && Lacks(entries[..i], key)
  }

  ghost predicate Lacks(entries: seq<Entry>, key: string) {
    forall i :: 0 <= i < |entries| ==> entries[i].key != Ascii(key)
  }

  ghost predicate TellsProducer(v: Value, p: ProducedBy) {
    v.Map? && Gives(v.entries, "tool", Str(p.tool)) && Gives(v.entries, "tool_version", Str(p.toolVersion))
  }

  ghost predicate TellsEffects(v: Value, cs: seq<Capability>) {
    && v.Array? && |v.items| == |cs|
    && forall i :: 0 <= i < |cs| ==> v.items[i] == Str(Ascii(Name(cs[i])))
  }

  ghost predicate TellsStrings(v: Value, ss: seq<bytes>) {
    v.Array? && |v.items| == |ss| && forall i :: 0 <= i < |ss| ==> v.items[i] == Str(ss[i])
  }

  ghost predicate TellsReceipt(v: Value, r: Receipt) {
    && v.Map? && Gives(v.entries, "sha256", Str(r.sha256)) && Gives(v.entries, "method", Str(r.how))
    && exists d :: Gives(v.entries, "derived_from", d) && TellsStrings(d, r.derivedFrom)
  }

  ghost predicate TellsAction(v: Value, n: NextAction) {
    && v.Map? && Gives(v.entries, "tool", Str(n.tool)) && Gives(v.entries, "action", Str(n.action))
    && Gives(v.entries, "reason", Str(n.reason))
  }

  ghost predicate TellsActions(v: Value, ns: seq<NextAction>) {
    v.Array? && |v.items| == |ns| && forall i :: 0 <= i < |ns| ==> TellsAction(v.items[i], ns[i])
  }

  /** The value is a map that gives each part of the message under its key. */
  ghost predicate Tells(v: Value, m: Message) {
    && v.Map? && Gives(v.entries, "schema", Str(m.schema))
    && Gives(v.entries, "payload_schema", Str(m.payloadSchema)) && Gives(v.entries, "payload", m.payload)
    && (exists p :: Gives(v.entries, "produced_by", p) && TellsProducer(p, m.producedBy))
    && (exists e :: Gives(v.entries, "effects", e) && TellsEffects(e, m.effects))
    && (exists r :: Gives(v.entries, "receipt", r) && TellsReceipt(r, m.receipt))
    && (exists n :: Gives(v.entries, "next", n) && TellsActions(n, m.next))
  }

  // ----- fields -------------------------------------------------------------------------------------

  lemma {:induction false} FieldGives(entries: seq<Entry>, key: string, v: Value)
    ensures Field(entries, key) == Success(v) <==> Gives(entries, key, v)
    ensures Field(entries, key).Failure? <==> Lacks(entries, key)
    ensures Lacks(entries, key) ==> Field(entries, key) == Failure(Json("missing field '" + key + "'"))
  {
    var i := IndexOf(entries, Ascii(key));
    if j :| 0 <= j < |entries| && entries[j] == Entry(Ascii(key), v) && Lacks(entries[..j], key) {
      assert forall k :: 0 <= k < j ==> entries[k] == entries[..j][k];
      assert i == j;
    }
  }

  lemma {:induction false} FieldIs(entries: seq<Entry>, key: string)
    ensures Field(entries, key).Success? ==> Gives(entries, key, Field(entries, key).value)
  {
    if Field(entries, key).Success? {
      FieldGives(entries, key, Field(entries, key).value);
    }
  }

  /** A string field: the string under the key, or an error that says what is wrong. */
  lemma {:induction false} StringField(entries: seq<Entry>, key: string, s: bytes)
    ensures FieldStr(entries, key) == Success(s) <==> Gives(entries, key, Str(s))
    ensures Lacks(entries, key) ==> FieldStr(entries, key) == Failure(Json("missing field '" + key + "'"))
    ensures !Lacks(entries, key) && FieldStr(entries, key).Failure? ==>
      FieldStr(entries, key) == Failure(Json("expected " + key + " to be a string"))
  {
    FieldIs(entries, key);
    FieldGives(entries, key, Str(s));
    hide Gives, Lacks;
    if Field(entries, key).Success? {
      FieldGives(entries, key, Field(entries, key).value);
    }
  }

  // ----- lists --------------------------------------------------------------------------------------

  lemma {:induction false} EffectsTold(items: seq<Value>, cs: seq<Capability>)
    ensures CollectEffects(items) == Success(cs) <==> TellsEffects(Array(items), cs)
  {
    if items != [] && cs != [] {
      EffectTold(items[0], cs[0]);
      EffectsTold(items[1..], cs[1..]);
      assert cs == [cs[0]] + cs[1..];
      EffectsStep(items, cs);
    }
    hide FromStrStrict, Name;
  }

  lemma {:induction false} EffectTold(v: Value, c: Capability)
    ensures v == Str(Ascii(Name(c))) <==> v.Str? && FromStrStrict(v.s) == Success(c)
  {
    if v.Str? {
      NamesRoundTrip(c, v.s);
    }
  }

  lemma {:induction false} EffectsStep(items: seq<Value>, cs: seq<Capability>)
    requires items != [] && cs != []
    ensures TellsEffects(Array(items), cs)
       <==> items[0] == Str(Ascii(Name(cs[0]))) && TellsEffects(Array(items[1..]), cs[1..])
  {
    hide Name;
    if items[0] == Str(Ascii(Name(cs[0]))) && TellsEffects(Array(items[1..]), cs[1..]) {
      forall i | 0 <= i < |cs| ensures items[i] == Str(Ascii(Name(cs[i]))) {
        if i > 0 {
          assert items[1..][i - 1] == Str(Ascii(Name(cs[1..][i - 1])));
        }
      }
    }
  }

  lemma {:induction false} StringsTold(items: seq<Value>, ss: seq<bytes>)
    ensures CollectStrings(items) == Success(ss) <==> TellsStrings(Array(items), ss)
  {
    if items != [] && ss != [] {
      StringsTold(items[1..], ss[1..]);
      assert ss == [ss[0]] + ss[1..];
      StringsStep(items, ss);
    }
  }

  lemma {:induction false} StringsStep(items: seq<Value>, ss: seq<bytes>)
    requires items != [] && ss != []
    ensures TellsStrings(Array(items), ss)
       <==> items[0] == Str(ss[0]) && TellsStrings(Array(items[1..]), ss[1..])
  {
    if items[0] == Str(ss[0]) && TellsStrings(Array(items[1..]), ss[1..]) {
      forall i | 0 <= i < |ss| ensures items[i] == Str(ss[i]) {
        if i > 0 {
          assert items[1..][i - 1] == Str(ss[1..][i - 1]);
        }
      }
    }
  }

  lemma {:induction false} ActionTold(v: Value, n: NextAction)
    ensures ActionOf(v) == Success(n) <==> TellsAction(v, n)
  {
    hide Gives, Lacks, FieldStr;
    if v.Map? {
      StringField(v.entries, "tool", n.tool);
      StringField(v.entries, "action", n.action);
      StringField(v.entries, "reason", n.reason);
    }
  }

  lemma {:induction false} ActionsTold(items: seq<Value>, ns: seq<NextAction>)
    ensures CollectActions(items) == Success(ns) <==> TellsActions(Array(items), ns)
  {
    hide ActionOf, TellsAction;
    if items != [] && ns != [] {
      ActionTold(items[0], ns[0]);
      ActionsTold(items[1..], ns[1..]);
      assert ns == [ns[0]] + ns[1..];
      ActionsStep(items, ns);
    }
  }

  lemma {:induction false} ActionsStep(items: seq<Value>, ns: seq<NextAction>)
    requires items != [] && ns != []
    ensures TellsActions(Array(items), ns)
       <==> TellsAction(items[0], ns[0]) && TellsActions(Array(items[1..]), ns[1..])
  {
    hide TellsAction;
    if TellsAction(items[0], ns[0]) && TellsActions(Array(items[1..]), ns[1..]) {
      forall i | 0 <= i < |ns| ensures TellsAction(items[i], ns[i]) {
        if i > 0 {
          assert TellsAction(items[1..][i - 1], ns[1..][i - 1]);
        }
      }
    }
  }

  // ----- the parts ----------------------------------------------------------------------------------

  lemma {:induction false} ProducerTold(entries: seq<Entry>, p: ProducedBy)
    ensures ProducedByOf(entries) == Success(p)
       <==> exists v :: Gives(entries, "produced_by", v) && TellsProducer(v, p)
  {
    FieldIs(entries, "produced_by");
    hide Gives, Lacks, FieldStr, Field;
    if Field(entries, "produced_by").Success? && Field(entries, "produced_by").value.Map? {
      var fields := Field(entries, "produced_by").value.entries;
      StringField(fields, "tool", p.tool);
      StringField(fields, "tool_version", p.toolVersion);
    }
    if v :| Gives(entries, "produced_by", v) && TellsProducer(v, p) {
      FieldGives(entries, "produced_by", v);
    }
  }

  lemma {:induction false} EffectsFieldTold(entries: seq<Entry>, cs: seq<Capability>)
    ensures EffectsOf(entries) == Success(cs) <==> exists v :: Gives(entries, "effects", v) && TellsEffects(v, cs)
  {
    FieldIs(entries, "effects");
    hide Gives, Lacks, Field, TellsEffects, CollectEffects;
    if Field(entries, "effects").Success? && Field(entries, "effects").value.Array? {
      EffectsTold(Field(entries, "effects").value.items, cs);
    }
    if v :| Gives(entries, "effects", v) && TellsEffects(v, cs) {
      FieldGives(entries, "effects", v);
      EffectsAreArray(v, cs);
    }
  }

  lemma {:induction false} EffectsAreArray(v: Value, cs: seq<Capability>)
    requires TellsEffects(v, cs)
    ensures v.Array?
  {
  }

  lemma {:induction false} NextTold(entries: seq<Entry>, ns: seq<NextAction>)
    ensures NextOf(entries) == Success(ns) <==> exists v :: Gives(entries, "next", v) && TellsActions(v, ns)
  {
    FieldIs(entries, "next");
    hide Gives, Lacks, Field, TellsAction, CollectActions;
    if Field(entries, "next").Success? && Field(entries, "next").value.Array? {
      ActionsTold(Field(entries, "next").value.items, ns);
    }
    if v :| Gives(entries, "next", v) && TellsActions(v, ns) {
      FieldGives(entries, "next", v);
    }
  }

  lemma {:induction false} DerivedTold(fields: seq<Entry>, ss: seq<bytes>)
    ensures (exists d :: Gives(fields, "derived_from", d) && TellsStrings(d, ss))
       <==> Field(fields, "derived_from").Success? && Field(fields, "derived_from").value.Array?
            && CollectStrings(Field(fields, "derived_from").value.items) == Success(ss)
  {
    FieldIs(fields, "derived_from");
    hide Gives, Lacks, Field, CollectStrings;
    if Field(fields, "derived_from").Success? && Field(fields, "derived_from").value.Array? {
      StringsTold(Field(fields, "derived_from").value.items, ss);
    }
    if d :| Gives(fields, "derived_from", d) && TellsStrings(d, ss) {
      FieldGives(fields, "derived_from", d);
      StringsTold(d.items, ss);
    }
  }

  lemma {:induction false} ReceiptTold(entries: seq<Entry>, r: Receipt)
    ensures ReceiptOf(entries) == Success(r) <==> exists v :: Gives(entries, "receipt", v) && TellsReceipt(v, r)
  {
    FieldIs(entries, "receipt");
    hide Gives, Lacks, FieldStr, Field, CollectStrings, TellsStrings;
    if Field(entries, "receipt").Success? && Field(entries, "receipt").value.Map? {
      var fields := Field(entries, "receipt").value.entries;
      DerivedTold(fields, r.derivedFrom);
      StringField(fields, "sha256", r.sha256);
      StringField(fields, "method", r.how);
    }
    if v :| Gives(entries, "receipt", v) && TellsReceipt(v, r) {
      FieldGives(entries, "receipt", v);
    }
  }

  // ----- messages -----------------------------------------------------------------------------------

  /** A value is read as a message exactly when it is a map that tells that message. */
  lemma {:induction false} AcceptedIffTold(v: Value, m: Message)
    ensures FromBdfValue(v) == Success(m) <==> Tells(v, m)
  {
    hide Gives, Lacks, FieldStr, Field, ProducedByOf, EffectsOf, ReceiptOf, NextOf;
    hide TellsProducer, TellsEffects, TellsReceipt, TellsActions;
    if v.Map? {
      StringField(v.entries, "schema", m.schema);
      ProducerTold(v.entries, m.producedBy);
      EffectsFieldTold(v.entries, m.effects);
      StringField(v.entries, "payload_schema", m.payloadSchema);
      FieldGives(v.entries, "payload", m.payload);
      ReceiptTold(v.entries, m.receipt);
      NextTold(v.entries, m.next);
    }
  }

  /** So a byte stream is a message exactly when it decodes to such a map and the schema is the one of
      this version. */
  lemma {:induction false} StreamIsMessage(b: bytes, m: Message)
    ensures MessageFromBytes(b) == Success(m)
       <==> FromBytes(b).Success? && Tells(FromBytes(b).value, m) && m.schema == Ascii("buildlang.bdf-message/v0")
  {
    hide FromBdfValue, Tells, FromBytes;
    if FromBytes(b).Success? {
      AcceptedIffTold(FromBytes(b).value, m);
      if FromBdfValue(FromBytes(b).value).Success? {
        AcceptedIffTold(FromBytes(b).value, FromBdfValue(FromBytes(b).value).value);
      }
    }
  }

  // ----- what is missing ----------------------------------------------------------------------------

  /** The keys of a message in the order in which they are asked for. */
  const KEYS: seq<string> := ["schema", "produced_by", "effects", "payload_schema", "payload", "receipt", "next"]

  function Without(entries: seq<Entry>, i: nat): seq<Entry>
    requires i < |entries|
  {
    entries[..i] + entries[i + 1..]
  }

  lemma {:induction false} KeysOfMessage(m: Message, i: nat)
    requires i < 7
    ensures ToBdfValue(m).Map? && |ToBdfValue(m).entries| == 7 && ToBdfValue(m).entries[i].key == Ascii(KEYS[i])
  {
    hide ProducedByValue, ReceiptValue, ActionValue, EffectValue, Ascii;
  }

  lemma {:induction false} OthersStay(entries: seq<Entry>, i: nat, j: nat, key: string)
    requires DistinctKeys(entries) && i < |entries| && j < |entries| && i != j && entries[j].key == Ascii(key)
    ensures Gives(Without(entries, i), key, entries[j].val)
  {
    var rest := Without(entries, i);
    var k := if j < i then j else j - 1;
    assert rest[k] == entries[j];
    forall l | 0 <= l < k ensures rest[..k][l].key != Ascii(key) {
      assert rest[l] == if l < i then entries[l] else entries[l + 1];
    }
  }

  lemma {:induction false} DroppedLacks(entries: seq<Entry>, i: nat, key: string)
    requires DistinctKeys(entries) && i < |entries| && entries[i].key == Ascii(key)
    ensures Lacks(Without(entries, i), key)
  {
    var rest := Without(entries, i);
    forall l | 0 <= l < |rest| ensures rest[l].key != Ascii(key) {
      assert rest[l] == if l < i then entries[l] else entries[l + 1];
    }
  }

  lemma {:induction false} PartAfterDrop(m: Message, i: nat, j: nat)
    requires i < 7 && j < 7
    ensures var es := ToBdfValue(m).entries;
      |es| == 7 && Field(Without(es, i), KEYS[j])
      == if i == j then Failure(Json("missing field '" + KEYS[j] + "'")) else Success(es[j].val)
  {
    KeysOfMessage(m, j);
    MessageKeysDistinct(m);
    hide ToBdfValue, Gives, Lacks, DistinctKeys, Without, Ascii, Field;
    var es := ToBdfValue(m).entries;
    if i == j {
      DroppedLacks(es, i, KEYS[j]);
      FieldGives(Without(es, i), KEYS[j], es[j].val);
    } else {
      OthersStay(es, i, j, KEYS[j]);
      FieldGives(Without(es, i), KEYS[j], es[j].val);
    }
  }

  lemma {:induction false} SameParts(a: seq<Entry>, b: seq<Entry>)
    ensures Field(a, "produced_by") == Field(b, "produced_by") ==> ProducedByOf(a) == ProducedByOf(b)
    ensures Field(a, "effects") == Field(b, "effects") ==> EffectsOf(a) == EffectsOf(b)
    ensures Field(a, "receipt") == Field(b, "receipt") ==> ReceiptOf(a) == ReceiptOf(b)
  {
    hide Field, FieldStr, CollectEffects, CollectActions, CollectStrings;
  }

  lemma {:induction false} OwnFields(m: Message)
    ensures var es := ToBdfValue(m).entries;
      && |es| == 7 && es[0].val == Str(m.schema) && es[3].val == Str(m.payloadSchema)
      && Field(es, "produced_by") == Success(es[1].val) && Field(es, "effects") == Success(es[2].val)
      && Field(es, "receipt") == Success(es[5].val)
  {
    var es := ToBdfValue(m).entries;
    MessageKeysDistinct(m);
    FieldAt(es, 1, "produced_by");
    FieldAt(es, 2, "effects");
    FieldAt(es, 5, "receipt");
    hide Field, Ascii;
  }

  lemma {:induction false} StringUnder(entries: seq<Entry>, key: string, s: bytes)
    ensures Field(entries, key) == Success(Str(s)) ==> FieldStr(entries, key) == Success(s)
  {
    hide Field;
  }

  /** The parts of a message depend on the field under their key alone. */
  lemma {:induction false} PartsByField(entries: seq<Entry>, m: Message)
    ensures var es := ToBdfValue(m).entries;
      && |es| == 7
      && (Field(entries, "schema") == Success(es[0].val) ==> FieldStr(entries, "schema") == Success(m.schema))
      && (Field(entries, "produced_by") == Success(es[1].val) ==> ProducedByOf(entries) == Success(m.producedBy))
      && (Field(entries, "effects") == Success(es[2].val) ==> EffectsOf(entries) == Success(m.effects))
      && (Field(entries, "payload_schema") == Success(es[3].val) ==>
          FieldStr(entries, "payload_schema") == Success(m.payloadSchema))
      && (Field(entries, "receipt") == Success(es[5].val) ==> ReceiptOf(entries) == Success(m.receipt))
  {
    hide *;
    KeysOfMessage(m, 0);
    PartFieldsComeBack(m);
    EffectsFieldComesBack(m);
    OwnFields(m);
    SameParts(ToBdfValue(m).entries, entries);
    StringUnder(entries, "schema", m.schema);
    StringUnder(entries, "payload_schema", m.payloadSchema);
  }

  /** The parts before one of them are there, and it is missing. */
  ghost predicate StopsAt(entries: seq<Entry>, i: nat) {
    && i < 7
    && (i > 0 ==> FieldStr(entries, "schema").Success?)
    && (i > 1 ==> ProducedByOf(entries).Success?)
    && (i > 2 ==> EffectsOf(entries).Success?)
    && (i > 3 ==> FieldStr(entries, "payload_schema").Success?)
    && (i > 4 ==> Field(entries, "payload").Success?)
    && (i > 5 ==> ReceiptOf(entries).Success?)
    && Field(entries, KEYS[i]).Failure?
  }

  lemma {:induction false} FirstMissing(entries: seq<Entry>, i: nat)
    requires StopsAt(entries, i)
    ensures FromBdfValue(Map(entries)) == Failure(Field(entries, KEYS[i]).error)
  {
    assert KEYS[0] == "schema" && KEYS[1] == "produced_by" && KEYS[2] == "effects" && KEYS[3] == "payload_schema";
    assert KEYS[4] == "payload" && KEYS[5] == "receipt" && KEYS[6] == "next";
    FailsWithField(entries);
    hide Field, ProducedByOf, EffectsOf, ReceiptOf, NextOf;
  }

  lemma {:induction false} FailsWithField(entries: seq<Entry>)
    ensures Field(entries, "produced_by").Failure? ==>
      ProducedByOf(entries) == Failure(Field(entries, "produced_by").error)
    ensures Field(entries, "effects").Failure? ==> EffectsOf(entries) == Failure(Field(entries, "effects").error)
    ensures Field(entries, "receipt").Failure? ==> ReceiptOf(entries) == Failure(Field(entries, "receipt").error)
    ensures Field(entries, "next").Failure? ==> NextOf(entries) == Failure(Field(entries, "next").error)
  {
    hide Field;
  }

  lemma {:induction false} StopsAtDropped(m: Message, i: nat)
    requires i < 7 && |ToBdfValue(m).entries| == 7
    ensures StopsAt(Without(ToBdfValue(m).entries, i), i)
    ensures Field(Without(ToBdfValue(m).entries, i), KEYS[i]) == Failure(Json("missing field '" + KEYS[i] + "'"))
  {
    var es := Without(ToBdfValue(m).entries, i);
    hide Field, FieldStr, ProducedByOf, EffectsOf, ReceiptOf, NextOf, ToBdfValue, Without;
    PartsByField(es, m);
    assert KEYS[0] == "schema" && KEYS[1] == "produced_by" && KEYS[2] == "effects" && KEYS[3] == "payload_schema";
    assert KEYS[4] == "payload" && KEYS[5] == "receipt" && KEYS[6] == "next";
    PartAfterDrop(m, i, 0);
    PartAfterDrop(m, i, 1);
    PartAfterDrop(m, i, 2);
    PartAfterDrop(m, i, 3);
    PartAfterDrop(m, i, 4);
    PartAfterDrop(m, i, 5);
    PartAfterDrop(m, i, 6);
  }

  /** A message without one of its fields is refused, and the error names the field. */
  lemma {:induction false} DroppedFieldIsNamed(m: Message, i: nat)
    requires i < 7
    ensures |ToBdfValue(m).entries| == 7
    ensures FromBdfValue(Map(Without(ToBdfValue(m).entries, i))) == Failure(Json("missing field '" + KEYS[i] + "'"))
  {
    hide *;
    KeysOfMessage(m, i);
    StopsAtDropped(m, i);
    FirstMissing(Without(ToBdfValue(m).entries, i), i);
  }

  /** And a value that is not a map is refused as such. */
  lemma {:induction false} OnlyMaps(v: Value)
    ensures !v.Map? ==> FromBdfValue(v) == Failure(Json("expected " + "message" + " to be a map"))
  {
  }

  // ----- what is of the wrong kind ------------------------------------------------------------------

  lemma {:induction false} ProducerIsNoMap(entries: seq<Entry>, v: Value)
    requires Gives(entries, "produced_by", v) && !v.Map?
    ensures ProducedByOf(entries) == Failure(Json("expected " + "produced_by" + " to be a map"))
  {
    FieldGives(entries, "produced_by", v);
    hide Field, Gives, FieldStr;
  }

  lemma {:induction false} ReceiptIsNoMap(entries: seq<Entry>, v: Value)
    requires Gives(entries, "receipt", v) && !v.Map?
    ensures ReceiptOf(entries) == Failure(Json("expected " + "receipt" + " to be a map"))
  {
    FieldGives(entries, "receipt", v);
    hide Field, Gives, FieldStr;
  }

  lemma {:induction false} EffectsAreNoArray(entries: seq<Entry>, v: Value)
    requires Gives(entries, "effects", v) && !v.Array?
    ensures EffectsOf(entries) == Failure(Json("expected " + "effects" + " to be an array"))
  {
    FieldGives(entries, "effects", v);
    hide Field, Gives, FieldStr;
  }

  lemma {:induction false} NextIsNoArray(entries: seq<Entry>, v: Value)
    requires Gives(entries, "next", v) && !v.Array?
    ensures NextOf(entries) == Failure(Json("expected " + "next" + " to be an array"))
  {
    FieldGives(entries, "next", v);
    hide Field, Gives, FieldStr;
  }

  /** A part that is no map or no array is refused as such. */
  lemma {:induction false} PartOfWrongKind(entries: seq<Entry>, v: Value)
    ensures Gives(entries, "produced_by", v) && !v.Map? ==>
      ProducedByOf(entries) == Failure(Json("expected " + "produced_by" + " to be a map"))
    ensures Gives(entries, "receipt", v) && !v.Map? ==>
      ReceiptOf(entries) == Failure(Json("expected " + "receipt" + " to be a map"))
    ensures Gives(entries, "effects", v) && !v.Array? ==>
      EffectsOf(entries) == Failure(Json("expected " + "effects" + " to be an array"))
    ensures Gives(entries, "next", v) && !v.Array? ==>
      NextOf(entries) == Failure(Json("expected " + "next" + " to be an array"))
  {
    hide *;
    if Gives(entries, "produced_by", v) && !v.Map? { ProducerIsNoMap(entries, v); }
    if Gives(entries, "receipt", v) && !v.Map? { ReceiptIsNoMap(entries, v); }
    if Gives(entries, "effects", v) && !v.Array? { EffectsAreNoArray(entries, v); }
    if Gives(entries, "next", v) && !v.Array? { NextIsNoArray(entries, v); }
  }

  /** The same for the list in a receipt. */
  lemma {:induction false} ListOfWrongKind(entries: seq<Entry>, fields: seq<Entry>, v: Value)
    requires Gives(entries, "receipt", Map(fields)) && Gives(fields, "derived_from", v) && !v.Array?
    ensures ReceiptOf(entries) == Failure(Json("expected " + "derived_from" + " to be an array"))
  {
    FieldGives(entries, "receipt", Map(fields));
    FieldGives(fields, "derived_from", v);
    hide Field, Gives, FieldStr;
  }

  lemma {:induction false} FirstOf(v: Value, items: seq<Value>)
    ensures ([v] + items)[0] == v
  {
  }

  lemma {:induction false} EffectOfWrongKind(v: Value, items: seq<Value>)
    ensures !v.Str? ==> CollectEffects([v] + items) == Failure(Json("expected " + "effects entry" + " to be a string"))
    ensures v.Str? && FromStrStrict(v.s).Failure? ==>
      CollectEffects([v] + items) == Failure(FromStrStrict(v.s).error)
  {
    FirstOf(v, items);
    hide FromStrStrict;
  }

  lemma {:induction false} StringOfWrongKind(v: Value, items: seq<Value>)
    ensures !v.Str? ==>
      CollectStrings([v] + items) == Failure(Json("expected " + "derived_from entry" + " to be a string"))
  {
    FirstOf(v, items);
  }

  lemma {:induction false} ActionOfWrongKind(v: Value, items: seq<Value>)
    ensures !v.Map? ==> CollectActions([v] + items) == Failure(Json("expected " + "next entry" + " to be a map"))
  {
    FirstOf(v, items);
    hide FieldStr;
  }

  /** And for the first item of a list. */
  lemma {:induction false} ItemOfWrongKind(v: Value, items: seq<Value>)
    ensures !v.Str? ==> CollectEffects([v] + items) == Failure(Json("expected " + "effects entry" + " to be a string"))
    ensures !v.Str? ==>
      CollectStrings([v] + items) == Failure(Json("expected " + "derived_from entry" + " to be a string"))
    ensures !v.Map? ==> CollectActions([v] + items) == Failure(Json("expected " + "next entry" + " to be a map"))
    ensures v.Str? && (forall c :: v.s != Ascii(Name(c))) ==>
      CollectEffects([v] + items) == Failure(UnsupportedSchema(v.s, "a buildlang capability effect"))
  {
    hide *;
    EffectOfWrongKind(v, items);
    StringOfWrongKind(v, items);
    ActionOfWrongKind(v, items);
    if v.Str? && forall c :: v.s != Ascii(Name(c)) {
      NoCapability(v.s);
    }
  }

  lemma {:induction false} NoCapability(name: bytes)
    requires forall c :: name != Ascii(Name(c))
    ensures FromStrStrict(name) == Failure(UnsupportedSchema(name, "a buildlang capability effect"))
  {
    if FromStrStrict(name).Success? {
      NamesRoundTrip(FromStrStrict(name).value, name);
    }
    hide Ascii, Name;
  }

  // ----- what is written ----------------------------------------------------------------------------

  /** The order in which the entries of a message and of its parts are written. */
  lemma {:induction false} OrderOfEntries(m: Message, n: NextAction)
    ensures ToBdfValue(m).entries[0] == Entry(Ascii("schema"), Str(m.schema))
    ensures ToBdfValue(m).entries[4] == Entry(Ascii("payload"), m.payload)
    ensures forall i :: 0 <= i < 7 ==> ToBdfValue(m).entries[i].key == Ascii(KEYS[i])
    ensures var es := ReceiptValue(m.receipt).entries;
      |es| == 3 && es[0].key == Ascii("sha256") && es[1].key == Ascii("derived_from") && es[2].key == Ascii("method")
    ensures var es := ProducedByValue(m.producedBy).entries;
      |es| == 2 && es[0].key == Ascii("tool") && es[1].key == Ascii("tool_version")
    ensures var es := ActionValue(n).entries;
      |es| == 3 && es[0].key == Ascii("tool") && es[1].key == Ascii("action") && es[2].key == Ascii("reason")
  {
    forall i | 0 <= i < 7 ensures ToBdfValue(m).entries[i].key == Ascii(KEYS[i]) {
      KeysOfMessage(m, i);
    }
    hide Ascii;
  }

  /** The capabilities on the wire. */
  lemma {:induction false} WireNames()
    ensures FromStrStrict(Ascii("Console")) == Success(Console) && FromStrStrict(Ascii("Gpu")) == Success(Gpu)
    ensures FromStrStrict(Ascii("FileSystem")) == Success(FileSystem)
    ensures FromStrStrict(Ascii("Network")) == Success(Network) && FromStrStrict(Ascii("Clock")) == Success(Clock)
    ensures FromStrStrict(Ascii("Process")) == Success(Process)
    ensures FromStrStrict(Ascii("Environment")) == Success(Environment)
    ensures FromStrStrict(Ascii("Foreign")) == Success(Foreign)
  {
    NamesRoundTrip(Console, Ascii("Console"));
    NamesRoundTrip(FileSystem, Ascii("FileSystem"));
    NamesRoundTrip(Network, Ascii("Network"));
    NamesRoundTrip(Process, Ascii("Process"));
    NamesRoundTrip(Environment, Ascii("Environment"));
    NamesRoundTrip(Clock, Ascii("Clock"));
    NamesRoundTrip(Foreign, Ascii("Foreign"));
    NamesRoundTrip(Gpu, Ascii("Gpu"));
    hide FromStrStrict, Ascii;
  }
}
