/**
  BProto schemas and what it means for a message to conform to one: the fields, the
  records that belong to each field, and the values those records carry.
 */
module BProtoSchema {
  import opened Bytes
  import opened Lists
  import opened BProtoWire

  datatype Kind = Uint8 | Uint16 | Uint32 | Uint64 | Data | ConstData(size: U32)

  datatype Cardinality = Repeated | RequiredRepeated | Optional | Required

  datatype Entry = Entry(id: U16, kind: Kind, card: Cardinality)

  datatype Value = Num(n: nat) | Blob(bytes: seq<Byte>)

  function Code(kind: Kind): U16 {
    match kind
    case Uint8 => TYPE_UINT8
    case Uint16 => TYPE_UINT16
    case Uint32 => TYPE_UINT32
    case Uint64 => TYPE_UINT64
    case Data => TYPE_DATA
    case ConstData(_) => TYPE_CONSTDATA
  }

  // Two entries would be the same case of one switch in the parser: the cases are
  // ids, in one switch for each integer size and one for data of both kinds.
  predicate SameCase(id: U16, code: U16, e: Entry) {
    id == e.id && (code == Code(e.kind) || (IsData(code) && IsData(Code(e.kind))))
  }

  predicate Distinct(schema: seq<Entry>) {
    forall i, j :: 0 <= i < j < |schema| ==> !SameCase(schema[i].id, Code(schema[i].kind), schema[j])
  }

  // The case of the parser's switches that takes a record, or none.
  function Lookup(schema: seq<Entry>, id: U16, code: U16): (i: nat)
    ensures i <= |schema|
    ensures i < |schema| ==> SameCase(id, code, schema[i])
    ensures i == |schema| ==> forall k :: 0 <= k < |schema| ==> !SameCase(id, code, schema[k])
  {
    if schema == [] then 0
    else if SameCase(id, code, schema[0]) then 0
    else 1 + Lookup(schema[1..], id, code)
  }

  predicate Belongs(e: Entry, r: Rec) {
    r.id == e.id && r.code == Code(e.kind)
  }

  predicate Fits(e: Entry, r: Rec) {
    Belongs(e, r) && (e.kind.ConstData? ==> |r.body| == e.kind.size)
  }

  ghost predicate Known(schema: seq<Entry>, r: Rec) {
    exists i :: 0 <= i < |schema| && Fits(schema[i], r)
  }

  predicate CardOk(card: Cardinality, n: nat) {
    match card
    case Repeated => true
    case RequiredRepeated => n >= 1
    case Optional => n <= 1
    case Required => n == 1
  }

  // The bodies of a field's records, in order.
  function Collect(e: Entry, rs: seq<Rec>): seq<seq<Byte>> {
    if rs == [] then []
    else (if Belongs(e, rs[0]) then [rs[0].body] else []) + Collect(e, rs[1..])
  }

  // A message conforms to the schema: every record belongs to some field and suits
  // it, and every field occurs as often as it must.
  ghost predicate Conforms(schema: seq<Entry>, rs: seq<Rec>) {
    && (forall k {:trigger Known(schema, rs[k])} :: 0 <= k < |rs| ==> Known(schema, rs[k]))
    && (forall i :: 0 <= i < |schema| ==> CardOk(schema[i].card, |Collect(schema[i], rs)|))
  }

  lemma {:induction false} CollectSplit(e: Entry, a: seq<Rec>, b: seq<Rec>)
    ensures Collect(e, a + b) == Collect(e, a) + Collect(e, b)
  {
    if a == [] {
      assert a + b == b;
    } else {
      assert (a + b)[1..] == a[1..] + b;
      CollectSplit(e, a[1..], b);
    }
  }

  lemma CollectSnoc(e: Entry, rs: seq<Rec>, r: Rec)
    ensures Collect(e, rs + [r]) == Collect(e, rs) + if Belongs(e, r) then [r.body] else []
  {
    CollectSplit(e, rs, [r]);
    assert Collect(e, [r]) == if Belongs(e, r) then [r.body] else [];
  }

  lemma CollectAt(e: Entry, rs: seq<Rec>, k: nat)
    requires k < |rs|
    ensures Collect(e, rs[k..]) == (if Belongs(e, rs[k]) then [rs[k].body] else []) + Collect(e, rs[k + 1..])
  {
    assert rs[k..][1..] == rs[k + 1..];
  }

  // A field none of whose records come before k has all its values from k on.
  lemma {:induction false} CollectSkips(e: Entry, rs: seq<Rec>, k: nat)
    requires k <= |rs| && forall j :: 0 <= j < k ==> !Belongs(e, rs[j])
    ensures Collect(e, rs[k..]) == Collect(e, rs)
  {
    if k == 0 {
      assert rs[0..] == rs;
    } else {
      CollectSkips(e, rs, k - 1);
      CollectAt(e, rs, k - 1);
    }
  }

  // Nothing is left exactly when none of the records ahead is the field's.
  lemma {:induction false} CollectNone(e: Entry, rs: seq<Rec>, k: nat)
    requires k <= |rs|
    ensures Collect(e, rs[k..]) == [] <==> forall j :: k <= j < |rs| ==> !Belongs(e, rs[j])
    decreases |rs| - k
  {
    if k < |rs| {
      CollectAt(e, rs, k);
      CollectNone(e, rs, k + 1);
    }
  }

  // Where the switch leads is the only field the record can suit.
  lemma LookupKnown(schema: seq<Entry>, r: Rec)
    requires Distinct(schema)
    ensures var i := Lookup(schema, r.id, r.code); Known(schema, r) <==> i < |schema| && Fits(schema[i], r)
    ensures forall k :: 0 <= k < |schema| && k != Lookup(schema, r.id, r.code) ==> !Belongs(schema[k], r)
  {
    var i := Lookup(schema, r.id, r.code);
    forall k | 0 <= k < |schema| && k != i ensures !Belongs(schema[k], r) {
    }
  }

  // ----- the same by counting

  // The type numbers of BProto.h.
  function TypeNumber(kind: Kind): nat {
    match kind
    case Uint8 => 1
    case Uint16 => 2
    case Uint32 => 3
    case Uint64 => 4
    case Data => 5
    case ConstData(_) => 6
  }

  // Where the records with a field's id and type are.
  function Places(e: Entry, rs: seq<Rec>): set<int> {
    set k | 0 <= k < |rs| && rs[k].id == e.id && rs[k].code == TypeNumber(e.kind)
  }

  lemma {:induction false} CollectCounts(e: Entry, rs: seq<Rec>)
    ensures |Collect(e, rs)| == |Places(e, rs)|
  {
    if rs != [] {
      var n := |rs| - 1;
      CollectCounts(e, rs[..n]);
      CollectSnoc(e, rs[..n], rs[n]);
      assert rs == rs[..n] + [rs[n]];
      PlacesNext(e, rs);
    }
  }

  lemma PlacesNext(e: Entry, rs: seq<Rec>)
    requires rs != []
    ensures var n := |rs| - 1; Places(e, rs) == Places(e, rs[..n]) + (if Belongs(e, rs[n]) then {n} else {}) && n !in Places(e, rs[..n])
  {
  }

  // A record is of a declared field, and of the declared size if there is one.
  ghost predicate Declared(schema: seq<Entry>, r: Rec) {
    exists i :: 0 <= i < |schema| && r.id == schema[i].id && r.code == TypeNumber(schema[i].kind)
      && (schema[i].kind.ConstData? ==> |r.body| == schema[i].kind.size)
  }

  // A required field occurs exactly once, an optional one at most once, and one that is
  // required and repeated at least once.
  ghost predicate OccursAsDeclared(e: Entry, rs: seq<Rec>) {
    && (e.card.Required? ==> |Places(e, rs)| == 1)
    && (e.card.Optional? ==> |Places(e, rs)| <= 1)
    && (e.card.RequiredRepeated? ==> |Places(e, rs)| >= 1)
  }

  ghost predicate AsDeclared(schema: seq<Entry>, rs: seq<Rec>) {
    && (forall k {:trigger Declared(schema, rs[k])} :: 0 <= k < |rs| ==> Declared(schema, rs[k]))
    && (forall i {:trigger OccursAsDeclared(schema[i], rs)} :: 0 <= i < |schema| ==> OccursAsDeclared(schema[i], rs))
  }

  lemma KnownExactly(schema: seq<Entry>, r: Rec)
    ensures Known(schema, r) <==> Declared(schema, r)
  {
    if Known(schema, r) {
      var i :| 0 <= i < |schema| && Fits(schema[i], r);
      assert r.code == TypeNumber(schema[i].kind);
    }
    if Declared(schema, r) {
      var i :| 0 <= i < |schema| && r.id == schema[i].id && r.code == TypeNumber(schema[i].kind)
        && (schema[i].kind.ConstData? ==> |r.body| == schema[i].kind.size);
      assert Fits(schema[i], r);
    }
  }

  /** A message conforms exactly if it is made up as the schema declares, record by record and field by field. */
  lemma ConformsExactly(schema: seq<Entry>, rs: seq<Rec>)
    ensures Conforms(schema, rs) <==> AsDeclared(schema, rs)
  {
    forall k | 0 <= k < |rs| ensures Known(schema, rs[k]) <==> Declared(schema, rs[k]) {
      KnownExactly(schema, rs[k]);
    }
    forall i | 0 <= i < |schema| ensures CardOk(schema[i].card, |Collect(schema[i], rs)|) <==> OccursAsDeclared(schema[i], rs) {
      CollectCounts(schema[i], rs);
    }
  }

  // ----- values

  function LeN(v: nat, size: nat): (b: seq<Byte>)
    ensures |b| == size
  {
    if size == 0 then [] else [v % 256] + LeN(v / 256, size - 1)
  }

  function FromLeN(b: seq<Byte>): nat {
    if b == [] then 0 else b[0] + 256 * FromLeN(b[1..])
  }

  function Power(size: nat): nat {
    if size == 0 then 1 else 256 * Power(size - 1)
  }

  lemma {:induction false} LeNRoundTrip(v: nat, size: nat)
    requires v < Power(size)
    ensures FromLeN(LeN(v, size)) == v
  {
    if size > 0 {
      LeNRoundTrip(v / 256, size - 1);
      assert LeN(v, size)[1..] == LeN(v / 256, size - 1);
    }
  }

  // The values a caller may store in a field.
  predicate Suits(kind: Kind, v: Value) {
    match kind
    case Data => v.Blob? && |v.bytes| < 0x1_0000_0000
    case ConstData(size) => v.Blob? && |v.bytes| == size
    case _ => v.Num? && v.n < Power(UintSize(Code(kind)))
  }

  function Body(kind: Kind, v: Value): seq<Byte>
    requires Suits(kind, v)
  {
    match v
    case Num(n) => LeN(n, UintSize(Code(kind)))
    case Blob(bytes) => bytes
  }

  function FromBody(kind: Kind, body: seq<Byte>): Value {
    if IsUint(Code(kind)) then Num(FromLeN(body)) else Blob(body)
  }

  lemma BodyRoundTrip(kind: Kind, v: Value)
    requires Suits(kind, v)
    ensures FromBody(kind, Body(kind, v)) == v
  {
    if v.Num? {
      LeNRoundTrip(v.n, UintSize(Code(kind)));
    }
  }

  function Values(e: Entry, bodies: seq<seq<Byte>>): (vs: seq<Value>)
    ensures |vs| == |bodies|
  {
    if bodies == [] then [] else [FromBody(e.kind, bodies[0])] + Values(e, bodies[1..])
  }

  lemma {:induction false} ValuesSplit(e: Entry, a: seq<seq<Byte>>, b: seq<seq<Byte>>)
    ensures Values(e, a + b) == Values(e, a) + Values(e, b)
  {
    if a == [] {
      assert a + b == b;
    } else {
      assert (a + b)[1..] == a[1..] + b;
      ValuesSplit(e, a[1..], b);
    }
  }

  // ----- writing

  // One call of the writer: the field and the value.
  datatype Add = Add(field: nat, v: Value)

  ghost predicate Writable(schema: seq<Entry>, adds: seq<Add>) {
    forall k :: 0 <= k < |adds| ==> adds[k].field < |schema| && Suits(schema[adds[k].field].kind, adds[k].v)
  }

  function Record(e: Entry, v: Value): (r: Rec)
    requires Suits(e.kind, v)
    ensures Sized(r) && Fits(e, r)
  {
    Rec(e.id, Code(e.kind), Body(e.kind, v))
  }

  function Records(schema: seq<Entry>, adds: seq<Add>): (rs: seq<Rec>)
    requires Writable(schema, adds)
    ensures |rs| == |adds| && AllSized(rs)
  {
    if adds == [] then []
    else
      var last := adds[|adds| - 1];
      Records(schema, adds[..|adds| - 1]) + [Record(schema[last.field], last.v)]
  }

  // The values added to one field, in order.
  function Added(adds: seq<Add>, i: nat): seq<Value> {
    if adds == [] then []
    else Added(adds[..|adds| - 1], i) + if adds[|adds| - 1].field == i then [adds[|adds| - 1].v] else []
  }

  lemma RecordsSnoc(schema: seq<Entry>, adds: seq<Add>, a: Add)
    requires Writable(schema, adds) && a.field < |schema| && Suits(schema[a.field].kind, a.v)
    ensures Writable(schema, adds + [a])
    ensures Encode(Records(schema, adds + [a])) == Encode(Records(schema, adds)) + EncodeOne(Record(schema[a.field], a.v))
    ensures forall i :: Added(adds + [a], i) == Added(adds, i) + if a.field == i then [a.v] else []
  {
    assert (adds + [a])[..|adds|] == adds;
    EncodeSnoc(Records(schema, adds), Record(schema[a.field], a.v));
  }

  // Each field of the written records carries the values added to it.
  lemma {:induction false} WrittenValues(schema: seq<Entry>, adds: seq<Add>, i: nat)
    requires Distinct(schema) && Writable(schema, adds) && i < |schema|
    ensures var bodies := Collect(schema[i], Records(schema, adds));
      |bodies| == |Added(adds, i)| && Values(schema[i], bodies) == Added(adds, i)
  {
    if adds != [] {
      var front, last := adds[..|adds| - 1], adds[|adds| - 1];
      var r := Record(schema[last.field], last.v);
      WrittenValues(schema, front, i);
      CollectSnoc(schema[i], Records(schema, front), r);
      LookupKnown(schema, r);
      assert last.field == Lookup(schema, r.id, r.code);
      var bodies := Collect(schema[i], Records(schema, front));
      if i == last.field {
        ValuesSplit(schema[i], bodies, [r.body]);
        BodyRoundTrip(schema[i].kind, last.v);
        assert Values(schema[i], [r.body]) == [last.v];
      } else {
        EmptyUnits(bodies, []);
        EmptyUnits(Added(front, i), []);
      }
    }
  }

  /**
    Whatever a writer produced while respecting the cardinalities is read back: the
    bytes parse, the message conforms to the schema, and each field's records hold
    the values added to it, in the order they were added.
   */
  lemma WriteThenParse(schema: seq<Entry>, adds: seq<Add>)
    requires Distinct(schema) && Writable(schema, adds)
    requires forall i :: 0 <= i < |schema| ==> CardOk(schema[i].card, |Added(adds, i)|)
    ensures var rs := Records(schema, adds);
      && Parse(Encode(rs)) == Some(rs) && Conforms(schema, rs)
      && forall i :: 0 <= i < |schema| ==> Values(schema[i], Collect(schema[i], rs)) == Added(adds, i)
  {
    var rs := Records(schema, adds);
    ParseEncode(rs);
    forall i | 0 <= i < |schema|
      ensures Values(schema[i], Collect(schema[i], rs)) == Added(adds, i) && |Collect(schema[i], rs)| == |Added(adds, i)|
    {
      WrittenValues(schema, adds, i);
    }
    forall k | 0 <= k < |rs| ensures Known(schema, rs[k]) {
      RecordsKnown(schema, adds, k);
    }
  }

  lemma {:induction false} RecordsKnown(schema: seq<Entry>, adds: seq<Add>, k: nat)
    requires Writable(schema, adds) && k < |adds|
    ensures Known(schema, Records(schema, adds)[k])
  {
    if k < |adds| - 1 {
      RecordsKnown(schema, adds[..|adds| - 1], k);
    } else {
      var last := adds[k];
      assert Fits(schema[last.field], Records(schema, adds)[k]);
    }
  }
}
