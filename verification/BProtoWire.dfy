/**
  The BProto wire format: a message is a sequence of records, each an id, a type
  code and a body whose length the type code fixes or a length field gives.
 */
module BProtoWire {
  import opened Bytes
  import opened Lists

  const TYPE_UINT8: U16 := 1
  const TYPE_UINT16: U16 := 2
  const TYPE_UINT32: U16 := 3
  const TYPE_UINT64: U16 := 4
  const TYPE_DATA: U16 := 5
  const TYPE_CONSTDATA: U16 := 6

  // sizeof(struct BProto_header_s) and sizeof(struct BProto_data_header_s)
  const HEADER: nat := 4
  const DATA_HEADER: nat := 4

  datatype Rec = Rec(id: U16, code: U16, body: seq<Byte>)

  // The size of an integer body.
  function UintSize(code: U16): nat {
    if code == TYPE_UINT8 then 1 else if code == TYPE_UINT16 then 2 else if code == TYPE_UINT32 then 4 else 8
  }

  predicate IsUint(code: U16) {
    TYPE_UINT8 <= code <= TYPE_UINT64
  }

  predicate IsData(code: U16) {
    code == TYPE_DATA || code == TYPE_CONSTDATA
  }

  predicate Sized(r: Rec) {
    if IsUint(r.code) then |r.body| == UintSize(r.code) else IsData(r.code) && |r.body| < 0x1_0000_0000
  }

  // Everything that comes before the body.
  function Head(r: Rec): (b: seq<Byte>)
    requires Sized(r)
    ensures |b| == HEADER + if IsData(r.code) then DATA_HEADER else 0
  {
    Le16(r.id) + Le16(r.code) + if IsData(r.code) then Le32(|r.body|) else []
  }

  function Size(r: Rec): (n: nat)
    ensures n >= HEADER
  {
    HEADER + (if IsData(r.code) then DATA_HEADER else 0) + |r.body|
  }

  function EncodeOne(r: Rec): (b: seq<Byte>)
    requires Sized(r)
    ensures |b| == Size(r)
  {
    Head(r) + r.body
  }

  predicate AllSized(rs: seq<Rec>) {
    forall k :: 0 <= k < |rs| ==> Sized(rs[k])
  }

  function Encode(rs: seq<Rec>): seq<Byte>
    requires AllSized(rs)
  {
    if rs == [] then [] else EncodeOne(rs[0]) + Encode(rs[1..])
  }

  // The record at the start of the bytes, if a whole one of a known type is there.
  function ParseOne(b: seq<Byte>): (r: Option<Rec>)
    ensures r.Some? ==> Sized(r.value)
    ensures r.Some? ==> Size(r.value) <= |b|
  {
    if |b| < HEADER then None
    else
      var id, code := FromLe16(b), FromLe16(b[2..]);
      if IsUint(code) then
        if |b| - HEADER < UintSize(code) then None
        else Some(Rec(id, code, b[HEADER..HEADER + UintSize(code)]))
      else if IsData(code) then
        if |b| - HEADER < DATA_HEADER then None
        else
          var len := FromLe32(b[HEADER..]);
          var at := HEADER + DATA_HEADER;
          if |b| - at < len then None else Some(Rec(id, code, b[at..at + len]))
      else None
  }

  function Parse(b: seq<Byte>): (rs: Option<seq<Rec>>)
    ensures rs.Some? ==> AllSized(rs.value)
    decreases |b|
  {
    if b == [] then Some([])
    else
      var r := ParseOne(b);
      if r.None? then None
      else
        var rest := Parse(b[Size(r.value)..]);
        if rest.None? then None else Some([r.value] + rest.value)
  }

  // A record at the front is read, whatever follows it.
  lemma ParseOneOfEncoded(r: Rec, rest: seq<Byte>)
    requires Sized(r)
    ensures ParseOne(EncodeOne(r) + rest) == Some(r)
  {
    var b := EncodeOne(r) + rest;
    assert b[0] == Le16(r.id)[0] && b[1] == Le16(r.id)[1];
    assert b[2..][0] == Le16(r.code)[0] && b[2..][1] == Le16(r.code)[1];
    if IsUint(r.code) {
      assert b[HEADER..HEADER + |r.body|] == r.body;
    } else {
      var at := HEADER + DATA_HEADER;
      assert b[HEADER..] == Le32(|r.body|) + (r.body + rest);
      Le32RoundTrip(|r.body|, r.body + rest);
      assert b[at..at + |r.body|] == r.body;
    }
  }

  // What was read is what stands there.
  lemma EncodedOfParseOne(b: seq<Byte>)
    requires ParseOne(b).Some?
    ensures var e := EncodeOne(ParseOne(b).value); e == b[..|e|]
  {
    var r := ParseOne(b).value;
    HeadOfParseOne(b, r);
    var h, e := |Head(r)|, |EncodeOne(r)|;
    assert b[h..e] == r.body;
    assert b[..h] + b[h..e] == b[..e];
  }

  lemma HeadOfParseOne(b: seq<Byte>, r: Rec)
    requires ParseOne(b) == Some(r)
    ensures Head(r) == b[..|Head(r)|]
  {
    Le16Onto(b);
    Le16Onto(b[2..]);
    assert b[..2] + b[2..][..2] == b[..4];
    if IsData(r.code) {
      Le32Onto(b[4..]);
      assert b[..4] + b[4..][..4] == b[..8];
    }
  }

  /**
    The format is a bijection: the bytes parse to these records exactly if they are
    the encoding of these records.
   */
  lemma {:induction false} ParseExactly(b: seq<Byte>, rs: seq<Rec>)
    ensures Parse(b) == Some(rs) <==> AllSized(rs) && Encode(rs) == b
  {
    if AllSized(rs) && Encode(rs) == b {
      ParseEncode(rs);
    }
    if Parse(b) == Some(rs) {
      EncodeParse(b);
    }
  }

  lemma {:induction false} ParseEncode(rs: seq<Rec>)
    requires AllSized(rs)
    ensures Parse(Encode(rs)) == Some(rs)
  {
    if rs != [] {
      var e, rest := EncodeOne(rs[0]), Encode(rs[1..]);
      ParseOneOfEncoded(rs[0], rest);
      assert (e + rest)[|e|..] == rest;
      ParseEncode(rs[1..]);
      assert [rs[0]] + rs[1..] == rs;
    }
  }

  lemma {:induction false} EncodeParse(b: seq<Byte>)
    requires Parse(b).Some?
    ensures Encode(Parse(b).value) == b
    decreases |b|
  {
    if b != [] {
      var r := ParseOne(b).value;
      var e := EncodeOne(r);
      EncodedOfParseOne(b);
      EncodeParse(b[|e|..]);
      assert Parse(b).value[1..] == Parse(b[|e|..]).value;
      assert b == b[..|e|] + b[|e|..];
    }
  }

  lemma {:induction false} EncodeSplit(a: seq<Rec>, b: seq<Rec>)
    requires AllSized(a) && AllSized(b)
    ensures AllSized(a + b) && Encode(a + b) == Encode(a) + Encode(b)
  {
    if a == [] {
      assert a + b == b;
    } else {
      assert (a + b)[1..] == a[1..] + b;
      EncodeSplit(a[1..], b);
      Assoc(EncodeOne(a[0]), Encode(a[1..]), Encode(b));
    }
  }

  lemma EncodeSingle(r: Rec)
    requires Sized(r)
    ensures AllSized([r]) && Encode([r]) == EncodeOne(r)
  {
    EmptyUnits(EncodeOne(r), []);
  }

  lemma EncodeSnoc(rs: seq<Rec>, r: Rec)
    requires AllSized(rs) && Sized(r)
    ensures AllSized(rs + [r]) && Encode(rs + [r]) == Encode(rs) + EncodeOne(r)
  {
    EncodeSingle(r);
    EncodeSplit(rs, [r]);
  }

  // Where the records of a message start, and where the last one ends.
  ghost predicate Offsets(rs: seq<Rec>, offs: seq<nat>) {
    && |offs| == |rs| + 1 && offs[0] == 0
    && (forall k {:trigger rs[k]} :: 0 <= k < |rs| ==> offs[k + 1] == offs[k] + Size(rs[k]))
  }

  lemma {:induction false} OffsetsGrow(rs: seq<Rec>, offs: seq<nat>, j: nat, k: nat)
    requires Offsets(rs, offs) && j <= k <= |rs|
    ensures offs[j] <= offs[k] && (offs[j] == offs[k] <==> j == k)
  {
    if j < k {
      OffsetsGrow(rs, offs, j, k - 1);
      assert Size(rs[k - 1]) > 0;
    }
  }

  lemma OffsetsSnoc(rs: seq<Rec>, offs: seq<nat>, r: Rec)
    requires Offsets(rs, offs)
    ensures Offsets(rs + [r], offs + [offs[|rs|] + Size(r)])
  {
  }

  lemma {:induction false} OffsetIsPrefix(rs: seq<Rec>, offs: seq<nat>, k: nat)
    requires AllSized(rs) && Offsets(rs, offs) && k <= |rs|
    ensures AllSized(rs[..k]) && |Encode(rs[..k])| == offs[k]
  {
    if k > 0 {
      OffsetIsPrefix(rs, offs, k - 1);
      EncodeSnoc(rs[..k - 1], rs[k - 1]);
      assert rs[..k] == rs[..k - 1] + [rs[k - 1]];
    }
  }

  lemma EncodeFrom(rs: seq<Rec>, offs: seq<nat>, k: nat)
    requires AllSized(rs) && Offsets(rs, offs) && k <= |rs|
    ensures offs[k] <= |Encode(rs)| && AllSized(rs[k..])
    ensures Encode(rs)[offs[k]..] == Encode(rs[k..])
  {
    var a, b := rs[..k], rs[k..];
    OffsetIsPrefix(rs, offs, k);
    EncodeSplit(a, b);
    assert a + b == rs;
  }

  lemma ParseOneOfFirst(rs: seq<Rec>)
    requires AllSized(rs) && rs != []
    ensures ParseOne(Encode(rs)) == Some(rs[0])
  {
    ParseOneOfEncoded(rs[0], Encode(rs[1..]));
  }

  // The record found at an offset is the one that was put there.
  lemma RecordAt(rs: seq<Rec>, offs: seq<nat>, k: nat)
    requires AllSized(rs) && Offsets(rs, offs) && k < |rs|
    ensures offs[k] <= |Encode(rs)|
    ensures ParseOne(Encode(rs)[offs[k]..]) == Some(rs[k])
  {
    EncodeFrom(rs, offs, k);
    ParseOneOfFirst(rs[k..]);
  }
}
