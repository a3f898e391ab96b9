/** FragmentProto packets: a sequence of chunk headers, each followed by its payload. */
module FragmentWire {
  import opened Bytes
  import opened Lists
  import opened FragmentPieces

  // sizeof(struct fragmentproto_chunk_header): frame id, start, length (16 bits each), is_last
  const HEADER: nat := 7

  datatype Record = Record(id: U16, piece: Piece) {
    // Start and length go into 16-bit fields.
    predicate Encodable() {
      piece.start < 0x1_0000 && |piece.data| < 0x1_0000
    }
  }

  function Size(rs: seq<Record>): nat {
    if rs == [] then 0 else HEADER + |rs[0].piece.data| + Size(rs[1..])
  }

  function EncodeHeader(r: Record): (b: seq<Byte>)
    requires r.Encodable()
    ensures |b| == HEADER
  {
    Le16(r.id) + Le16(r.piece.start) + Le16(|r.piece.data|) + [if r.piece.last then 1 else 0]
  }

  function EncodeOne(r: Record): (b: seq<Byte>)
    requires r.Encodable()
    ensures |b| == HEADER + |r.piece.data|
  {
    EncodeHeader(r) + r.piece.data
  }

  function Encode(rs: seq<Record>): (b: seq<Byte>)
    requires forall r :: r in rs ==> r.Encodable()
    ensures |b| == Size(rs)
  {
    if rs == [] then [] else EncodeOne(rs[0]) + Encode(rs[1..])
  }

  // The chunk at the start of the bytes, if a whole well-formed one is there.
  function ParseOne(b: seq<Byte>): (r: Option<Record>)
    ensures r.Some? ==> r.value.Encodable() && HEADER + |r.value.piece.data| <= |b|
  {
    if |b| < HEADER then None
    else
      var len := FromLe16(b[4..]);
      if b[6] > 1 || |b| - HEADER < len then None
      else Some(Record(FromLe16(b), Piece(FromLe16(b[2..]), b[HEADER..HEADER + len], b[6] == 1)))
  }

  // The chunks the receiver reads from a packet: up to the first malformed one.
  function Parse(b: seq<Byte>): (rs: seq<Record>)
    ensures forall r :: r in rs ==> r.Encodable()
    decreases |b|
  {
    var r := ParseOne(b);
    if r.None? then [] else [r.value] + Parse(b[HEADER + |r.value.piece.data|..])
  }

  lemma ParseOneOfEncoded(r: Record, rest: seq<Byte>)
    requires r.Encodable()
    ensures Parse(EncodeOne(r) + rest) == [r] + Parse(rest)
  {
    var b := EncodeOne(r) + rest;
    assert b[0] == Le16(r.id)[0] && b[1] == Le16(r.id)[1];
    assert b[2..][0] == Le16(r.piece.start)[0] && b[2..][1] == Le16(r.piece.start)[1];
    assert b[4..][0] == Le16(|r.piece.data|)[0] && b[4..][1] == Le16(|r.piece.data|)[1];
    assert b[HEADER..HEADER + |r.piece.data|] == r.piece.data;
    assert ParseOne(b) == Some(r);
    assert b[HEADER + |r.piece.data|..] == rest;
  }

  // A packet is read back as the chunks that were written into it.
  lemma {:induction false} ParseEncode(rs: seq<Record>)
    requires forall r :: r in rs ==> r.Encodable()
    ensures Parse(Encode(rs)) == rs
  {
    if rs != [] {
      ParseOneOfEncoded(rs[0], Encode(rs[1..]));
      ParseEncode(rs[1..]);
      assert [rs[0]] + rs[1..] == rs;
    }
  }

  lemma {:induction false} EncodeSnoc(rs: seq<Record>, r: Record)
    requires r.Encodable() && forall q :: q in rs ==> q.Encodable()
    ensures Encode(rs + [r]) == Encode(rs) + EncodeOne(r)
  {
    if rs == [] {
      EmptyUnits(EncodeOne(r), []);
    } else {
      assert (rs + [r])[0] == rs[0] && (rs + [r])[1..] == rs[1..] + [r];
      EncodeSnoc(rs[1..], r);
      Assoc(EncodeOne(rs[0]), Encode(rs[1..]), EncodeOne(r));
    }
  }

  lemma ReadIsEncoded(b: seq<Byte>)
    requires ParseOne(b).Some?
    ensures var r := ParseOne(b).value; b[..HEADER + |r.piece.data|] == EncodeOne(r)
  {
    var r := ParseOne(b).value;
    var n := |r.piece.data|;
    Le16Onto(b);
    Le16Onto(b[2..]);
    Le16Onto(b[4..]);
    assert b[2..][..2] == b[2..4] && b[4..][..2] == b[4..6];
    assert b[..HEADER + n] == b[..2] + b[2..4] + b[4..6] + [b[6]] + b[HEADER..HEADER + n];
  }

  /** A chunk is read exactly if the bytes start with its encoding. */
  lemma ReadExactly(b: seq<Byte>, r: Record)
    ensures ParseOne(b) == Some(r) <==> r.Encodable() && EncodeOne(r) <= b
  {
    if ParseOne(b) == Some(r) {
      ReadIsEncoded(b);
    }
    if r.Encodable() && EncodeOne(r) <= b {
      var n := HEADER + |r.piece.data|;
      ParseOneOfEncoded(r, b[n..]);
      assert EncodeOne(r) + b[n..] == b;
      assert Parse(b)[0] == r;
    }
  }

  /** What is read of a packet is its longest front that is made up of chunks. */
  lemma {:induction false} ReadAsFarAsPossible(b: seq<Byte>)
    ensures var front := Encode(Parse(b)); front <= b && ParseOne(b[|front|..]) == None
    decreases |b|
  {
    if ParseOne(b).Some? {
      var r := ParseOne(b).value;
      var n := HEADER + |r.piece.data|;
      ReadIsEncoded(b);
      ReadAsFarAsPossible(b[n..]);
      assert Parse(b) == [r] + Parse(b[n..]);
      EncodeFirst(r, Parse(b[n..]));
      LongerFront(b, n, EncodeOne(r), Encode(Parse(b[n..])));
    } else {
      assert b[0..] == b;
    }
  }

  lemma EncodeFirst(r: Record, rs: seq<Record>)
    requires r.Encodable() && forall q :: q in rs ==> q.Encodable()
    ensures Encode([r] + rs) == EncodeOne(r) + Encode(rs)
  {
    assert ([r] + rs)[0] == r && ([r] + rs)[1..] == rs;
  }

  lemma LongerFront(b: seq<Byte>, n: nat, one: seq<Byte>, rest: seq<Byte>)
    requires n <= |b| && one == b[..n] && rest <= b[n..]
    ensures one + rest <= b && b[|one + rest|..] == b[n..][|rest|..]
  {
  }
}
