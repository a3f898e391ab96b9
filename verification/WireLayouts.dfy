/** The wire formats byte by byte, as the packed structures of the headers lay them out. */
module WireLayouts {
  import opened Bytes
  import F = FragmentWire
  import B = BProtoWire
  import S = BProtoSchema
  import P = BatchFraming

  function Flag(b: bool): Byte {
    if b then 1 else 0
  }

  /** A chunk: frame id, start and length, low byte first, the mark of the last chunk, the payload. */
  lemma ChunkBytes(r: F.Record)
    requires r.Encodable()
    ensures var n := |r.piece.data|;
      F.EncodeOne(r) == [r.id % 256, r.id / 256, r.piece.start % 256, r.piece.start / 256, n % 256, n / 256, Flag(r.piece.last)] + r.piece.data
  {
  }

  /** A message of batched packets: version 2, the compression flag, and the packets behind their lengths, high byte first. */
  lemma MessageBytes(z: P.Zstd, p: seq<Byte>, q: seq<Byte>)
    requires |p| <= 65535 && |q| <= 65535
    ensures var framed := [|p| / 256, |p| % 256] + p + ([|q| / 256, |q| % 256] + q); var packed := z.pack(framed);
      P.Encode(z, [p, q]) == if |packed| < |framed| then [2, 1] + packed else [2, 0] + framed
  {
    assert [p, q][..1] == [p] && [p][..0] == [];
    P.FramedOne(p);
    assert P.Framed([p, q]) == P.Framed([p]) + P.Frame(q);
  }

  // How many bytes an integer takes.
  function Width(kind: S.Kind): nat {
    match kind
    case Uint8 => 1
    case Uint16 => 2
    case Uint32 => 4
    case _ => 8
  }

  /** An integer field: id and type, low byte first, and the value in as many bytes as its type says. */
  lemma NumberBytes(e: S.Entry, n: nat)
    requires !e.kind.Data? && !e.kind.ConstData? && S.Suits(e.kind, S.Num(n))
    ensures B.EncodeOne(S.Record(e, S.Num(n))) == [e.id % 256, e.id / 256, S.TypeNumber(e.kind), 0] + S.LeN(n, Width(e.kind))
  {
  }

  /** Those bytes, low byte first. */
  lemma LittleEnd(n: nat, size: nat)
    requires n < S.Power(size)
    ensures size == 1 ==> n < 256 && S.LeN(n, size) == [n]
    ensures size == 2 ==> n / 256 < 256 && S.LeN(n, size) == [n % 256, n / 256]
    ensures size == 4 ==> n / 256 / 256 / 256 < 256 && S.LeN(n, size) == [n % 256, n / 256 % 256, n / 256 / 256 % 256, n / 256 / 256 / 256]
  {
    var a, b, c := n / 256, n / 256 / 256, n / 256 / 256 / 256;
    if size == 1 {
      PowerIs(1);
      assert S.LeN(n, 1) == [n % 256] + S.LeN(a, 0);
    } else if size == 2 {
      PowerIs(2);
      assert S.LeN(n, 2) == [n % 256] + ([a % 256] + S.LeN(b, 0));
    } else if size == 4 {
      PowerIs(4);
      assert S.LeN(b, 2) == [b % 256] + ([c % 256] + S.LeN(c / 256, 0));
      assert S.LeN(n, 4) == [n % 256] + ([a % 256] + S.LeN(b, 2));
    }
  }

  lemma PowerIs(size: nat)
    requires size <= 4
    ensures S.Power(size) ==
      if size == 0 then 1 else if size == 1 then 0x100 else if size == 2 then 0x1_0000 else if size == 3 then 0x100_0000 else 0x1_0000_0000
  {
    if size > 0 {
      PowerIs(size - 1);
    }
  }

  /** A data field: id and type, the length in four bytes, low byte first, and the data. */
  lemma DataBytes(e: S.Entry, d: seq<Byte>)
    requires (e.kind.Data? || e.kind.ConstData?) && S.Suits(e.kind, S.Blob(d))
    ensures var n := |d|;
      B.EncodeOne(S.Record(e, S.Blob(d))) ==
        [e.id % 256, e.id / 256, S.TypeNumber(e.kind), 0]
        + [n % 0x1_0000 % 256, n % 0x1_0000 / 256, n / 0x1_0000 % 256, n / 0x1_0000 / 256] + d
  {
  }
}
