/**
  The batch wire format: packets with 16-bit length prefixes, behind a version byte and
  a flags byte, compressed as a whole when that makes them smaller. The compressor is a
  pair of functions of which only the round trip is known.
 */
module BatchFraming {
  import opened Bytes
  import opened Lists

  type Packet = seq<Byte>

  const FORMAT_VERSION: Byte := 0x02
  const FLAG_ZSTD: Byte := 0x01

  // Decompression refuses to produce more than this many bytes (8 MiB).
  const MAX_UNPACKED: nat := 8388608

  datatype Zstd = Zstd(pack: seq<Byte> -> seq<Byte>, unpack: seq<Byte> -> Option<seq<Byte>>) {
    ghost predicate Sound() {
      forall x :: |x| <= MAX_UNPACKED ==> unpack(pack(x)) == Some(x)
    }

    ghost predicate Refuses() {
      forall x :: |x| > MAX_UNPACKED ==> unpack(pack(x)) == None
    }
  }

  // The length prefix keeps the low 16 bits.
  function Frame(p: Packet): (b: seq<Byte>)
    ensures |b| == 2 + |p|
  {
    Be16(|p| % 0x1_0000) + p
  }

  function Framed(pkts: seq<Packet>): seq<Byte> {
    if pkts == [] then [] else Framed(pkts[..|pkts| - 1]) + Frame(pkts[|pkts| - 1])
  }

  function FramedSize(pkts: seq<Packet>): nat {
    if pkts == [] then 0 else FramedSize(pkts[..|pkts| - 1]) + 2 + |pkts[|pkts| - 1]|
  }

  lemma {:induction false} FramedSizeIs(pkts: seq<Packet>)
    ensures |Framed(pkts)| == FramedSize(pkts)
  {
    if pkts != [] {
      FramedSizeIs(pkts[..|pkts| - 1]);
    }
  }

  function Unframe(b: seq<Byte>): (r: Option<seq<Packet>>)
    decreases |b|
  {
    if b == [] then Some([])
    else if |b| < 2 then None
    else
      var n := FromBe16(b);
      if |b| - 2 < n then None
      else
        var rest := Unframe(b[2 + n..]);
        if rest.None? then None else Some([b[2..2 + n]] + rest.value)
  }

  predicate Short(pkts: seq<Packet>) {
    forall i :: 0 <= i < |pkts| ==> |pkts[i]| <= 65535
  }

  lemma FrameHead(p: Packet, rest: seq<Byte>)
    requires |p| <= 65535
    ensures var b := Frame(p) + rest; FromBe16(b) == |p| && b[2..2 + |p|] == p && b[2 + |p|..] == rest
  {
    var b := Frame(p) + rest;
    assert b[0] == |p| / 256 && b[1] == |p| % 256;
  }

  lemma UnframeOne(p: Packet, rest: seq<Byte>)
    requires |p| <= 65535
    ensures Unframe(Frame(p) + rest) == if Unframe(rest).None? then None else Some([p] + Unframe(rest).value)
  {
    var b := Frame(p) + rest;
    FrameHead(p, rest);
    assert FromBe16(b) == |p|;
  }

  lemma {:induction false} UnframeFramed(pkts: seq<Packet>, rest: seq<Byte>)
    requires Short(pkts)
    ensures Unframe(Framed(pkts) + rest) == if Unframe(rest).None? then None else Some(pkts + Unframe(rest).value)
  {
    if pkts == [] {
      assert Framed(pkts) + rest == rest;
      if Unframe(rest).Some? { assert pkts + Unframe(rest).value == Unframe(rest).value; }
    } else {
      var front, last := pkts[..|pkts| - 1], pkts[|pkts| - 1];
      Assoc(Framed(front), Frame(last), rest);
      UnframeFramed(front, Frame(last) + rest);
      UnframeOne(last, rest);
      assert pkts == front + [last];
      if Unframe(rest).Some? { Assoc(front, [last], Unframe(rest).value); }
    }
  }

  lemma {:induction false} UnframedShort(b: seq<Byte>)
    requires Unframe(b).Some?
    ensures Short(Unframe(b).value)
    decreases |b|
  {
    if b != [] {
      UnframedShort(b[2 + FromBe16(b)..]);
    }
  }

  /**
    Framing is undone by unframing exactly for packets whose lengths fit the prefix.
   */
  lemma FramingRoundTrip(pkts: seq<Packet>)
    ensures Unframe(Framed(pkts)) == Some(pkts) <==> Short(pkts)
  {
    if Short(pkts) {
      UnframeFramed(pkts, []);
      EmptyUnits(Framed(pkts), []);
      assert pkts + [] == pkts;
    }
    if Unframe(Framed(pkts)) == Some(pkts) {
      UnframedShort(Framed(pkts));
    }
  }

  lemma FramedSnoc(pkts: seq<Packet>, p: Packet)
    ensures Framed(pkts + [p]) == Framed(pkts) + Frame(p)
  {
    assert (pkts + [p])[..|pkts|] == pkts;
  }

  lemma FramedOne(p: Packet)
    ensures Framed([p]) == Frame(p)
  {
    FramedSnoc([], p);
    assert [] + [p] == [p];
    EmptyUnits(Frame(p), []);
  }

  lemma {:induction false} FramedCons(p: Packet, pkts: seq<Packet>)
    ensures Framed([p] + pkts) == Frame(p) + Framed(pkts)
  {
    if pkts == [] {
      FramedOne(p);
      EmptyUnits([p], []);
      EmptyUnits(Frame(p), []);
    } else {
      var front, last := pkts[..|pkts| - 1], pkts[|pkts| - 1];
      FramedCons(p, front);
      assert pkts == front + [last];
      Assoc([p], front, [last]);
      FramedSnoc([p] + front, last);
      FramedSnoc(front, last);
      Assoc(Frame(p), Framed(front), Frame(last));
    }
  }

  lemma FrameAt(b: seq<Byte>, n: nat)
    requires |b| >= 2 + n && n == FromBe16(b)
    ensures Frame(b[2..2 + n]) + b[2 + n..] == b
  {
    assert Be16(n) == b[..2];
  }

  // What unframing accepts is the framing of what it returns: nothing is ignored.
  lemma {:induction false} FramedUnframe(b: seq<Byte>)
    requires Unframe(b).Some?
    ensures Framed(Unframe(b).value) == b
    decreases |b|
  {
    if b != [] {
      var n := FromBe16(b);
      var p, rest := b[2..2 + n], b[2 + n..];
      FramedUnframe(rest);
      FramedCons(p, Unframe(rest).value);
      FrameAt(b, n);
    }
  }

  function Encode(z: Zstd, pkts: seq<Packet>): seq<Byte> {
    var framed := Framed(pkts);
    var packed := z.pack(framed);
    if |packed| < |framed| then [FORMAT_VERSION, FLAG_ZSTD] + packed else [FORMAT_VERSION, 0] + framed
  }

  // The framed bytes inside a message, after the header and any decompression.
  function Payload(z: Zstd, data: seq<Byte>): Option<seq<Byte>> {
    if |data| < 2 || data[0] != FORMAT_VERSION then None
    else if data[1] % 2 == 1 then z.unpack(data[2..])
    else Some(data[2..])
  }

  function Decode(z: Zstd, data: seq<Byte>): Option<seq<Packet>> {
    var framed := Payload(z, data);
    if framed.None? then None else Unframe(framed.value)
  }

  // The message is sent compressed.
  predicate Compressed(z: Zstd, pkts: seq<Packet>) {
    |z.pack(Framed(pkts))| < |Framed(pkts)|
  }

  // What the receiver has to decompress is within its limit.
  predicate WithinLimit(z: Zstd, pkts: seq<Packet>) {
    Compressed(z, pkts) ==> |Framed(pkts)| <= MAX_UNPACKED
  }

  lemma PayloadOfEncoded(z: Zstd, pkts: seq<Packet>)
    requires z.Sound()
    ensures WithinLimit(z, pkts) ==> Payload(z, Encode(z, pkts)) == Some(Framed(pkts))
    ensures !WithinLimit(z, pkts) && z.Refuses() ==> Payload(z, Encode(z, pkts)) == None
  {
    var framed := Framed(pkts);
    if Compressed(z, pkts) {
      PayloadPacked(z, z.pack(framed));
    } else {
      PayloadPlain(z, framed);
    }
  }

  lemma PayloadPacked(z: Zstd, packed: seq<Byte>)
    ensures Payload(z, [FORMAT_VERSION, FLAG_ZSTD] + packed) == z.unpack(packed)
  {
    assert ([FORMAT_VERSION, FLAG_ZSTD] + packed)[2..] == packed;
  }

  lemma PayloadPlain(z: Zstd, framed: seq<Byte>)
    ensures Payload(z, [FORMAT_VERSION, 0] + framed) == Some(framed)
  {
    assert ([FORMAT_VERSION, 0] + framed)[2..] == framed;
  }

  /**
    A message decodes to the packets it was made from exactly if their lengths fit the
    prefix, unless it is compressed and the receiver refuses to decompress that much.
   */
  lemma BatchRoundTrip(z: Zstd, pkts: seq<Packet>)
    requires z.Sound()
    ensures WithinLimit(z, pkts) ==> (Decode(z, Encode(z, pkts)) == Some(pkts) <==> Short(pkts))
    ensures !WithinLimit(z, pkts) && z.Refuses() ==> Decode(z, Encode(z, pkts)) == None
  {
    PayloadOfEncoded(z, pkts);
    FramingRoundTrip(pkts);
  }

  // A message that decodes carries the framing of its packets and nothing else.
  lemma DecodedExactly(z: Zstd, data: seq<Byte>)
    requires Decode(z, data).Some?
    ensures Payload(z, data) == Some(Framed(Decode(z, data).value))
  {
    FramedUnframe(Payload(z, data).value);
  }

  /**
    A message decodes to these packets exactly if it has the format's version and its
    body, decompressed if the flag says so, is their framing.
   */
  lemma DecodeExactly(z: Zstd, data: seq<Byte>, pkts: seq<Packet>)
    ensures Decode(z, data) == Some(pkts) <==>
      && |data| >= 2 && data[0] == 2 && Short(pkts)
      && if data[1] % 2 == 1 then z.unpack(data[2..]) == Some(Framed(pkts)) else data[2..] == Framed(pkts)
  {
    FramingRoundTrip(pkts);
    if Decode(z, data).Some? {
      DecodedExactly(z, data);
      UnframedShort(Payload(z, data).value);
    }
  }

  // ----- the loops

  method FrameBatch(pkts: seq<Packet>) returns (out: seq<Byte>)
    ensures out == Framed(pkts)
  {
    out := [];
    for i := 0 to |pkts|
      invariant out == Framed(pkts[..i])
    {
      assert pkts[..i + 1][..i] == pkts[..i];
      var lenbuf := Be16(|pkts[i]| % 0x1_0000);
      Assoc(out, lenbuf, pkts[i]);
      out := out + lenbuf;
      out := out + pkts[i];
    }
    assert pkts[..|pkts|] == pkts;
  }

  method EncodeBatch(z: Zstd, pkts: seq<Packet>) returns (out: seq<Byte>)
    ensures out == Encode(z, pkts)
  {
    var framed := FrameBatch(pkts);
    var packed := z.pack(framed);
    if |packed| < |framed| {
      out := [FORMAT_VERSION, FLAG_ZSTD] + packed;
    } else {
      out := [FORMAT_VERSION, 0] + framed;
    }
  }

  method DecodeBatch(z: Zstd, data: seq<Byte>) returns (r: Option<seq<Packet>>)
    ensures r == Decode(z, data)
  {
    if |data| < 2 || data[0] != FORMAT_VERSION {
      return None;
    }
    var framed := data[2..];
    if data[1] % 2 != 0 {
      var plain := z.unpack(framed);
      if plain.None? {
        return None;
      }
      framed := plain.value;
    }
    ghost var all := framed;
    assert Unframe(all).Some? ==> [] + Unframe(all).value == Unframe(all).value;
    var pkts: seq<Packet> := [];
    while |framed| > 0
      invariant Unframe(all) == if Unframe(framed).None? then None else Some(pkts + Unframe(framed).value)
      decreases |framed|
    {
      if |framed| < 2 {
        return None;
      }
      var n := FromBe16(framed);
      if |framed| - 2 < n {
        return None;
      }
      var pkt := framed[2..2 + n];
      if Unframe(framed[2 + n..]).Some? {
        Assoc(pkts, [pkt], Unframe(framed[2 + n..]).value);
      }
      pkts := pkts + [pkt];
      framed := framed[2 + n..];
    }
    assert pkts + [] == pkts;
    r := Some(pkts);
  }
}
