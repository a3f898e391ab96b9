/**
  Ethernet frames with IGMP inside, byte by byte: what the client reads out of a frame
  is what the layouts of RFC 894, RFC 791, RFC 2236 and RFC 3376 put into it.
 */
module FrameLayout {
  import opened Bytes
  import opened Lists
  import opened Frames
  import Checksum

  function Be32(v: U32): (b: seq<Byte>)
    ensures |b| == 4
  {
    Be16(v / 0x1_0000) + Be16(v % 0x1_0000)
  }

  function Be48(m: Mac): (b: seq<Byte>)
    ensures |b| == 6
  {
    Be16(m / 0x1_0000_0000) + Be32(m % 0x1_0000_0000)
  }

  lemma Be32Read(b: seq<Byte>, v: U32)
    requires |b| >= 4
    ensures b[..4] == Be32(v) <==> FromBe32(b) == v
  {
    var hi, lo := FromBe16(b), FromBe16(b[2..]);
    assert b[..4] == [b[0], b[1], b[2], b[3]];
    assert hi == 256 * (b[0] as int) + b[1] as int && lo == 256 * (b[2] as int) + b[3] as int;
    if FromBe32(b) == v {
      assert v / 0x1_0000 == hi && v % 0x1_0000 == lo;
      assert Be16(hi) == [b[0], b[1]] && Be16(lo) == [b[2], b[3]];
    }
  }

  // The first two fields of a frame are the destination and the source.
  lemma AddressesAre(f: seq<Byte>, dest: Mac, source: Mac, rest: seq<Byte>)
    requires f == Be48(dest) + Be48(source) + rest && |rest| >= 2
    ensures Dest(f) == dest && Source(f) == source
  {
    Be48Read(f, dest);
    Be48Read(f[6..], source);
  }

  lemma Be48Read(b: seq<Byte>, m: Mac)
    requires |b| >= 6 && b[..6] == Be48(m)
    ensures FromBe48(b) == m
  {
    var hi := m / 0x1_0000_0000;
    assert b[0] == Be48(m)[0] == hi / 256 && b[1] == Be48(m)[1] == hi % 256;
    assert b[2..][..4] == b[..6][2..] == Be32(m % 0x1_0000_0000);
    Be32Read(b[2..], m % 0x1_0000_0000);
  }

  // ----- IGMP in IPv4 in Ethernet

  // A sound IPv4 header for this much payload of this protocol, options included.
  predicate HeaderFor(ip: seq<Byte>, protocol: Byte, n: nat) {
    && 20 <= |ip| <= 60 && |ip| % 4 == 0 && ip[0] == 0x40 + |ip| / 4
    && 256 * (ip[2] as int) + ip[3] as int == |ip| + n
    && ip[9] == protocol
    && 256 * (ip[10] as int) + ip[11] as int == Checksum.Reference(ip[..10] + [0, 0] + ip[12..])
  }

  // A frame may be padded behind the IPv4 packet.
  predicate Carries(f: seq<Byte>, eth: seq<Byte>, ip: seq<Byte>, m: seq<Byte>, padding: seq<Byte>) {
    f == eth + ip + m + padding && |eth| == 14 && eth[12] == 8 && eth[13] == 0 && HeaderFor(ip, 2, |m|)
  }

  ghost predicate CarriesIgmp(f: seq<Byte>, m: seq<Byte>) {
    exists eth, ip, padding :: Carries(f, eth, ip, m, padding)
  }

  lemma CarriedRead(f: seq<Byte>, eth: seq<Byte>, ip: seq<Byte>, m: seq<Byte>, padding: seq<Byte>)
    requires Carries(f, eth, ip, m, padding)
    ensures Igmp(f) == Some(m)
  {
    var b := f[14..];
    assert b == ip + m + padding;
    assert f[12..][0] == 8 && f[12..][1] == 0;
    PayloadRead(b, ip, m, padding);
  }

  lemma PayloadRead(b: seq<Byte>, ip: seq<Byte>, m: seq<Byte>, padding: seq<Byte>)
    requires b == ip + m + padding && HeaderFor(ip, 2, |m|)
    ensures Ipv4Payload(b, 2) == Some(m)
  {
    var h := |ip|;
    assert b[0] == ip[0] && b[9] == ip[9] && b[..h] == ip;
    assert b[2..][0] == ip[2] && b[2..][1] == ip[3] && b[10..][0] == ip[10] && b[10..][1] == ip[11];
    assert Checksum.Store(ip, 10, 0) == ip[..10] + [0, 0] + ip[12..];
    assert b[h..h + |m|] == m;
  }

  lemma ReadCarried(f: seq<Byte>, m: seq<Byte>)
    requires Igmp(f) == Some(m)
    ensures CarriesIgmp(f, m)
  {
    var b := f[14..];
    var h := b[0] % 16 * 4;
    var ip, padding := b[..h], b[h + |m|..];
    HeaderRead(b, ip, m);
    assert f[12..][0] == f[12] && f[12..][1] == f[13];
    assert f == f[..14] + ip + m + padding;
    assert Carries(f, f[..14], ip, m, padding);
  }

  lemma HeaderRead(b: seq<Byte>, ip: seq<Byte>, m: seq<Byte>)
    requires Ipv4Payload(b, 2) == Some(m) && ip == b[..b[0] % 16 * 4]
    ensures HeaderFor(ip, 2, |m|) && |ip| + |m| <= |b| && b[|ip|..|ip| + |m|] == m
  {
    assert ip[0] == b[0] && ip[9] == b[9];
    assert b[2..][0] == ip[2] && b[2..][1] == ip[3] && b[10..][0] == ip[10] && b[10..][1] == ip[11];
    assert Checksum.Store(ip, 10, 0) == ip[..10] + [0, 0] + ip[12..];
  }

  /** The IGMP message of a frame is what the frame carries as one, and there is none otherwise. */
  lemma IgmpExactly(f: seq<Byte>, m: seq<Byte>)
    ensures Igmp(f) == Some(m) <==> CarriesIgmp(f, m)
  {
    if CarriesIgmp(f, m) {
      var eth, ip, padding :| Carries(f, eth, ip, m, padding);
      CarriedRead(f, eth, ip, m, padding);
    }
    if Igmp(f) == Some(m) {
      ReadCarried(f, m);
    }
  }

  // ----- reports

  // A version 2 report names one group.
  function ReportV2(x: (Byte, Byte, Byte), g: Group): seq<Byte> {
    [0x16, x.0, x.1, x.2] + Be32(g)
  }

  /** A version 2 report joins the group it names, whatever follows. */
  lemma ReportV2Joins(f: seq<Byte>, x: (Byte, Byte, Byte), g: Group, rest: seq<Byte>)
    requires CarriesIgmp(f, ReportV2(x, g) + rest)
    ensures JoinedGroups(f) == [g]
  {
    var m := ReportV2(x, g) + rest;
    IgmpExactly(f, m);
    assert m[0] == 0x16 && m[4..][..4] == Be32(g);
    Be32Read(m[4..], g);
  }

  // A group record, with its source addresses and its auxiliary data.
  datatype Record = Record(kind: Byte, aux: Byte, group: Group, sources: seq<U32>, data: seq<Byte>)

  function Addresses(sources: seq<U32>): (b: seq<Byte>)
    ensures |b| == 4 * |sources|
  {
    if sources == [] then [] else Be32(sources[0]) + Addresses(sources[1..])
  }

  predicate WellFormed(unit: nat, r: Record) {
    |r.sources| <= 65535 && |r.data| == unit * r.aux
  }

  function RecordBytes(r: Record): seq<Byte> {
    [r.kind, r.aux] + Be16(|r.sources| % 0x1_0000) + Be32(r.group) + Addresses(r.sources) + r.data
  }

  function RecordsBytes(rs: seq<Record>): seq<Byte> {
    if rs == [] then [] else RecordBytes(rs[0]) + RecordsBytes(rs[1..])
  }

  // MODE_IS_EXCLUDE and CHANGE_TO_EXCLUDE_MODE join; the include kinds join with sources.
  predicate Joining(r: Record) {
    r.kind == 2 || r.kind == 4 || ((r.kind == 1 || r.kind == 3) && r.sources != [])
  }

  function JoinedBy(rs: seq<Record>): seq<Group> {
    if rs == [] then [] else (if Joining(rs[0]) then [rs[0].group] else []) + JoinedBy(rs[1..])
  }

  // Too short for the record it starts with.
  predicate CutShort(unit: nat, tail: seq<Byte>) {
    |tail| < 8 || |tail| < 8 + 4 * (256 * (tail[2] as nat) + tail[3] as nat) + unit * (tail[1] as nat)
  }

  lemma RecordRead(unit: nat, r: Record, rest: seq<Byte>)
    requires WellFormed(unit, r)
    ensures var b := RecordBytes(r) + rest;
      && HasRecord(unit, b, 1) && b[RecordSize(unit, b)..] == rest
      && (RecordJoins(b[0], FromBe16(b[2..])) <==> Joining(r)) && FromBe32(b[4..]) == r.group
  {
    var b := RecordBytes(r) + rest;
    var n := |r.sources|;
    assert b[0] == r.kind && b[1] == r.aux && b[2..][0] == n / 256 && b[2..][1] == n % 256;
    assert FromBe16(b[2..]) == n;
    assert b[4..][..4] == Be32(r.group);
    Be32Read(b[4..], r.group);
    assert |RecordBytes(r)| == 8 + 4 * n + unit * r.aux;
  }

  lemma FirstRead(unit: nat, r: Record, rest: seq<Byte>, n: nat)
    requires WellFormed(unit, r) && n > 0
    ensures RecordGroups(unit, RecordBytes(r) + rest, n) == (if Joining(r) then [r.group] else []) + RecordGroups(unit, rest, n - 1)
  {
    RecordRead(unit, r, rest);
  }

  // Reading back what was written, and no further than there are whole records.
  lemma {:induction false} RecordsRead(unit: nat, rs: seq<Record>, tail: seq<Byte>, n: nat)
    requires (forall i :: 0 <= i < |rs| ==> WellFormed(unit, rs[i])) && |rs| <= n && (|rs| == n || CutShort(unit, tail))
    ensures RecordGroups(unit, RecordsBytes(rs) + tail, n) == JoinedBy(rs)
    decreases |rs|
  {
    if rs == [] {
      assert RecordsBytes(rs) + tail == tail;
      NothingRead(unit, tail, n);
    } else {
      var rest := RecordsBytes(rs[1..]) + tail;
      RecordsRead(unit, rs[1..], tail, n - 1);
      Assoc(RecordBytes(rs[0]), RecordsBytes(rs[1..]), tail);
      FirstRead(unit, rs[0], rest, n);
    }
  }

  lemma NothingRead(unit: nat, tail: seq<Byte>, n: nat)
    requires n == 0 || CutShort(unit, tail)
    ensures RecordGroups(unit, tail, n) == []
  {
    if |tail| >= 8 {
      assert tail[2..][0] == tail[2] && tail[2..][1] == tail[3];
    }
  }

  // A version 3 report says how many records it has.
  function ReportV3(x: (Byte, Byte, Byte), y: (Byte, Byte), n: U16, rs: seq<Record>): seq<Byte> {
    [0x22, x.0, x.1, x.2, y.0, y.1] + Be16(n) + RecordsBytes(rs)
  }

  /**
    A version 3 report joins, in order, the groups of its whole records that say so.
    Without auxiliary data that is what RFC 3376 says; with it, the program takes the
    length for a count of 256 bytes.
   */
  lemma ReportV3Joins(f: seq<Byte>, x: (Byte, Byte, Byte), y: (Byte, Byte), n: U16, rs: seq<Record>, tail: seq<Byte>)
    requires (forall i :: 0 <= i < |rs| ==> WellFormed(256, rs[i])) && |rs| <= n && (|rs| == n || CutShort(256, tail))
    requires CarriesIgmp(f, ReportV3(x, y, n, rs) + tail)
    ensures JoinedGroups(f) == JoinedBy(rs)
  {
    var m := ReportV3(x, y, n, rs) + tail;
    IgmpExactly(f, m);
    ReportHead(x, y, n, RecordsBytes(rs), tail, m);
    RecordsRead(256, rs, tail, n);
  }

  lemma ReportHead(x: (Byte, Byte, Byte), y: (Byte, Byte), n: U16, b: seq<Byte>, tail: seq<Byte>, m: seq<Byte>)
    requires m == [0x22, x.0, x.1, x.2, y.0, y.1] + Be16(n) + b + tail
    ensures ReportedGroups(256, m) == RecordGroups(256, b + tail, n)
  {
    var rest := m[4..];
    assert m[0] == 0x22;
    assert rest[2..][0] == n / 256 && rest[2..][1] == n % 256;
    assert rest[4..] == b + tail;
  }

  /** Nothing else joins anything. */
  lemma OtherwiseNothing(f: seq<Byte>)
    ensures (forall m :: !CarriesIgmp(f, m)) ==> JoinedGroups(f) == []
    ensures forall m :: CarriesIgmp(f, m) && (|m| < 8 || (m[0] != 0x16 && m[0] != 0x22)) ==> JoinedGroups(f) == []
  {
    if Igmp(f).Some? {
      IgmpExactly(f, Igmp(f).value);
    }
    forall m | CarriesIgmp(f, m) && (|m| < 8 || (m[0] != 0x16 && m[0] != 0x22)) ensures JoinedGroups(f) == [] {
      IgmpExactly(f, m);
    }
  }

  // ----- queries

  // Version 2: exactly eight bytes and a response time.
  predicate QueryV2(m: seq<Byte>, g: Group) {
    |m| == 8 && m[0] == 0x11 && m[1] != 0 && m[4..8] == Be32(g)
  }

  // Version 3: twelve bytes or more, and no sources.
  predicate QueryV3(m: seq<Byte>, g: Group) {
    |m| >= 12 && m[0] == 0x11 && m[4..8] == Be32(g) && m[10] == 0 && m[11] == 0
  }

  /** The group of a query is asked after exactly if the query names a group, in either layout. */
  lemma QueriedExactly(f: seq<Byte>, g: Group)
    ensures QueriedGroup(f) == Some(g) <==> g != 0 && exists m :: CarriesIgmp(f, m) && (QueryV2(m, g) || QueryV3(m, g))
  {
    if g != 0 && exists m :: CarriesIgmp(f, m) && (QueryV2(m, g) || QueryV3(m, g)) {
      var m :| CarriesIgmp(f, m) && (QueryV2(m, g) || QueryV3(m, g));
      IgmpExactly(f, m);
      QueryRead(f, m, g);
    }
    if QueriedGroup(f) == Some(g) {
      var m := Igmp(f).value;
      IgmpExactly(f, m);
      QueryRead(f, m, g);
    }
  }

  lemma QueryRead(f: seq<Byte>, m: seq<Byte>, g: Group)
    requires Igmp(f) == Some(m)
    ensures QueriedGroup(f) == Some(g) <==> g != 0 && (QueryV2(m, g) || QueryV3(m, g))
  {
    if |m| >= 8 {
      var rest := m[4..];
      assert rest[..4] == m[4..8];
      Be32Read(rest, g);
      if |m| >= 12 {
        assert rest[6..][0] == m[10] && rest[6..][1] == m[11];
      }
    }
  }
}
