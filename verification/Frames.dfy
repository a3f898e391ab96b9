/** What the client reads out of Ethernet frames: addresses, and the IGMP inside IPv4. */
module Frames {
  import opened Bytes
  import Checksum

  // A 48-bit Ethernet address, read as a big-endian number.
  type Mac = m: int | 0 <= m < 0x1_0000_0000_0000

  type Group = U32

  // The low 23 bits of a group address, which are all an Ethernet address keeps of it.
  type Sig = s: int | 0 <= s < 0x80_0000

  const ETHERNET_HEADER: nat := 14
  const ETHERTYPE_IPV4: U16 := 0x0800
  const IPV4_HEADER: nat := 20
  const IPV4_PROTOCOL_IGMP: Byte := 2
  const IGMP_BASE: nat := 4
  const IGMP_MEMBERSHIP_QUERY: Byte := 0x11
  const IGMP_V2_MEMBERSHIP_REPORT: Byte := 0x16
  const IGMP_V3_MEMBERSHIP_REPORT: Byte := 0x22
  const IGMP_V3_QUERY_EXTRA: nat := 8
  const IGMP_V3_RECORD: nat := 8
  const IGMP_SOURCE: nat := 4

  const BROADCAST: Mac := 0xffff_ffff_ffff

  function FromBe32(b: seq<Byte>): U32
    requires |b| >= 4
  {
    0x1_0000 * (FromBe16(b) as int) + FromBe16(b[2..]) as int
  }

  function SigOfGroup(g: Group): Sig {
    g % 0x80_0000
  }

  // The program reads the last four bytes and keeps 23 bits of them.
  function SigOfMac(m: Mac): Sig {
    m % 0x1_0000_0000 % 0x80_0000
  }

  // The address starts with 01-00-5E.
  predicate IsMulticast(m: Mac) {
    m / 0x100_0000 == 0x01005e
  }

  // The Ethernet address of a group, section 6.4 of RFC 1112: the low 23 bits of the
  // group address in the low 23 bits of 01-00-5E-00-00-00.
  function MacOfGroup(g: Group): Mac {
    0x01005e_000000 + g % 0x80_0000
  }

  // Frames to a group's Ethernet address carry the group's own signature.
  lemma MacHasGroupSig(g: Group)
    ensures IsMulticast(MacOfGroup(g)) && SigOfMac(MacOfGroup(g)) == SigOfGroup(g)
  {
    var m, low := MacOfGroup(g), g % 0x80_0000;
    assert m == 0x100 * 0x1_0000_0000 + (0x5e_000000 + low);
    assert m % 0x1_0000_0000 == 0x5e_000000 + low;
    assert 0x5e_000000 == 188 * 0x80_0000;
  }

  function FromBe48(b: seq<Byte>): Mac
    requires |b| >= 6
  {
    0x1_0000_0000 * (FromBe16(b) as int) + FromBe32(b[2..]) as int
  }

  function Dest(f: seq<Byte>): Mac
    requires |f| >= ETHERNET_HEADER
  {
    FromBe48(f)
  }

  function Source(f: seq<Byte>): Mac
    requires |f| >= ETHERNET_HEADER
  {
    FromBe48(f[6..])
  }

  // The payload of an IPv4 packet of the given protocol, if the header is sound.
  function Ipv4Payload(b: seq<Byte>, protocol: Byte): Option<seq<Byte>> {
    if |b| < IPV4_HEADER || b[0] / 16 != 4 then None
    else
      var header := b[0] % 16 * 4;
      var total := FromBe16(b[2..]);
      if header < IPV4_HEADER || header > |b| || total < header || total > |b| then None
      else if FromBe16(b[10..]) != Checksum.Reference(Checksum.Store(b[..header], 10, 0)) then None
      else if b[9] != protocol then None
      else Some(b[header..total])
  }

  function Igmp(f: seq<Byte>): Option<seq<Byte>> {
    if |f| < ETHERNET_HEADER || FromBe16(f[12..]) != ETHERTYPE_IPV4 then None
    else Ipv4Payload(f[ETHERNET_HEADER..], IPV4_PROTOCOL_IGMP)
  }

  // The group of a Group-Specific Query.
  function QueriedGroup(f: seq<Byte>): Option<Group> {
    var igmp := Igmp(f);
    if igmp.None? || |igmp.value| < IGMP_BASE || igmp.value[0] != IGMP_MEMBERSHIP_QUERY then None
    else
      var rest := igmp.value[IGMP_BASE..];
      if |rest| == 4 && igmp.value[1] != 0 then
        if FromBe32(rest) != 0 then Some(FromBe32(rest)) else None
      else if |rest| >= IGMP_V3_QUERY_EXTRA && FromBe32(rest) != 0 && FromBe16(rest[6..]) == 0 then Some(FromBe32(rest))
      else None
  }

  // How many bytes the program takes a unit of auxiliary data for: the length is one
  // byte, which it passes through a 16-bit byte swap.
  const AUX_UNIT: nat := 256

  // Section 4.2.6 of RFC 3376: auxiliary data is counted in 32-bit words.
  const RFC_AUX_UNIT: nat := 4

  // The groups a report joins, in order, up to the first malformed record.
  function JoinedGroups(f: seq<Byte>): seq<Group> {
    var igmp := Igmp(f);
    if igmp.None? then [] else ReportedGroups(AUX_UNIT, igmp.value)
  }

  function ReportedGroups(unit: nat, igmp: seq<Byte>): seq<Group> {
    if |igmp| < IGMP_BASE + 4 then []
    else
      var kind, rest := igmp[0], igmp[IGMP_BASE..];
      if kind == IGMP_V2_MEMBERSHIP_REPORT then [FromBe32(rest)]
      else if kind == IGMP_V3_MEMBERSHIP_REPORT then RecordGroups(unit, rest[4..], FromBe16(rest[2..]))
      else []
  }

  // The size of a report record.
  function RecordSize(unit: nat, b: seq<Byte>): (n: nat)
    requires |b| >= IGMP_V3_RECORD
    ensures n >= IGMP_V3_RECORD
  {
    IGMP_V3_RECORD + IGMP_SOURCE * (FromBe16(b[2..]) as nat) + unit * (b[1] as nat)
  }

  // A whole record is there.
  predicate HasRecord(unit: nat, b: seq<Byte>, n: nat) {
    n > 0 && |b| >= IGMP_V3_RECORD && |b| >= RecordSize(unit, b)
  }

  // An include record without sources leaves the group; any other kind of record
  // except the unknown ones joins it.
  predicate RecordJoins(kind: Byte, sources: U16) {
    kind == 2 || kind == 4 || ((kind == 1 || kind == 3) && sources != 0)
  }

  function RecordGroups(unit: nat, b: seq<Byte>, n: nat): seq<Group> {
    if !HasRecord(unit, b, n) then []
    else
      (if RecordJoins(b[0], FromBe16(b[2..])) then [FromBe32(b[4..])] else [])
      + RecordGroups(unit, b[RecordSize(unit, b)..], n - 1)
  }

  // ----- auxiliary data

  // Where the records that are read start: what is left of the report at each of them.
  function RecordsRead(unit: nat, b: seq<Byte>, n: nat): seq<seq<Byte>> {
    if !HasRecord(unit, b, n) then [] else [b] + RecordsRead(unit, b[RecordSize(unit, b)..], n - 1)
  }

  /**
    When the program reads the same records as the standard. At the first record with
    auxiliary data that is whole by the standard, it must be whole for the program too,
    and neither reading may find another record after it.
   */
  predicate SameReading(b: seq<Byte>, n: nat) {
    if !HasRecord(RFC_AUX_UNIT, b, n) then true
    else if b[1] == 0 then SameReading(b[RecordSize(RFC_AUX_UNIT, b)..], n - 1)
    else
      && HasRecord(AUX_UNIT, b, n)
      && !HasRecord(AUX_UNIT, b[RecordSize(AUX_UNIT, b)..], n - 1)
      && !HasRecord(RFC_AUX_UNIT, b[RecordSize(RFC_AUX_UNIT, b)..], n - 1)
  }

  lemma UnlikeTails(a: seq<Byte>, c: seq<Byte>, n: nat)
    requires |a| != |c|
    ensures RecordsRead(AUX_UNIT, a, n) == RecordsRead(RFC_AUX_UNIT, c, n)
      <==> !HasRecord(AUX_UNIT, a, n) && !HasRecord(RFC_AUX_UNIT, c, n)
  {
    var ra, rc := RecordsRead(AUX_UNIT, a, n), RecordsRead(RFC_AUX_UNIT, c, n);
    if HasRecord(AUX_UNIT, a, n) && HasRecord(RFC_AUX_UNIT, c, n) {
      assert ra[0] == a && rc[0] == c;
    }
  }

  lemma SameTails(a: seq<seq<Byte>>, c: seq<seq<Byte>>, b: seq<Byte>)
    ensures [b] + a == [b] + c <==> a == c
  {
    assert ([b] + a)[1..] == a && ([b] + c)[1..] == c;
  }

  // Exactly when the records read are those of the standard.
  lemma {:induction false} ReadsAsStandard(b: seq<Byte>, n: nat)
    ensures RecordsRead(AUX_UNIT, b, n) == RecordsRead(RFC_AUX_UNIT, b, n) <==> SameReading(b, n)
    decreases n
  {
    if HasRecord(RFC_AUX_UNIT, b, n) && HasRecord(AUX_UNIT, b, n) {
      var ours, theirs := b[RecordSize(AUX_UNIT, b)..], b[RecordSize(RFC_AUX_UNIT, b)..];
      SameTails(RecordsRead(AUX_UNIT, ours, n - 1), RecordsRead(RFC_AUX_UNIT, theirs, n - 1), b);
      if b[1] == 0 {
        ReadsAsStandard(ours, n - 1);
      } else {
        UnlikeTails(ours, theirs, n - 1);
      }
    }
  }

  // The groups of the records at these places.
  function GroupsAt(rs: seq<seq<Byte>>): seq<Group>
    requires forall i :: 0 <= i < |rs| ==> |rs[i]| >= IGMP_V3_RECORD
  {
    if rs == [] then []
    else (if RecordJoins(rs[0][0], FromBe16(rs[0][2..])) then [FromBe32(rs[0][4..])] else []) + GroupsAt(rs[1..])
  }

  lemma {:induction false} GroupsOfRead(unit: nat, b: seq<Byte>, n: nat)
    ensures var rs := RecordsRead(unit, b, n);
      (forall i :: 0 <= i < |rs| ==> |rs[i]| >= IGMP_V3_RECORD) && GroupsAt(rs) == RecordGroups(unit, b, n)
    decreases n
  {
    if HasRecord(unit, b, n) {
      var rest := b[RecordSize(unit, b)..];
      GroupsOfRead(unit, rest, n - 1);
      assert ([b] + RecordsRead(unit, rest, n - 1))[1..] == RecordsRead(unit, rest, n - 1);
    }
  }

  // The records of a version 3 report.
  function Records(igmp: seq<Byte>): (seq<Byte>, nat) {
    if |igmp| < IGMP_BASE + 4 || igmp[0] != IGMP_V3_MEMBERSHIP_REPORT then ([], 0)
    else (igmp[IGMP_BASE..][4..], FromBe16(igmp[IGMP_BASE..][2..]) as nat)
  }

  // A frame whose records are read as the standard says joins the groups it says.
  lemma JoinsAsStandard(f: seq<Byte>)
    requires Igmp(f).Some? && SameReading(Records(Igmp(f).value).0, Records(Igmp(f).value).1)
    ensures JoinedGroups(f) == ReportedGroups(RFC_AUX_UNIT, Igmp(f).value)
  {
    var (b, n) := Records(Igmp(f).value);
    ReadsAsStandard(b, n);
    GroupsOfRead(AUX_UNIT, b, n);
    GroupsOfRead(RFC_AUX_UNIT, b, n);
  }

  // No record but the last one to be read carries auxiliary data.
  predicate AuxOnlyLast(b: seq<Byte>, n: nat) {
    HasRecord(RFC_AUX_UNIT, b, n) && HasRecord(RFC_AUX_UNIT, b[RecordSize(RFC_AUX_UNIT, b)..], n - 1) ==>
      b[1] == 0 && AuxOnlyLast(b[RecordSize(RFC_AUX_UNIT, b)..], n - 1)
  }

  // ...which is needed: otherwise the reading differs.
  lemma {:induction false} AuxBeforeLast(b: seq<Byte>, n: nat)
    requires SameReading(b, n)
    ensures AuxOnlyLast(b, n)
    decreases n
  {
    if HasRecord(RFC_AUX_UNIT, b, n) && b[1] == 0 {
      AuxBeforeLast(b[RecordSize(RFC_AUX_UNIT, b)..], n - 1);
    }
  }

  predicate NoAux(b: seq<Byte>, n: nat) {
    HasRecord(RFC_AUX_UNIT, b, n) ==> b[1] == 0 && NoAux(b[RecordSize(RFC_AUX_UNIT, b)..], n - 1)
  }

  // Reports without auxiliary data, as RFC 3376 has it, are read as the standard says.
  lemma {:induction false} NoAuxSame(b: seq<Byte>, n: nat)
    requires NoAux(b, n)
    ensures SameReading(b, n)
    decreases n
  {
    if HasRecord(RFC_AUX_UNIT, b, n) {
      NoAuxSame(b[RecordSize(RFC_AUX_UNIT, b)..], n - 1);
    }
  }

  // A report that joins two groups, the first record having a word of auxiliary data.
  const FIRST_RECORD: seq<Byte> := [4, 1, 0, 0, 239, 0, 0, 1, 9, 9, 9, 9]
  const SECOND_RECORD: seq<Byte> := [4, 0, 0, 0, 239, 0, 0, 2]
  const REPORT: seq<Byte> := [0x22, 0, 0, 0, 0, 0, 0, 2] + (FIRST_RECORD + SECOND_RECORD)

  lemma SecondRecord()
    ensures RecordGroups(RFC_AUX_UNIT, SECOND_RECORD, 1) == [0xef00_0002]
  {
    var c := SECOND_RECORD;
    assert c[2..][0] == 0 && c[2..][1] == 0 && c[4..] == [239, 0, 0, 2] && c[4..][2..] == [0, 2];
    assert RecordGroups(RFC_AUX_UNIT, c[8..], 0) == [];
  }

  lemma FirstRecord(b: seq<Byte>)
    requires b == FIRST_RECORD + SECOND_RECORD
    ensures RecordGroups(RFC_AUX_UNIT, b, 2) == [0xef00_0001] + RecordGroups(RFC_AUX_UNIT, SECOND_RECORD, 1)
    ensures RecordGroups(AUX_UNIT, b, 2) == []
  {
    assert b[0] == 4 && b[1] == 1 && b[2..][0] == 0 && b[2..][1] == 0;
    assert b[4..][0] == 239 && b[4..][1] == 0 && b[4..][2..][0] == 0 && b[4..][2..][1] == 1;
    assert b[12..] == SECOND_RECORD;
  }

  // By the standard it joins both; the program finds no whole record.
  lemma AuxLosesGroups()
    ensures ReportedGroups(RFC_AUX_UNIT, REPORT) == [0xef00_0001, 0xef00_0002]
    ensures ReportedGroups(AUX_UNIT, REPORT) == []
  {
    var rest := REPORT[IGMP_BASE..];
    assert rest[2..][0] == 0 && rest[2..][1] == 2;
    assert rest[4..] == FIRST_RECORD + SECOND_RECORD;
    FirstRecord(rest[4..]);
    SecondRecord();
  }
}
