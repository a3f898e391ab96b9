/**
  The exit node's address translation: packets of the one client leave with the node's
  own address, a connection table remembers their flows, and only packets that answer
  a remembered flow go back to the client. The table's operations are separate critical
  sections, so packets in both directions and the sweeper interleave freely.
 */
module L3Nat {
  import opened Bytes
  import opened Checksum

  type Ip = b: seq<Byte> | |b| == 4 witness [0, 0, 0, 0]

  const CLIENT: Ip := [10, 10, 10, 2]

  // Timeouts in seconds.
  const ESTABLISHED: int := 300
  const CLOSING: int := 15

  datatype Key = Key(srcIp: Ip, dstIp: Ip, srcPort: U16, dstPort: U16)

  function Reverse(k: Key): (r: Key) {
    Key(k.dstIp, k.srcIp, k.dstPort, k.srcPort)
  }

  // ----- packets

  // The packet without anything behind its total length.
  function SliceIpv4(p: seq<Byte>): (s: Option<seq<Byte>>)
    ensures s.Some? ==> IsIpv4(s.value) && |s.value| <= 65535 && HeaderLength(s.value) >= 20
  {
    if !IsIpv4(p) || HeaderLength(p) < 20 || |p| < HeaderLength(p) then None
    else
      var total := Word(p[2], p[3]);
      if total < HeaderLength(p) || total > |p| then None else Some(p[..total])
  }

  // Only TCP packets have a flow.
  function FlowKey(p: seq<Byte>): Option<Key> {
    if !IsTcp(p) then None
    else
      var h := HeaderLength(p);
      Some(Key(p[12..16], p[16..20], Word(p[h], p[h + 1]), Word(p[h + 2], p[h + 3])))
  }

  predicate FlagSet(flags: Byte, bit: Byte)
    requires bit > 0
  {
    flags / bit % 2 == 1
  }

  // FIN or RST
  predicate IsClosing(p: seq<Byte>)
    requires |p| >= 1
  {
    var h := HeaderLength(p);
    |p| >= h + 14 && (FlagSet(p[h + 13], 1) || FlagSet(p[h + 13], 4))
  }

  predicate IsRst(p: seq<Byte>) {
    IsIpv4(p) && p[9] == 6 && |p| >= HeaderLength(p) + 14 && FlagSet(p[HeaderLength(p) + 13], 4)
  }

  // rewriteSNAT and rewriteDNAT
  function WithSource(p: seq<Byte>, ip: Ip): (r: seq<Byte>)
    requires |p| >= 20
    ensures |r| == |p|
  {
    p[..12] + ip + p[16..]
  }

  function WithDest(p: seq<Byte>, ip: Ip): (r: seq<Byte>)
    requires |p| >= 20
    ensures |r| == |p|
  {
    p[..16] + ip + p[20..]
  }

  // What leaves for the network, and what goes back to the client.
  function Outgoing(p: seq<Byte>, egress: Ip): (r: seq<Byte>)
    requires IsIpv4(p) && |p| <= 65535
  {
    Fixed(WithSource(p, egress))
  }

  function Returned(p: seq<Byte>): (r: seq<Byte>)
    requires IsIpv4(p) && |p| <= 65535
  {
    Fixed(WithDest(p, CLIENT))
  }

  // Putting the checksums right leaves the flow alone.
  lemma FixedKeepsFlow(p: seq<Byte>)
    requires IsIpv4(p) && |p| <= 65535
    ensures FlowKey(Fixed(p)) == FlowKey(p)
  {
    FixedVerifies(p);
    var f := Fixed(p);
    if IsTcp(p) {
      var h := HeaderLength(p);
      assert f[12..16] == p[12..16] && f[16..20] == p[16..20];
    }
  }

  lemma OutgoingFlow(p: seq<Byte>, egress: Ip)
    requires IsIpv4(p) && |p| <= 65535
    ensures var k, k' := FlowKey(p), FlowKey(Outgoing(p, egress));
      k'.Some? == k.Some? && (k.Some? ==> k'.value == k.value.(srcIp := egress))
  {
    var w := WithSource(p, egress);
    assert w[0] == p[0] && w[9] == p[9];
    FixedKeepsFlow(w);
    if IsTcp(p) {
      var h := HeaderLength(p);
      assert w[12..16] == egress && w[16..20] == p[16..20];
      assert w[h] == p[h] && w[h + 1] == p[h + 1] && w[h + 2] == p[h + 2] && w[h + 3] == p[h + 3];
    }
  }

  lemma DestFlow(p: seq<Byte>)
    requires IsIpv4(p) && |p| <= 65535
    ensures var k, k' := FlowKey(p), FlowKey(WithDest(p, CLIENT));
      k'.Some? == k.Some? && (k.Some? ==> k'.value == k.value.(dstIp := CLIENT))
  {
    var w := WithDest(p, CLIENT);
    assert w[0] == p[0] && w[9] == p[9];
    if IsTcp(p) {
      var h := HeaderLength(p);
      assert w[12..16] == p[12..16] && w[16..20] == CLIENT;
      assert w[h] == p[h] && w[h + 1] == p[h + 1] && w[h + 2] == p[h + 2] && w[h + 3] == p[h + 3];
    }
  }

  lemma DestHeader(p: seq<Byte>)
    requires IsIpv4(p)
    ensures var w := WithDest(p, CLIENT);
      && IsIpv4(w) && HeaderLength(w) == HeaderLength(p) && (IsTcp(w) <==> IsTcp(p))
      && (HasHeader(p) ==> Options(w) == Options(p))
  {
    var w := WithDest(p, CLIENT);
    assert w[0] == p[0] && w[9] == p[9];
    if HasHeader(p) {
      assert Options(w) == Options(p);
    }
  }

  lemma ReturnedFlow(p: seq<Byte>)
    requires IsIpv4(p) && |p| <= 65535
    ensures var k, k' := FlowKey(p), FlowKey(Returned(p));
      k'.Some? == k.Some? && (k.Some? ==> k'.value == k.value.(dstIp := CLIENT))
    ensures HasHeader(p) ==> HasHeader(Returned(p)) && (HeaderCheck(Returned(p)) == 0 <==> OptionsVanish(p))
    ensures HasHeader(p) ==> HasHeader(Returned(p)) && Options(Returned(p)) == Options(p)
    ensures IsTcp(p) ==> IsTcp(Returned(p)) && |Returned(p)| <= 65535 && SegmentCheck(Returned(p)) == 0
  {
    var w := WithDest(p, CLIENT);
    DestHeader(p);
    DestFlow(p);
    FixedKeepsFlow(w);
    FixedVerifies(w);
  }

  /**
    Translation is transparent: if the client's packet leaves and a packet with the
    reverse of the flow it left with comes back, the client sees the reverse of the
    flow it sent.
   */
  lemma Transparent(out: seq<Byte>, back: seq<Byte>, egress: Ip)
    requires IsIpv4(out) && |out| <= 65535 && IsIpv4(back) && |back| <= 65535
    requires FlowKey(out).Some? && FlowKey(out).value.srcIp == CLIENT
    requires FlowKey(back).Some? && Reverse(FlowKey(back).value) == FlowKey(Outgoing(out, egress)).value
    ensures FlowKey(Returned(back)) == Some(Reverse(FlowKey(out).value))
  {
    OutgoingFlow(out, egress);
    ReturnedFlow(back);
  }

  // ----- the connection table

  datatype Entry = Entry(lastSeen: int, dying: bool)

  type Table = map<Key, Entry>

  function Inserted(t: Table, k: Key, now: int): Table {
    t[k := if k in t then t[k].(lastSeen := now) else Entry(now, false)]
  }

  function Touched(t: Table, k: Key, dying: bool, now: int): Table {
    if k in t then t[k := Entry(now, t[k].dying || dying)] else t
  }

  predicate Expired(e: Entry, now: int) {
    now - e.lastSeen > if e.dying then CLOSING else ESTABLISHED
  }

  function Swept(t: Table, now: int): Table {
    map k | k in t && !Expired(t[k], now) :: t[k]
  }

  // ----- runs

  // The flow under which an outbound packet is remembered, if it is not dropped.
  function OutFlow(p: seq<Byte>, egress: Ip): Option<Key> {
    var s := SliceIpv4(p);
    if s.None? || IsRst(s.value) then None else FlowKey(Outgoing(s.value, egress))
  }

  // The flow an inbound packet answers, if it is for this node.
  function InFlow(p: seq<Byte>, egress: Ip): Option<Key> {
    var s := SliceIpv4(p);
    if s.None? || s.value[16..20] != egress then None
    else
      var k := FlowKey(s.value);
      if k.None? then None else Some(Reverse(k.value))
  }

  // The critical sections. An outbound packet with a flow is inserted and may then be
  // touched; an inbound one that answers a flow is looked up, may then be touched, and
  // goes to the client; touches come at any time.
  datatype Event =
    | Out(flow: Option<Key>, now: int)
    | Touch(k: Key, dying: bool, now: int)
    | In(flow: Option<Key>, answer: seq<Byte>)
    | Sweep(now: int)

  function OutEvent(p: seq<Byte>, egress: Ip, now: int): Event {
    Out(OutFlow(p, egress), now)
  }

  function InEvent(p: seq<Byte>, egress: Ip): Event {
    In(InFlow(p, egress), if InFlow(p, egress).Some? then Returned(SliceIpv4(p).value) else [])
  }

  datatype State = State(table: Table, toClient: seq<seq<Byte>>)

  function Step(st: State, e: Event): State {
    match e
    case Out(flow, now) => if flow.Some? then st.(table := Inserted(st.table, flow.value, now)) else st
    case Touch(k, dying, now) => st.(table := Touched(st.table, k, dying, now))
    case In(flow, answer) => if flow.Some? && flow.value in st.table then st.(toClient := st.toClient + [answer]) else st
    case Sweep(now) => st.(table := Swept(st.table, now))
  }

  function Final(h: seq<Event>): State {
    if h == [] then State(map[], []) else Step(Final(h[..|h| - 1]), h[|h| - 1])
  }

  // The events of a node with this egress address: packets are whatever they are.
  ghost predicate Genuine(egress: Ip, e: Event) {
    && (e.Out? ==> exists p: seq<Byte> :: e == OutEvent(p, egress, e.now))
    && (e.In? ==> exists p: seq<Byte> :: e == InEvent(p, egress))
  }

  ghost predicate AllGenuine(egress: Ip, h: seq<Event>) {
    forall i :: 0 <= i < |h| ==> Genuine(egress, h[i])
  }

  // The flow was remembered for event i of the history and has been in the table ever
  // since: every sweep has kept it.
  ghost predicate RememberedSince(h: seq<Event>, k: Key, i: nat) {
    && i < |h| && h[i].Out? && h[i].flow == Some(k)
    && forall j :: i < j <= |h| ==> k in Final(h[..j]).table
  }

  lemma {:induction false} TableSince(h: seq<Event>, k: Key) returns (i: nat)
    requires k in Final(h).table
    ensures RememberedSince(h, k, i)
  {
    var front := h[..|h| - 1];
    assert h[..|h|] == h;
    if k in Final(front).table {
      i := TableSince(front, k);
      forall j | i < j <= |h| ensures k in Final(h[..j]).table {
        if j < |h| { assert h[..j] == front[..j]; }
      }
    } else {
      i := |h| - 1;
    }
  }

  lemma OutFlowSource(p: seq<Byte>, egress: Ip)
    ensures OutFlow(p, egress).Some? ==> OutFlow(p, egress).value.srcIp == egress
  {
    var s := SliceIpv4(p);
    if s.Some? {
      OutgoingFlow(s.value, egress);
    }
  }

  /** A flow is in the table only because of an earlier packet of the client. */
  lemma TableSound(egress: Ip, h: seq<Event>, k: Key) returns (i: nat)
    requires AllGenuine(egress, h) && k in Final(h).table
    ensures RememberedSince(h, k, i) && k.srcIp == egress
  {
    i := TableSince(h, k);
    assert Genuine(egress, h[i]);
    var p: seq<Byte> :| h[i] == OutEvent(p, egress, h[i].now);
    OutFlowSource(p, egress);
  }

  // A packet fit for the client: addressed to it, with a segment checksum that checks
  // out, and a header checksum that does exactly if its options add up to nothing.
  predicate ForClient(q: seq<Byte>) {
    && FlowKey(q).Some? && FlowKey(q).value.dstIp == CLIENT
    && IsTcp(q) && |q| <= 65535 && SegmentCheck(q) == 0 && (HeaderCheck(q) == 0 <==> OptionsVanish(q))
  }

  // The flow a packet to the client answers.
  function Answered(q: seq<Byte>, egress: Ip): Option<Key> {
    if FlowKey(q).None? then None else Some(Reverse(FlowKey(q).value).(srcIp := egress))
  }

  lemma ReturnedAnswers(p: seq<Byte>, egress: Ip)
    requires InFlow(p, egress).Some?
    ensures var q := Returned(SliceIpv4(p).value); ForClient(q) && Answered(q, egress) == InFlow(p, egress)
  {
    ReturnedFlow(SliceIpv4(p).value);
  }

  // Packet n to the client was sent at event j, when its flow was in the table.
  lemma {:induction false} SentAt(h: seq<Event>, n: nat) returns (j: nat)
    requires n < |Final(h).toClient|
    ensures j < |h| && h[j].In? && h[j].flow.Some? && h[j].flow.value in Final(h[..j]).table
    ensures Final(h).toClient[n] == h[j].answer
  {
    var front := h[..|h| - 1];
    if n < |Final(front).toClient| {
      j := SentAt(front, n);
      assert front[..j] == h[..j];
    } else {
      j := |h| - 1;
    }
  }

  /**
    Every packet the client gets is addressed to it, has good checksums (the header's
    exactly if its options add up to nothing), and answers a flow that a packet of the
    client opened and that has been remembered ever since.
   */
  lemma OnlyAnswers(egress: Ip, h: seq<Event>, n: nat) returns (j: nat, i: nat)
    requires AllGenuine(egress, h) && n < |Final(h).toClient|
    ensures var q := Final(h).toClient[n];
      && ForClient(q) && Answered(q, egress).Some? && Answered(q, egress).value.srcIp == egress
      && j < |h| && h[j].In? && h[j].answer == q && RememberedSince(h[..j], Answered(q, egress).value, i)
  {
    j := SentAt(h, n);
    assert Genuine(egress, h[j]);
    var p: seq<Byte> :| h[j] == InEvent(p, egress);
    ReturnedAnswers(p, egress);
    i := TableSince(h[..j], h[j].flow.value);
  }

  /** A flow marked as closing stays so for as long as it is remembered. */
  lemma {:induction false} DyingStays(h: seq<Event>, more: seq<Event>, k: Key)
    requires k in Final(h).table && Final(h).table[k].dying
    requires forall j :: |h| <= j <= |h + more| ==> k in Final((h + more)[..j]).table
    ensures k in Final(h + more).table && Final(h + more).table[k].dying
    decreases |more|
  {
    assert (h + more)[..|h + more|] == h + more;
    if more == [] {
      assert h + more == h;
    } else {
      var less := more[..|more| - 1];
      assert (h + more)[..|h + more| - 1] == h + less;
      forall j | |h| <= j <= |h + less| ensures k in Final((h + less)[..j]).table {
        assert (h + less)[..j] == (h + more)[..j];
      }
      DyingStays(h, less, k);
    }
  }

  // ----- the exit node

  class L3Exit {
    const egress: Ip
    var entries: map<Key, Entry>
    ghost var toClient: seq<seq<Byte>>

    ghost function Abs(): State
      reads this
    {
      State(entries, toClient)
    }

    constructor (egress: Ip)
      ensures this.egress == egress && Abs() == State(map[], [])
    {
      this.egress := egress;
      entries, toClient := map[], [];
    }

    method Insert(k: Key, now: int)
      modifies this`entries
      ensures entries == old(Inserted(entries, k, now))
    {
      if k in entries {
        entries := entries[k := entries[k].(lastSeen := now)];
      } else {
        entries := entries[k := Entry(now, false)];
      }
    }

    method TouchEntry(k: Key, dying: bool, now: int)
      modifies this`entries
      ensures entries == old(Touched(entries, k, dying, now))
    {
      if k in entries {
        var e := entries[k].(lastSeen := now);
        if dying {
          e := e.(dying := true);
        }
        entries := entries[k := e];
      }
    }

    // Entries are deleted while the table is walked.
    method SweepTable(now: int)
      modifies this`entries
      ensures entries == old(Swept(entries, now))
    {
      var keys := entries.Keys;
      ghost var all := entries;
      while keys != {}
        invariant keys <= all.Keys
        invariant forall k :: k in entries <==> k in all && (k in keys || !Expired(all[k], now))
        invariant forall k :: k in entries ==> entries[k] == all[k]
        decreases |keys|
      {
        var k :| k in keys;
        if now - entries[k].lastSeen > (if entries[k].dying then CLOSING else ESTABLISHED) {
          entries := entries - {k};
        }
        keys := keys - {k};
      }
    }

    // A packet from the client; what is sent to the network, if anything.
    method HandleFromTransport(pkt: seq<Byte>, now: int) returns (sent: Option<seq<Byte>>)
      modifies this`entries
      ensures sent.Some? <==> OutFlow(pkt, egress).Some?
      ensures sent.Some? ==> SliceIpv4(pkt).Some? && sent.value == Outgoing(SliceIpv4(pkt).value, egress)
      ensures sent.None? ==> entries == old(entries)
      ensures sent.Some? ==> |sent.value| >= 1
      ensures sent.Some? && !IsClosing(sent.value) ==> entries == Step(old(Abs()), OutEvent(pkt, egress, now)).table
      ensures sent.Some? && IsClosing(sent.value) ==>
        entries == Touched(Step(old(Abs()), OutEvent(pkt, egress, now)).table, OutFlow(pkt, egress).value, true, now)
    {
      var sl := SliceIpv4(pkt);
      if sl.None? || IsRst(sl.value) {
        return None;
      }
      var p := Outgoing(sl.value, egress);
      var k := FlowKey(p);
      if k.None? {
        return None;
      }
      Insert(k.value, now);
      if IsClosing(p) {
        TouchEntry(k.value, true, now);
      }
      return Some(p);
    }

    // A packet from the network; what is sent to the client, if anything.
    method HandleFromInternet(pkt: seq<Byte>, now: int) returns (sent: Option<seq<Byte>>)
      modifies this`entries, this`toClient
      ensures sent.Some? <==> InFlow(pkt, egress).Some? && InFlow(pkt, egress).value in old(entries)
      ensures toClient == Step(old(Abs()), InEvent(pkt, egress)).toClient
      ensures sent.Some? ==> toClient == old(toClient) + [sent.value] && SliceIpv4(pkt).Some?
      ensures entries == if sent.Some?
        then old(Touched(entries, InFlow(pkt, egress).value, IsClosing(SliceIpv4(pkt).value), now)) else old(entries)
    {
      var sl := SliceIpv4(pkt);
      if sl.None? || sl.value[16..20] != egress {
        return None;
      }
      var k := FlowKey(sl.value);
      if k.None? {
        return None;
      }
      var rk := Reverse(k.value);
      if rk !in entries {
        return None;
      }
      TouchEntry(rk, IsClosing(sl.value), now);
      sent := Some(Returned(sl.value));
      toClient := toClient + [sent.value];
    }
  }
}
