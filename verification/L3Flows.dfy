/**
  Address translation seen from outside: which packets are flows, byte by byte, which
  flows are remembered, from the history alone, and that answers do get through.
 */
module L3Flows {
  import opened Bytes
  import opened Checksum
  import opened L3Nat

  // ----- TCP in IPv4

  // An IPv4 packet with a TCP segment, and whatever follows it in the buffer.
  predicate Laid(p: seq<Byte>, ip: seq<Byte>, tcp: seq<Byte>, rest: seq<Byte>) {
    && p == ip + tcp + rest
    && 20 <= |ip| <= 60 && |ip| % 4 == 0 && ip[0] == 0x40 + |ip| / 4
    && 256 * (ip[2] as int) + ip[3] as int == |ip| + |tcp|
    && ip[9] == 6 && |tcp| >= 20
  }

  function Port(tcp: seq<Byte>, i: nat): U16
    requires i + 1 < |tcp|
  {
    256 * (tcp[i] as int) + tcp[i + 1] as int
  }

  // The flow from the sender to the receiver of a segment.
  function FlowOf(ip: seq<Byte>, tcp: seq<Byte>): Key
    requires |ip| >= 20 && |tcp| >= 20
  {
    Key(ip[12..16], ip[16..20], Port(tcp, 0), Port(tcp, 2))
  }

  // The flags of a segment, the lowest bit first.
  datatype Flags = Flags(fin: bool, syn: bool, rst: bool, psh: bool, ack: bool, urg: bool, ece: bool, cwr: bool)

  function Bit(b: bool): nat {
    if b then 1 else 0
  }

  function Nibble(a: bool, b: bool, c: bool, d: bool): (n: nat)
    ensures n < 16
  {
    Bit(a) + 2 * Bit(b) + 4 * Bit(c) + 8 * Bit(d)
  }

  function FlagByte(f: Flags): Byte {
    Nibble(f.fin, f.syn, f.rst, f.psh) + 16 * Nibble(f.ack, f.urg, f.ece, f.cwr)
  }

  function FlagsOf(b: Byte): Flags {
    var l, h := b % 16, b / 16;
    Flags(l % 2 == 1, l / 2 % 2 == 1, l / 4 % 2 == 1, l / 8 == 1, h % 2 == 1, h / 2 % 2 == 1, h / 4 % 2 == 1, h / 8 == 1)
  }

  lemma NibbleBits(a: bool, b: bool, c: bool, d: bool)
    ensures var n := Nibble(a, b, c, d); (n % 2 == 1 <==> a) && (n / 2 % 2 == 1 <==> b) && (n / 4 % 2 == 1 <==> c) && (n / 8 == 1 <==> d)
  {
  }

  // The flags are read from the byte they make up.
  lemma FlagsReadBack(f: Flags)
    ensures FlagsOf(FlagByte(f)) == f
  {
    NibbleBits(f.fin, f.syn, f.rst, f.psh);
    NibbleBits(f.ack, f.urg, f.ece, f.cwr);
    Nibbles(Nibble(f.fin, f.syn, f.rst, f.psh), Nibble(f.ack, f.urg, f.ece, f.cwr));
    FromNibbles(FlagByte(f), Nibble(f.fin, f.syn, f.rst, f.psh), Nibble(f.ack, f.urg, f.ece, f.cwr));
  }

  lemma Nibbles(l: nat, h: nat)
    requires l < 16
    ensures (l + 16 * h) % 16 == l && (l + 16 * h) / 16 == h
  {
  }

  lemma FromNibbles(b: Byte, l: nat, h: nat)
    requires b % 16 == l && b / 16 == h
    ensures FlagsOf(b) ==
      Flags(l % 2 == 1, l / 2 % 2 == 1, l / 4 % 2 == 1, l / 8 == 1, h % 2 == 1, h / 2 % 2 == 1, h / 4 % 2 == 1, h / 8 == 1)
  {
  }

  lemma FlagsTested(b: Byte)
    ensures FlagSet(b, 1) <==> FlagsOf(b).fin
    ensures FlagSet(b, 4) <==> FlagsOf(b).rst
  {
    var l, h := b % 16, b / 16;
    assert b == 16 * h + l;
    assert b % 2 == l % 2;
    assert b / 4 == 4 * h + l / 4;
  }

  lemma SliceRead(p: seq<Byte>, ip: seq<Byte>, tcp: seq<Byte>, rest: seq<Byte>)
    requires Laid(p, ip, tcp, rest)
    ensures SliceIpv4(p) == Some(ip + tcp) && HeaderLength(ip + tcp) == |ip| && IsTcp(ip + tcp)
  {
    assert p[0] == ip[0] && p[2] == ip[2] && p[3] == ip[3];
    assert p[..|ip| + |tcp|] == ip + tcp;
    assert (ip + tcp)[0] == ip[0] && (ip + tcp)[9] == ip[9];
  }

  lemma FlowRead(ip: seq<Byte>, tcp: seq<Byte>)
    requires |ip| >= 20 && |tcp| >= 20 && IsTcp(ip + tcp) && HeaderLength(ip + tcp) == |ip|
    ensures FlowKey(ip + tcp) == Some(FlowOf(ip, tcp))
  {
    var s, h := ip + tcp, |ip|;
    assert s[12..16] == ip[12..16] && s[16..20] == ip[16..20];
    assert s[h] == tcp[0] && s[h + 1] == tcp[1] && s[h + 2] == tcp[2] && s[h + 3] == tcp[3];
  }

  lemma FlagsRead(ip: seq<Byte>, tcp: seq<Byte>)
    requires |ip| >= 20 && |tcp| >= 20 && IsTcp(ip + tcp) && HeaderLength(ip + tcp) == |ip|
    ensures IsRst(ip + tcp) <==> FlagsOf(tcp[13]).rst
    ensures IsClosing(ip + tcp) <==> FlagsOf(tcp[13]).rst || FlagsOf(tcp[13]).fin
  {
    assert (ip + tcp)[|ip| + 13] == tcp[13];
    FlagsTested(tcp[13]);
  }

  // Whatever has a flow is laid out like that.
  lemma ReadLaid(p: seq<Byte>, s: seq<Byte>) returns (ip: seq<Byte>, tcp: seq<Byte>, rest: seq<Byte>)
    requires SliceIpv4(p) == Some(s) && FlowKey(s).Some?
    ensures Laid(p, ip, tcp, rest) && s == ip + tcp
  {
    var h := HeaderLength(s);
    ip, tcp, rest := s[..h], s[h..], p[|s|..];
    assert s == p[..|s|] && s[0] == p[0];
    assert ip[2] == p[2] && ip[3] == p[3] && ip[9] == s[9] && ip[0] == s[0];
    assert p == s + rest && s == ip + tcp;
  }

  // The client's segment leaves under this flow.
  predicate LeavesAs(p: seq<Byte>, egress: Ip, k: Key, ip: seq<Byte>, tcp: seq<Byte>, rest: seq<Byte>) {
    Laid(p, ip, tcp, rest) && !FlagsOf(tcp[13]).rst && k == FlowOf(ip, tcp).(srcIp := egress)
  }

  /**
    A packet of the client leaves under a flow exactly if it is a TCP segment without
    RST, and the flow is that of its addresses and ports with the node as the source.
   */
  lemma OutFlowExactly(p: seq<Byte>, egress: Ip, k: Key)
    ensures OutFlow(p, egress) == Some(k) <==> exists ip, tcp, rest :: LeavesAs(p, egress, k, ip, tcp, rest)
  {
    if exists ip, tcp, rest :: LeavesAs(p, egress, k, ip, tcp, rest) {
      var ip, tcp, rest :| LeavesAs(p, egress, k, ip, tcp, rest);
      LeavesRead(p, egress, ip, tcp, rest);
    }
    if OutFlow(p, egress) == Some(k) {
      var s := SliceIpv4(p).value;
      OutgoingFlow(s, egress);
      var ip, tcp, rest := ReadLaid(p, s);
      LeavesRead(p, egress, ip, tcp, rest);
      assert LeavesAs(p, egress, k, ip, tcp, rest);
    }
  }

  lemma LeavesRead(p: seq<Byte>, egress: Ip, ip: seq<Byte>, tcp: seq<Byte>, rest: seq<Byte>)
    requires Laid(p, ip, tcp, rest)
    ensures OutFlow(p, egress) == if FlagsOf(tcp[13]).rst then None else Some(FlowOf(ip, tcp).(srcIp := egress))
  {
    SliceRead(p, ip, tcp, rest);
    FlowRead(ip, tcp);
    FlagsRead(ip, tcp);
    OutgoingFlow(ip + tcp, egress);
  }

  // The segment answers this flow.
  predicate Answers(p: seq<Byte>, egress: Ip, k: Key, ip: seq<Byte>, tcp: seq<Byte>, rest: seq<Byte>) {
    && Laid(p, ip, tcp, rest) && ip[16..20] == egress
    && k.srcIp == ip[16..20] && k.dstIp == ip[12..16] && k.srcPort == Port(tcp, 2) && k.dstPort == Port(tcp, 0)
  }

  /**
    A packet from the network answers a flow exactly if it is a TCP segment to the node
    and the flow's addresses and ports are those of the segment, exchanged.
   */
  lemma InFlowExactly(p: seq<Byte>, egress: Ip, k: Key)
    ensures InFlow(p, egress) == Some(k) <==> exists ip, tcp, rest :: Answers(p, egress, k, ip, tcp, rest)
  {
    if exists ip, tcp, rest :: Answers(p, egress, k, ip, tcp, rest) {
      var ip, tcp, rest :| Answers(p, egress, k, ip, tcp, rest);
      AnswersRead(p, egress, ip, tcp, rest);
    }
    if InFlow(p, egress) == Some(k) {
      var s := SliceIpv4(p).value;
      var ip, tcp, rest := ReadLaid(p, s);
      AnswersRead(p, egress, ip, tcp, rest);
      assert Answers(p, egress, k, ip, tcp, rest);
    }
  }

  lemma AnswersRead(p: seq<Byte>, egress: Ip, ip: seq<Byte>, tcp: seq<Byte>, rest: seq<Byte>)
    requires Laid(p, ip, tcp, rest)
    ensures InFlow(p, egress) ==
      if ip[16..20] == egress then Some(Key(ip[16..20], ip[12..16], Port(tcp, 2), Port(tcp, 0))) else None
  {
    SliceRead(p, ip, tcp, rest);
    FlowRead(ip, tcp);
    assert (ip + tcp)[16..20] == ip[16..20];
  }

  /**
    Two segments belong to one connection, in opposite directions, exactly if their
    addresses and ports are exchanged, byte for byte.
   */
  lemma OppositeExactly(ip: seq<Byte>, tcp: seq<Byte>, ip2: seq<Byte>, tcp2: seq<Byte>)
    requires |ip| >= 20 && |tcp| >= 20 && IsTcp(ip + tcp) && HeaderLength(ip + tcp) == |ip|
    requires |ip2| >= 20 && |tcp2| >= 20 && IsTcp(ip2 + tcp2) && HeaderLength(ip2 + tcp2) == |ip2|
    ensures FlowKey(ip2 + tcp2) == Some(Reverse(FlowKey(ip + tcp).value)) <==>
      ip2[12..16] == ip[16..20] && ip2[16..20] == ip[12..16] && tcp2[0..2] == tcp[2..4] && tcp2[2..4] == tcp[0..2]
  {
    FlowRead(ip, tcp);
    FlowRead(ip2, tcp2);
    PortBytes(tcp2, 0, tcp, 2);
    PortBytes(tcp2, 2, tcp, 0);
  }

  lemma PortBytes(a: seq<Byte>, i: nat, b: seq<Byte>, j: nat)
    requires i + 1 < |a| && j + 1 < |b|
    ensures Port(a, i) == Port(b, j) <==> a[i..i + 2] == b[j..j + 2]
  {
    assert a[i..i + 2] == [a[i], a[i + 1]] && b[j..j + 2] == [b[j], b[j + 1]];
  }

  // ----- what is remembered, from the history alone

  // When the flow was last seen and whether it is closing, if it is remembered.
  function Remembered(h: seq<Event>, k: Key): Option<(int, bool)> {
    if h == [] then None
    else
      var r := Remembered(h[..|h| - 1], k);
      match h[|h| - 1]
      case Out(flow, now) => if flow == Some(k) then Some((now, r.Some? && r.value.1)) else r
      case Touch(j, dying, now) => if j == k && r.Some? then Some((now, r.value.1 || dying)) else r
      case Sweep(now) => if r.Some? && now - r.value.0 > (if r.value.1 then 15 else 300) then None else r
      case In(_, _) => r
  }

  /** In every run the table holds precisely the flows that are remembered by the history. */
  lemma {:induction false} TableExactly(h: seq<Event>, k: Key)
    ensures k in Final(h).table <==> Remembered(h, k).Some?
    ensures k in Final(h).table ==> Remembered(h, k) == Some((Final(h).table[k].lastSeen, Final(h).table[k].dying))
  {
    if h != [] {
      TableExactly(h[..|h| - 1], k);
    }
  }

  // Nothing happens to the flow but sweeps.
  predicate Quiet(es: seq<Event>, k: Key) {
    forall i :: 0 <= i < |es| ==>
      !(es[i].Out? && es[i].flow == Some(k)) && !(es[i].Touch? && es[i].k == k)
  }

  predicate SweptAfter(es: seq<Event>, t: int) {
    exists i :: 0 <= i < |es| && es[i].Sweep? && es[i].now > t
  }

  /**
    A flow that nothing is heard of stays exactly until a sweep more than its timeout
    after it was last seen: 300 seconds, or 15 when it is closing.
   */
  lemma {:induction false} QuietFlow(h: seq<Event>, es: seq<Event>, k: Key)
    requires Remembered(h, k).Some? && Quiet(es, k)
    ensures var r := Remembered(h, k).value;
      Remembered(h + es, k) == if SweptAfter(es, r.0 + if r.1 then 15 else 300) then None else Some(r)
    decreases |es|
  {
    if es == [] {
      assert h + es == h;
    } else {
      var front, e := es[..|es| - 1], es[|es| - 1];
      QuietFlow(h, front, k);
      assert (h + es)[..|h + es| - 1] == h + front;
      var r := Remembered(h, k).value;
      SweptNext(es, r.0 + if r.1 then 15 else 300);
    }
  }

  lemma SweptNext(es: seq<Event>, t: int)
    requires es != []
    ensures var e := es[|es| - 1]; SweptAfter(es, t) <==> SweptAfter(es[..|es| - 1], t) || (e.Sweep? && e.now > t)
  {
    var front := es[..|es| - 1];
    if SweptAfter(front, t) {
      var i :| 0 <= i < |front| && front[i].Sweep? && front[i].now > t;
      assert es[i] == front[i];
    }
    if SweptAfter(es, t) {
      var i :| 0 <= i < |es| && es[i].Sweep? && es[i].now > t;
      assert i < |front| ==> front[i] == es[i];
    }
  }

  // ----- answers get through

  // The client's segment is remembered under its flow.
  lemma OutRemembered(h: seq<Event>, p: seq<Byte>, egress: Ip, now: int, ip: seq<Byte>, tcp: seq<Byte>, rest: seq<Byte>)
    requires Laid(p, ip, tcp, rest) && !FlagsOf(tcp[13]).rst
    ensures var r := Remembered(h + [OutEvent(p, egress, now)], FlowOf(ip, tcp).(srcIp := egress)); r.Some? && r.value.0 == now
  {
    LeavesRead(p, egress, ip, tcp, rest);
    var g := h + [OutEvent(p, egress, now)];
    assert g[..|g| - 1] == h;
  }

  // What leaves is the client's packet with the node's address, but for the checksums.
  lemma OutgoingBytes(s: seq<Byte>, egress: Ip)
    requires IsTcp(s) && |s| <= 65535
    ensures var q := Outgoing(s, egress); var h := HeaderLength(s);
      && |q| == |s| && q[12..16] == egress
      && forall i :: 0 <= i < |s| && !(12 <= i < 16) && i != 10 && i != 11 && i != h + 16 && i != h + 17 ==> q[i] == s[i]
  {
    var w, h := WithSource(s, egress), HeaderLength(s);
    assert w[12..16] == egress;
    assert w[0] == s[0] && w[9] == s[9];
    FixedVerifies(w);
    var q := Outgoing(s, egress);
    assert forall i :: 12 <= i < 16 ==> q[i] == w[i];
    assert q[12..16] == w[12..16];
  }

  // What goes back is the packet from the network with the client's address, likewise.
  lemma ReturnedBytes(s: seq<Byte>)
    requires IsTcp(s) && |s| <= 65535
    ensures var q := Returned(s); var h := HeaderLength(s);
      && |q| == |s| && q[16..20] == CLIENT
      && forall i :: 0 <= i < |s| && !(16 <= i < 20) && i != 10 && i != 11 && i != h + 16 && i != h + 17 ==> q[i] == s[i]
  {
    var w, h := WithDest(s, CLIENT), HeaderLength(s);
    assert w[16..20] == CLIENT;
    assert w[0] == s[0] && w[9] == s[9];
    FixedVerifies(w);
    var q := Returned(s);
    assert forall i :: 16 <= i < 20 ==> q[i] == w[i];
    assert q[16..20] == w[16..20];
  }

  /**
    An answer gets through: whenever the flow of a segment the client has sent is
    remembered, a segment from the network whose addresses and ports are those of that
    segment exchanged goes to the client, with the client's address and otherwise
    unchanged but for the checksums.
   */
  lemma AnswerDelivered(h: seq<Event>, egress: Ip, ip: seq<Byte>, tcp: seq<Byte>,
                        back: seq<Byte>, ip2: seq<Byte>, tcp2: seq<Byte>, rest2: seq<Byte>)
    requires |ip| >= 20 && |tcp| >= 20 && Remembered(h, FlowOf(ip, tcp).(srcIp := egress)).Some?
    requires Laid(back, ip2, tcp2, rest2)
    requires ip2[12..16] == ip[16..20] && ip2[16..20] == egress && tcp2[0..2] == tcp[2..4] && tcp2[2..4] == tcp[0..2]
    ensures var s := ip2 + tcp2; var t := Final(h + [InEvent(back, egress)]);
      && |t.toClient| == |Final(h).toClient| + 1 && t.toClient[..|Final(h).toClient|] == Final(h).toClient
      && var q := t.toClient[|Final(h).toClient|];
         && |q| == |s| && q[16..20] == CLIENT
         && forall i :: 0 <= i < |s| && !(16 <= i < 20) && i != 10 && i != 11 && i != |ip2| + 16 && i != |ip2| + 17 ==> q[i] == s[i]
  {
    var k := FlowOf(ip, tcp).(srcIp := egress);
    AnswersRead(back, egress, ip2, tcp2, rest2);
    PortBytes(tcp2, 0, tcp, 2);
    PortBytes(tcp2, 2, tcp, 0);
    assert InFlow(back, egress) == Some(k);
    TableExactly(h, k);
    SliceRead(back, ip2, tcp2, rest2);
    ReturnedBytes(ip2 + tcp2);
    var g := h + [InEvent(back, egress)];
    assert g[..|g| - 1] == h;
  }
}
