/**
  A peer's datagram link from end to end: a run of the cutter, packets of bytes that
  the network reorders, and the assembler fed with them.
 */
module FragmentLink {
  import opened Bytes
  import opened Lists
  import opened FragmentPieces
  import opened FragmentRoundTrip
  import A = FragmentAssembly
  import D = FragmentDisassembly
  import W = FragmentWire
  import R = FragmentAssembler

  // ----- a packet as events

  function Arriving(rs: seq<W.Record>): seq<A.Event> {
    if rs == [] then [] else [A.Arrive(rs[0].id, rs[0].piece)] + Arriving(rs[1..])
  }

  function PacketEvents(rs: seq<W.Record>): seq<A.Event> {
    Arriving(rs) + [A.Tick]
  }

  function Run(cfg: A.Config, s: A.State, es: seq<A.Event>): (t: A.State)
    requires cfg.Ok() && |s.live| <= cfg.numFrames
    ensures |t.live| <= cfg.numFrames
    decreases |es|
  {
    if es == [] then s else Run(cfg, A.Step(cfg, s, es[0]).0, es[1..])
  }

  // All frames delivered, under any id.
  function Deliveries(cfg: A.Config, s: A.State, es: seq<A.Event>): seq<seq<Byte>>
    requires cfg.Ok() && |s.live| <= cfg.numFrames
    decreases |es|
  {
    if es == [] then []
    else
      var r := A.Step(cfg, s, es[0]);
      (if r.1.Some? then [r.1.value] else []) + Deliveries(cfg, r.0, es[1..])
  }

  // The assembler reads a packet, going on after each frame it delivers, and then
  // advances its clock.
  function Absorb(cfg: A.Config, s: A.State, rs: seq<W.Record>): (r: (A.State, seq<seq<Byte>>))
    requires cfg.Ok() && |s.live| <= cfg.numFrames
    ensures |r.0.live| <= cfg.numFrames
    decreases |rs|
  {
    var (t, frame, rest) := R.Consume(cfg, s, rs);
    if frame.None? then (A.Advance(cfg, t), [])
    else
      var r := Absorb(cfg, t, rest);
      (r.0, [frame.value] + r.1)
  }

  lemma AbsorbFirst(cfg: A.Config, s: A.State, rs: seq<W.Record>)
    requires cfg.Ok() && |s.live| <= cfg.numFrames && rs != []
    ensures var r := A.Process(cfg, s, rs[0].id, rs[0].piece); var rest := Absorb(cfg, r.0, rs[1..]);
      Absorb(cfg, s, rs) == (rest.0, (if r.1.Some? then [r.1.value] else []) + rest.1)
  {
    var r := A.Process(cfg, s, rs[0].id, rs[0].piece);
    if r.1.None? {
      assert R.Consume(cfg, s, rs) == R.Consume(cfg, r.0, rs[1..]);
      assert [] + Absorb(cfg, r.0, rs[1..]).1 == Absorb(cfg, r.0, rs[1..]).1;
    }
  }

  lemma ArrivingFirst(cfg: A.Config, s: A.State, rs: seq<W.Record>)
    requires cfg.Ok() && |s.live| <= cfg.numFrames && rs != []
    ensures var r := A.Process(cfg, s, rs[0].id, rs[0].piece); var es := PacketEvents(rs); var rest := PacketEvents(rs[1..]);
      && Run(cfg, s, es) == Run(cfg, r.0, rest)
      && Deliveries(cfg, s, es) == (if r.1.Some? then [r.1.value] else []) + Deliveries(cfg, r.0, rest)
  {
    var e := A.Arrive(rs[0].id, rs[0].piece);
    assert PacketEvents(rs) == [e] + PacketEvents(rs[1..]);
    assert ([e] + PacketEvents(rs[1..]))[1..] == PacketEvents(rs[1..]);
  }

  lemma OnlyTick(cfg: A.Config, s: A.State)
    requires cfg.Ok() && |s.live| <= cfg.numFrames
    ensures Run(cfg, s, [A.Tick]) == A.Advance(cfg, s) && Deliveries(cfg, s, [A.Tick]) == []
  {
    var es := [A.Tick];
    assert es[1..] == [];
    assert Run(cfg, A.Advance(cfg, s), es[1..]) == A.Advance(cfg, s);
    assert Deliveries(cfg, A.Advance(cfg, s), es[1..]) == [];
  }

  // Reading a packet is the arrival of its chunks one by one, and a tick.
  lemma {:induction false} AbsorbIsRun(cfg: A.Config, s: A.State, rs: seq<W.Record>)
    requires cfg.Ok() && |s.live| <= cfg.numFrames
    ensures Absorb(cfg, s, rs) == (Run(cfg, s, PacketEvents(rs)), Deliveries(cfg, s, PacketEvents(rs)))
    decreases |rs|
  {
    if rs == [] {
      assert PacketEvents(rs) == [A.Tick];
      OnlyTick(cfg, s);
    } else {
      var r := A.Process(cfg, s, rs[0].id, rs[0].piece);
      AbsorbIsRun(cfg, r.0, rs[1..]);
      AbsorbFirst(cfg, s, rs);
      ArrivingFirst(cfg, s, rs);
    }
  }

  // ----- what a packet delivers, in any run

  lemma FinalNext(cfg: A.Config, h: seq<A.Event>, e: A.Event)
    requires cfg.Ok()
    ensures A.Final(cfg, h + [e]) == A.Step(cfg, A.Final(cfg, h), e).0
    ensures A.Delivered(cfg, h + [e]) == A.Step(cfg, A.Final(cfg, h), e).1
  {
    assert (h + [e])[..|h + [e]| - 1] == h;
  }

  lemma RunFirst(cfg: A.Config, s: A.State, e: A.Event, es: seq<A.Event>)
    requires cfg.Ok() && |s.live| <= cfg.numFrames
    ensures Run(cfg, s, [e] + es) == Run(cfg, A.Step(cfg, s, e).0, es)
  {
    assert ([e] + es)[1..] == es;
  }

  lemma RunMore(cfg: A.Config, h: seq<A.Event>, e: A.Event, es: seq<A.Event>, t: A.State)
    requires cfg.Ok() && Run(cfg, A.Final(cfg, h + [e]), es) == t
    ensures Run(cfg, A.Final(cfg, h), [e] + es) == t
  {
    FinalNext(cfg, h, e);
    RunFirst(cfg, A.Final(cfg, h), e, es);
  }

  lemma {:induction false} RunIsFinal(cfg: A.Config, h: seq<A.Event>, es: seq<A.Event>, g: seq<A.Event>)
    requires cfg.Ok() && g == h + es
    ensures Run(cfg, A.Final(cfg, h), es) == A.Final(cfg, g)
    decreases |es|
  {
    if es == [] {
      assert g == h;
    } else {
      assert g == h + [es[0]] + es[1..];
      RunIsFinal(cfg, h + [es[0]], es[1..], g);
      RunMore(cfg, h, es[0], es[1..], A.Final(cfg, g));
      assert [es[0]] + es[1..] == es;
    }
  }

  // The frame is spelled by the latest chunks of some id at some point of the history.
  ghost predicate SpelledIn(cfg: A.Config, h: seq<A.Event>, f: seq<Byte>) {
    exists j, ps ::
      && 0 < j <= |h| && h[j - 1].Arrive? && ps != []
      && A.IsSuffix(ps, A.Arrivals(cfg, h[..j], h[j - 1].id)) && Spells(ps, f)
  }

  lemma SpelledNow(cfg: A.Config, h: seq<A.Event>, e: A.Event, rest: seq<A.Event>)
    requires cfg.Ok() && A.Delivered(cfg, h + [e]).Some?
    ensures SpelledIn(cfg, h + [e] + rest, A.Delivered(cfg, h + [e]).value)
  {
    var g, all := h + [e], h + [e] + rest;
    A.DeliverySound(cfg, g);
    var ps :| ps != [] && A.IsSuffix(ps, A.Arrivals(cfg, g, g[|g| - 1].id)) && Spells(ps, A.Delivered(cfg, g).value);
    assert all[..|g|] == g && all[|g| - 1] == g[|g| - 1];
  }

  lemma DeliveriesFirst(cfg: A.Config, h: seq<A.Event>, e: A.Event, es: seq<A.Event>, f: seq<Byte>)
    requires cfg.Ok() && f in Deliveries(cfg, A.Final(cfg, h), [e] + es)
    ensures A.Delivered(cfg, h + [e]) == Some(f) || f in Deliveries(cfg, A.Final(cfg, h + [e]), es)
  {
    FinalNext(cfg, h, e);
    assert ([e] + es)[1..] == es;
  }

  lemma {:induction false} DeliveriesSound(cfg: A.Config, h: seq<A.Event>, es: seq<A.Event>, g: seq<A.Event>, f: seq<Byte>)
    requires cfg.Ok() && g == h + es && f in Deliveries(cfg, A.Final(cfg, h), es)
    ensures SpelledIn(cfg, g, f)
    decreases |es|
  {
    assert g == h + [es[0]] + es[1..];
    assert [es[0]] + es[1..] == es;
    DeliveriesFirst(cfg, h, es[0], es[1..], f);
    if A.Delivered(cfg, h + [es[0]]) == Some(f) {
      SpelledNow(cfg, h, es[0], es[1..]);
    } else {
      DeliveriesSound(cfg, h + [es[0]], es[1..], g, f);
    }
  }

  /**
    After any history, any packet of bytes: reading it continues the history by the
    chunks it parses to and a tick, and every frame it delivers is spelled by the
    latest chunks of one id.
   */
  lemma PacketSound(cfg: A.Config, h: seq<A.Event>, data: seq<Byte>)
    requires cfg.Ok()
    ensures var es := PacketEvents(W.Parse(data)); var r := Absorb(cfg, A.Final(cfg, h), W.Parse(data));
      r.0 == A.Final(cfg, h + es) && forall f :: f in r.1 ==> SpelledIn(cfg, h + es, f)
  {
    var rs := W.Parse(data);
    var es := PacketEvents(rs);
    AbsorbIsRun(cfg, A.Final(cfg, h), rs);
    RunIsFinal(cfg, h, es, h + es);
    forall f | f in Deliveries(cfg, A.Final(cfg, h), es) ensures SpelledIn(cfg, h + es, f) {
      DeliveriesSound(cfg, h, es, h + es, f);
    }
  }

  // ----- a link

  // The packets that reach the assembler, as events.
  function Received(wire: seq<seq<Byte>>): seq<A.Event> {
    if wire == [] then [] else PacketEvents(W.Parse(wire[0])) + Received(wire[1..])
  }

  // What the assembler delivers, packet after packet.
  function LinkOutput(cfg: A.Config, s: A.State, wire: seq<seq<Byte>>): seq<seq<Byte>>
    requires cfg.Ok() && |s.live| <= cfg.numFrames
    decreases |wire|
  {
    if wire == [] then []
    else
      var r := Absorb(cfg, s, W.Parse(wire[0]));
      r.1 + LinkOutput(cfg, r.0, wire[1..])
  }

  lemma {:induction false} DeliveriesConcat(cfg: A.Config, s: A.State, a: seq<A.Event>, b: seq<A.Event>)
    requires cfg.Ok() && |s.live| <= cfg.numFrames
    ensures Deliveries(cfg, s, a + b) == Deliveries(cfg, s, a) + Deliveries(cfg, Run(cfg, s, a), b)
    decreases |a|
  {
    if a == [] {
      assert a + b == b;
    } else {
      var r := A.Step(cfg, s, a[0]);
      DeliveriesConcat(cfg, r.0, a[1..], b);
      assert (a + b)[1..] == a[1..] + b;
      Assoc(if r.1.Some? then [r.1.value] else [], Deliveries(cfg, r.0, a[1..]), Deliveries(cfg, Run(cfg, s, a), b));
    }
  }

  lemma {:induction false} LinkIsHistory(cfg: A.Config, s: A.State, wire: seq<seq<Byte>>)
    requires cfg.Ok() && |s.live| <= cfg.numFrames
    ensures LinkOutput(cfg, s, wire) == Deliveries(cfg, s, Received(wire))
    decreases |wire|
  {
    if wire != [] {
      var rs := W.Parse(wire[0]);
      AbsorbIsRun(cfg, s, rs);
      LinkIsHistory(cfg, Absorb(cfg, s, rs).0, wire[1..]);
      DeliveriesConcat(cfg, s, PacketEvents(rs), Received(wire[1..]));
    }
  }

  lemma {:induction false} OutputAmong(cfg: A.Config, s: A.State, es: seq<A.Event>, x: U16, f: seq<Byte>)
    requires cfg.Ok() && |s.live| <= cfg.numFrames && f in Output(cfg, s, es, x)
    ensures f in Deliveries(cfg, s, es)
    decreases |es|
  {
    var r := A.Step(cfg, s, es[0]);
    if r.1 != Some(f) {
      OutputAmong(cfg, r.0, es[1..], x, f);
    }
  }

  lemma {:induction false} TicksConcat(a: seq<A.Event>, b: seq<A.Event>)
    ensures Ticks(a + b) == Ticks(a) + Ticks(b)
  {
    if a == [] {
      assert a + b == b;
    } else {
      assert (a + b)[1..] == a[1..] + b;
      TicksConcat(a[1..], b);
    }
  }

  lemma {:induction false} PacketTicks(rs: seq<W.Record>)
    ensures Ticks(Arriving(rs)) == 0 && Ticks(PacketEvents(rs)) == 1
  {
    TicksConcat(Arriving(rs), [A.Tick]);
    if rs != [] {
      PacketTicks(rs[1..]);
    }
  }

  lemma {:induction false} ReceivedTicks(wire: seq<seq<Byte>>)
    ensures Ticks(Received(wire)) == |wire|
  {
    if wire != [] {
      ReceivedTicks(wire[1..]);
      PacketTicks(W.Parse(wire[0]));
      TicksConcat(PacketEvents(W.Parse(wire[0])), Received(wire[1..]));
    }
  }

  // A packet the cutter has filled is received as its chunks.
  lemma ReceivedEncoded(rs: seq<W.Record>, wire: seq<seq<Byte>>)
    requires forall r :: r in rs ==> r.Encodable()
    ensures Received([W.Encode(rs)] + wire) == PacketEvents(rs) + Received(wire)
  {
    W.ParseEncode(rs);
    assert ([W.Encode(rs)] + wire)[1..] == wire;
  }

  /**
    A link set up as DatagramPeerIO does (no chunk limit, as many chunk entries as
    fragmentproto_max_chunks_for_frame says). Take any run of the cutter without a frame
    cancelled half way, and any of the frames it has cut. If each of that frame's chunks
    reaches the assembler once, in packets in any order and among chunks of other
    frames, no more than the pool has entries and within its tolerance, then that
    frame, and no other under its number, is delivered.
   */
  lemma LinkRoundTrip(cfg: A.Config, cut: D.Config, h: seq<D.Event>, segs: seq<seq<Piece>>, cur: seq<Piece>, i: nat,
                      s: A.State, wire: seq<seq<Byte>>, ids: set<U16>)
    requires cfg.Ok() && cut.Ok() && cut.chunkMtu < 0
    requires cfg.numChunks == D.MaxChunksForFrame(cut.outputMtu, cfg.mtu)
    requires D.Legal(cut, h) && D.Shaped(cut, h, segs, cur) && i < |D.Frames(cut, h)| && |D.Frames(cut, h)[i]| <= cfg.mtu
    requires A.Inv(cfg, s) && !A.IsLive(s, i % 0x1_0000)
    requires multiset(Mine(Received(wire), i % 0x1_0000)) == multiset(segs[i])
    requires |ids| <= cfg.numFrames && |wire| <= cfg.numFrames
    requires forall t :: t in s.live ==> t.id in ids
    requires forall e :: e in Received(wire) && e.Arrive? ==> e.id in ids
    ensures Output(cfg, s, Received(wire), i % 0x1_0000) == [D.Frames(cut, h)[i]]
    ensures D.Frames(cut, h)[i] in LinkOutput(cfg, s, wire)
  {
    var x, es, f := i % 0x1_0000, Received(wire), D.Frames(cut, h)[i];
    ChunksFit(cut, segs[i], f, cfg.mtu);
    assert NoOlder(s, x, 0) by {
      LiveIffMember(s, x);
    }
    ReceivedTicks(wire);
    Unhurried(cfg, s, x, es, ids, 0);
    RoundTrip(cfg, s, x, es, segs[i], f);
    LinkIsHistory(cfg, s, wire);
    OutputAmong(cfg, s, es, x, f);
  }
}
