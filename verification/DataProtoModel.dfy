/**
  Flows, their buffers and the sinks they send to, as the objects DataProto keeps.
  A flow is attached to a sink through its buffer. When the buffer is in the middle
  of a packet it cannot leave its sink at once: the detach is deferred until the
  sink's queue is done with the packet.
 */
module DataProtoModel {
  import opened Bytes
  import Lists

  type SinkId = nat
  type FlowId = nat
  type BufId = nat

  // Whose packet a sink's queue is sending: at most one flow of a queue is busy.
  datatype Busy = Idle | KeepAlive | Sending(buf: BufId)

  // dCtr is the source's debug counter of the flows that want this sink.
  datatype Sink = Sink(detaching: Option<BufId>, busy: Busy, dCtr: int)

  datatype Flow = Flow(desired: Option<SinkId>, buf: BufId)

  datatype Buf = Buf(flow: Option<FlowId>, sink: Option<SinkId>)

  // The objects that exist, and the buffers that have been freed, in order.
  datatype State = State(sinks: map<SinkId, Sink>, flows: map<FlowId, Flow>, bufs: map<BufId, Buf>, freed: seq<BufId>)

  const INITIAL := State(map[], map[], map[], [])

  datatype Event =
    | NewSink(s: SinkId)
    | FreeSink(s: SinkId)
    | NewFlow(f: FlowId, b: BufId)
    | FreeFlow(f: FlowId)
    | Attach(f: FlowId, s: SinkId)
    | Detach(f: FlowId)
    | Start(s: SinkId, busy: Busy)
    | Done(s: SinkId)

  // What callers must respect, and what the queue does on its own: objects are
  // named afresh, a sink is freed only when no flow wants it, a flow only when it
  // wants no sink, and a queue sends for the keep-alive source or an attached buffer.
  predicate Allowed(st: State, e: Event) {
    match e
    case NewSink(s) => s !in st.sinks
    case FreeSink(s) => s in st.sinks && forall f :: f in st.flows ==> st.flows[f].desired != Some(s)
    case NewFlow(f, b) => f !in st.flows && b !in st.bufs && b !in st.freed
    case FreeFlow(f) => f in st.flows && st.flows[f].desired == None
    case Attach(f, s) => f in st.flows && s in st.sinks && st.flows[f].desired == None
    case Detach(f) => f in st.flows && st.flows[f].desired.Some?
    case Start(s, busy) =>
      && s in st.sinks && st.sinks[s].busy.Idle?
      && (busy.KeepAlive? || (busy.Sending? && busy.buf in st.bufs && st.bufs[busy.buf].sink == Some(s)))
    case Done(s) => s in st.sinks && !st.sinks[s].busy.Idle?
  }

  // The buffer's packet is the one its sink is sending.
  predicate IsBusy(st: State, b: BufId) {
    b in st.bufs && st.bufs[b].sink.Some? && st.bufs[b].sink.value in st.sinks &&
    st.sinks[st.bufs[b].sink.value].busy == Sending(b)
  }

  /**
    What the deferral keeps, between any two events:
    flows and buffers point at each other; a flow that wants a sink has a buffer at
    some sink; no pointer is dangling; a buffer that is not where its flow wants it,
    or has lost its flow, is the one its sink has noted as detaching, and that one is
    in the middle of a packet; and a buffer is live or freed, and freed only once.
   */
  predicate Inv(st: State) {
    && (forall f :: f in st.flows ==> FlowOk(st, f))
    && (forall b :: b in st.bufs ==> BufOk(st, b))
    && (forall s :: s in st.sinks ==> SinkOk(st, s))
    && (forall i :: 0 <= i < |st.freed| ==> st.freed[i] !in st.bufs)
    && (forall i, j :: 0 <= i < j < |st.freed| ==> st.freed[i] != st.freed[j])
  }

  predicate FlowOk(st: State, f: FlowId)
    requires f in st.flows
  {
    var b := st.flows[f].buf;
    && b in st.bufs && st.bufs[b].flow == Some(f)
    && (st.flows[f].desired.Some? ==> st.flows[f].desired.value in st.sinks && st.bufs[b].sink.Some?)
  }

  predicate BufOk(st: State, b: BufId)
    requires b in st.bufs
  {
    var Buf(flow, sink) := st.bufs[b];
    && (flow.Some? ==> flow.value in st.flows && st.flows[flow.value].buf == b)
    && (flow.None? ==> sink.Some?)
    && (sink.Some? ==> sink.value in st.sinks)
    && (sink.Some? && (flow.None? || st.flows[flow.value].desired != sink) ==> st.sinks[sink.value].detaching == Some(b))
  }

  predicate SinkOk(st: State, s: SinkId)
    requires s in st.sinks
  {
    var Sink(detaching, busy, _) := st.sinks[s];
    && (detaching.Some? ==> busy == Sending(detaching.value))
    && (busy.Sending? ==> busy.buf in st.bufs && st.bufs[busy.buf].sink == Some(s))
  }

  // The flows that want a sink, and the counter that is supposed to count them.
  ghost function Wanting(flows: map<FlowId, Flow>, s: SinkId): set<FlowId> {
    set f | f in flows && flows[f].desired == Some(s)
  }

  ghost predicate Counted(st: State) {
    forall s :: s in st.sinks ==> st.sinks[s].dCtr == |Wanting(st.flows, s)|
  }

  // ----- the operations

  function Count(st: State, s: SinkId, d: int): State
    requires s in st.sinks
  {
    st.(sinks := st.sinks[s := st.sinks[s].(dCtr := st.sinks[s].dCtr + d)])
  }

  // The buffer goes (or stays) where its flow wants it, or is noted as detaching
  // when its packet is being sent.
  function Settle(st: State, f: FlowId, desired: Option<SinkId>): State
    requires f in st.flows && st.flows[f].buf in st.bufs
  {
    var b := st.flows[f].buf;
    var t := st.(flows := st.flows[f := st.flows[f].(desired := desired)]);
    if IsBusy(st, b) then
      var s := st.bufs[b].sink.value;
      t.(sinks := st.sinks[s := st.sinks[s].(detaching := Some(b))])
    else
      t.(bufs := st.bufs[b := st.bufs[b].(sink := desired)])
  }

  // The deferred half: the buffer leaves the sink for where its flow now wants it,
  // and is freed if it has no flow any more.
  function Finish(st: State, s: SinkId): State
    requires s in st.sinks && st.sinks[s].detaching.Some? && st.sinks[s].detaching.value in st.bufs
    requires var flow := st.bufs[st.sinks[s].detaching.value].flow; flow.Some? ==> flow.value in st.flows
  {
    var b := st.sinks[s].detaching.value;
    var t := st.(sinks := st.sinks[s := st.sinks[s].(detaching := None)]);
    match st.bufs[b].flow
    case None => t.(bufs := st.bufs - {b}, freed := st.freed + [b])
    case Some(f) => t.(bufs := st.bufs[b := st.bufs[b].(sink := st.flows[f].desired)])
  }

  function Step(st: State, e: Event): State
    requires Inv(st) && Allowed(st, e)
  {
    match e
    case NewSink(s) => st.(sinks := st.sinks[s := Sink(None, Idle, 0)])
    case FreeSink(s) =>
      var t := if st.sinks[s].detaching.Some? then Finish(st, s) else st;
      t.(sinks := t.sinks - {s})
    case NewFlow(f, b) => st.(flows := st.flows[f := Flow(None, b)], bufs := st.bufs[b := Buf(Some(f), None)])
    case FreeFlow(f) =>
      var b := st.flows[f].buf;
      var t := st.(flows := st.flows - {f});
      if IsBusy(st, b) then
        var s := st.bufs[b].sink.value;
        t.(bufs := st.bufs[b := st.bufs[b].(flow := None)], sinks := st.sinks[s := st.sinks[s].(detaching := Some(b))])
      else
        t.(bufs := st.bufs - {b}, freed := st.freed + [b])
    case Attach(f, s) => Count(Settle(st, f, Some(s)), s, 1)
    case Detach(f) => Count(Settle(st, f, None), st.flows[f].desired.value, -1)
    case Start(s, busy) => st.(sinks := st.sinks[s := st.sinks[s].(busy := busy)])
    case Done(s) =>
      var t := st.(sinks := st.sinks[s := st.sinks[s].(busy := Idle)]);
      if st.sinks[s].detaching.Some? then Finish(t, s) else t
  }

  // ----- every event keeps the invariant

  lemma SettleKeeps(st: State, f: FlowId, desired: Option<SinkId>)
    requires Inv(st) && f in st.flows && (desired.Some? ==> desired.value in st.sinks)
    ensures Inv(Settle(st, f, desired))
  {
    assert FlowOk(st, f);
    var b := st.flows[f].buf;
    assert BufOk(st, b);
    var t := Settle(st, f, desired);
    forall g | g in t.flows ensures FlowOk(t, g) { assert FlowOk(st, g); }
    forall c | c in t.bufs ensures BufOk(t, c) { SettleBuf(st, f, desired, c); }
    forall s | s in t.sinks ensures SinkOk(t, s) { SettleSink(st, f, desired, s); }
  }

  lemma SettleSink(st: State, f: FlowId, desired: Option<SinkId>, s: SinkId)
    requires Inv(st) && f in st.flows && st.flows[f].buf in st.bufs && (desired.Some? ==> desired.value in st.sinks)
    requires s in Settle(st, f, desired).sinks
    ensures SinkOk(Settle(st, f, desired), s)
  {
    assert FlowOk(st, f);
    assert BufOk(st, st.flows[f].buf);
    assert SinkOk(st, s);
  }

  lemma SettleBuf(st: State, f: FlowId, desired: Option<SinkId>, c: BufId)
    requires Inv(st) && f in st.flows && st.flows[f].buf in st.bufs && (desired.Some? ==> desired.value in st.sinks)
    requires c in Settle(st, f, desired).bufs
    ensures BufOk(Settle(st, f, desired), c)
  {
    assert FlowOk(st, f);
    assert BufOk(st, c);
    if st.bufs[c].sink.Some? { assert SinkOk(st, st.bufs[c].sink.value); }
  }

  lemma CountKeeps(st: State, s: SinkId, d: int)
    requires Inv(st) && s in st.sinks
    ensures Inv(Count(st, s, d))
  {
    var t := Count(st, s, d);
    forall g | g in t.flows ensures FlowOk(t, g) { assert FlowOk(st, g); }
    forall c | c in t.bufs ensures BufOk(t, c) { assert BufOk(st, c); }
    forall r | r in t.sinks ensures SinkOk(t, r) { assert SinkOk(st, r); }
  }

  // Finishing works on a sink whose queue has let go of the packet, or on one that
  // is being freed; afterwards no buffer is attached to it against its flow's will.
  lemma FinishKeeps(st: State, s: SinkId)
    requires Inv(st) && s in st.sinks && st.sinks[s].detaching.Some?
    ensures st.sinks[s].detaching.value in st.bufs
    ensures var t := st.(sinks := st.sinks[s := st.sinks[s].(busy := Idle)]); Inv(Finish(t, s))
  {
    assert SinkOk(st, s);
    var b := st.sinks[s].detaching.value;
    assert BufOk(st, b);
    var z := st.(sinks := st.sinks[s := st.sinks[s].(busy := Idle)]);
    var t := Finish(z, s);
    forall g | g in t.flows ensures FlowOk(t, g) { assert FlowOk(st, g); }
    forall c | c in t.bufs ensures BufOk(t, c) { assert BufOk(st, c); }
    forall r | r in t.sinks ensures SinkOk(t, r) { assert SinkOk(st, r); }
  }

  lemma FreeFlowKeeps(st: State, f: FlowId)
    requires Inv(st) && Allowed(st, FreeFlow(f))
    ensures Inv(Step(st, FreeFlow(f)))
  {
    assert FlowOk(st, f);
    var b := st.flows[f].buf;
    assert BufOk(st, b);
    var t := Step(st, FreeFlow(f));
    forall g | g in t.flows ensures FlowOk(t, g) { assert FlowOk(st, g); }
    forall c | c in t.bufs ensures BufOk(t, c) {
      assert BufOk(st, c);
      if st.bufs[c].sink.Some? { assert SinkOk(st, st.bufs[c].sink.value); }
    }
    forall r | r in t.sinks ensures SinkOk(t, r) { assert SinkOk(st, r); }
  }

  // A sink can be freed: once its detaching buffer has been released nothing is
  // attached to it.
  lemma FreeSinkKeeps(st: State, s: SinkId)
    requires Inv(st) && Allowed(st, FreeSink(s))
    ensures Inv(Step(st, FreeSink(s)))
    ensures forall b :: b in Step(st, FreeSink(s)).bufs ==> Step(st, FreeSink(s)).bufs[b].sink != Some(s)
  {
    assert SinkOk(st, s);
    if st.sinks[s].detaching.Some? {
      FinishKeeps(st, s);
      assert BufOk(st, st.sinks[s].detaching.value);
    }
    var t := Step(st, FreeSink(s));
    forall c | c in t.bufs ensures t.bufs[c].sink != Some(s) && BufOk(t, c) { assert BufOk(st, c); }
    forall g | g in t.flows ensures FlowOk(t, g) { assert FlowOk(st, g); }
    forall r | r in t.sinks ensures SinkOk(t, r) { assert SinkOk(st, r); }
  }

  lemma StepKeeps(st: State, e: Event)
    requires Inv(st) && Allowed(st, e)
    ensures Inv(Step(st, e))
  {
    match e
    case FreeSink(s) => FreeSinkKeeps(st, s);
    case FreeFlow(f) => FreeFlowKeeps(st, f);
    case Attach(f, s) =>
      SettleKeeps(st, f, Some(s));
      CountKeeps(Settle(st, f, Some(s)), s, 1);
    case Detach(f) =>
      assert FlowOk(st, f);
      SettleKeeps(st, f, None);
      CountKeeps(Settle(st, f, None), st.flows[f].desired.value, -1);
    case Done(s) =>
      assert SinkOk(st, s);
      if st.sinks[s].detaching.Some? {
        FinishKeeps(st, s);
      } else {
        PlainKeeps(st, e);
      }
    case _ => PlainKeeps(st, e);
  }

  lemma PlainKeeps(st: State, e: Event)
    requires Inv(st) && Allowed(st, e)
    requires e.NewSink? || e.NewFlow? || e.Start? || (e.Done? && st.sinks[e.s].detaching.None?)
    ensures Inv(Step(st, e))
  {
    var t := Step(st, e);
    forall g | g in t.flows ensures FlowOk(t, g) { if g in st.flows { assert FlowOk(st, g); } }
    forall c | c in t.bufs ensures BufOk(t, c) {
      if c in st.bufs {
        assert BufOk(st, c);
        if st.bufs[c].sink.Some? { assert SinkOk(st, st.bufs[c].sink.value); }
      }
    }
    forall r | r in t.sinks ensures SinkOk(t, r) { if r in st.sinks { assert SinkOk(st, r); } }
  }

  // ----- the debug counter counts

  lemma CountedKeeps(st: State, e: Event)
    requires Inv(st) && Counted(st) && Allowed(st, e)
    ensures Counted(Step(st, e))
  {
    match e
    case Attach(f, r) => AttachCounts(st, f, r);
    case Detach(f) => DetachCounts(st, f);
    case _ => OthersCount(st, e);
  }

  // Wanting another sink moves a flow from one count to the other.
  lemma WantingMoves(flows: map<FlowId, Flow>, f: FlowId, d: Option<SinkId>, s: SinkId)
    requires f in flows && flows[f].desired != d
    ensures |Wanting(flows[f := flows[f].(desired := d)], s)| ==
      |Wanting(flows, s)| + (if d == Some(s) then 1 else 0) - (if flows[f].desired == Some(s) then 1 else 0)
  {
    var rest := Wanting(flows - {f}, s);
    assert Wanting(flows, s) == rest + if flows[f].desired == Some(s) then {f} else {};
    assert Wanting(flows[f := flows[f].(desired := d)], s) == rest + if d == Some(s) then {f} else {};
  }

  lemma AttachCounts(st: State, f: FlowId, r: SinkId)
    requires Inv(st) && Counted(st) && Allowed(st, Attach(f, r))
    ensures Counted(Step(st, Attach(f, r)))
  {
    var t := Step(st, Attach(f, r));
    forall s | s in t.sinks ensures t.sinks[s].dCtr == |Wanting(t.flows, s)| {
      WantingMoves(st.flows, f, Some(r), s);
    }
  }

  lemma DetachCounts(st: State, f: FlowId)
    requires Inv(st) && Counted(st) && Allowed(st, Detach(f))
    ensures Counted(Step(st, Detach(f)))
  {
    var t := Step(st, Detach(f));
    forall s | s in t.sinks ensures t.sinks[s].dCtr == |Wanting(t.flows, s)| {
      WantingMoves(st.flows, f, None, s);
    }
  }

  lemma OthersCount(st: State, e: Event)
    requires Inv(st) && Counted(st) && Allowed(st, e) && !e.Attach? && !e.Detach?
    ensures Counted(Step(st, e))
  {
    var t := Step(st, e);
    forall s | s in t.sinks ensures t.sinks[s].dCtr == |Wanting(t.flows, s)| {
      WantingSame(st, e, s);
      CounterSame(st, e, s);
    }
  }

  lemma CounterSame(st: State, e: Event, s: SinkId)
    requires Inv(st) && Allowed(st, e) && !e.Attach? && !e.Detach? && s in Step(st, e).sinks
    ensures Step(st, e).sinks[s].dCtr == if s in st.sinks then st.sinks[s].dCtr else 0
  {
  }

  lemma WantingSame(st: State, e: Event, s: SinkId)
    requires Inv(st) && Allowed(st, e) && !e.Attach? && !e.Detach?
    ensures Wanting(Step(st, e).flows, s) == if s in st.sinks then Wanting(st.flows, s) else {}
  {
    if s !in st.sinks {
      forall f | f in st.flows ensures st.flows[f].desired != Some(s) { assert FlowOk(st, f); }
    }
  }

  // ----- runs

  predicate Legal(h: seq<Event>)
    decreases h, 0
  {
    h == [] || (Legal(h[..|h| - 1]) && Allowed(Final(h[..|h| - 1]), h[|h| - 1]))
  }

  function Final(h: seq<Event>): (st: State)
    requires Legal(h)
    ensures Inv(st)
    decreases h, 1
  {
    if h == [] then INITIAL
    else
      var st := Final(h[..|h| - 1]);
      StepKeeps(st, h[|h| - 1]);
      Step(st, h[|h| - 1])
  }

  // The buffers allocated in a history.
  function Created(h: seq<Event>): seq<BufId> {
    if h == [] then []
    else if h[|h| - 1].NewFlow? then Created(h[..|h| - 1]) + [h[|h| - 1].b]
    else Created(h[..|h| - 1])
  }

  // An event allocates the buffer it names, and frees what disappears.
  lemma StepConserves(st: State, e: Event)
    requires Inv(st) && Allowed(st, e)
    ensures var t := Step(st, e);
      multiset(t.bufs.Keys) + multiset(t.freed) ==
      multiset(st.bufs.Keys) + multiset(st.freed) + (if e.NewFlow? then multiset{e.b} else multiset{})
  {
    var t := Step(st, e);
    match e
    case NewFlow(f, b) => assert t.bufs.Keys == st.bufs.Keys + {b};
    case FreeFlow(f) => FreeFlowConserves(st, f, t);
    case Attach(f, s) => MoveConserves(st, e, t);
    case Detach(f) => MoveConserves(st, e, t);
    case FreeSink(s) => FinishConserves(st, s, t);
    case Done(s) => FinishConserves(st, s, t);
    case _ =>
  }

  lemma FreeFlowConserves(st: State, f: FlowId, t: State)
    requires Inv(st) && Allowed(st, FreeFlow(f)) && t == Step(st, FreeFlow(f))
    ensures multiset(t.bufs.Keys) + multiset(t.freed) == multiset(st.bufs.Keys) + multiset(st.freed)
  {
    assert FlowOk(st, f);
    if IsBusy(st, st.flows[f].buf) {
      assert t.bufs.Keys == st.bufs.Keys;
    } else {
      KeysFreed(st.bufs, st.flows[f].buf, st.freed);
    }
  }

  lemma MoveConserves(st: State, e: Event, t: State)
    requires Inv(st) && (e.Attach? || e.Detach?) && Allowed(st, e) && t == Step(st, e)
    ensures t.bufs.Keys == st.bufs.Keys && t.freed == st.freed
  {
    assert FlowOk(st, e.f);
  }

  lemma KeysFreed(bufs: map<BufId, Buf>, b: BufId, freed: seq<BufId>)
    requires b in bufs
    ensures multiset((bufs - {b}).Keys) + multiset(freed + [b]) == multiset(bufs.Keys) + multiset(freed)
  {
    assert bufs.Keys == (bufs - {b}).Keys + {b};
  }

  lemma FinishConserves(st: State, s: SinkId, t: State)
    requires Inv(st) && s in st.sinks
    requires (Allowed(st, FreeSink(s)) && t == Step(st, FreeSink(s))) || (Allowed(st, Done(s)) && t == Step(st, Done(s)))
    ensures multiset(t.bufs.Keys) + multiset(t.freed) == multiset(st.bufs.Keys) + multiset(st.freed)
  {
    assert SinkOk(st, s);
    if st.sinks[s].detaching.Some? {
      var b := st.sinks[s].detaching.value;
      assert BufOk(st, b);
      if st.bufs[b].flow.None? {
        KeysFreed(st.bufs, b, st.freed);
      } else {
        assert t.bufs.Keys == st.bufs.Keys;
      }
    }
  }

  /**
    Over every interleaving of attaching, detaching, freeing and queue callbacks the
    invariant holds, the counters count, and the buffers allocated are exactly the
    live ones and the freed ones, none of them freed twice.
   */
  lemma {:induction false} RunKeeps(h: seq<Event>)
    requires Legal(h)
    ensures Inv(Final(h)) && Counted(Final(h))
    ensures multiset(Created(h)) == multiset(Final(h).bufs.Keys) + multiset(Final(h).freed)
    ensures forall b :: multiset(Final(h).freed)[b] <= 1
  {
    if h != [] {
      var front, e := h[..|h| - 1], h[|h| - 1];
      RunKeeps(front);
      CountedKeeps(Final(front), e);
      StepConserves(Final(front), e);
    }
    FreedOnce(Final(h).freed);
  }

  lemma FreedOnce(freed: seq<BufId>)
    requires forall i, j :: 0 <= i < j < |freed| ==> freed[i] != freed[j]
    ensures forall b :: multiset(freed)[b] <= 1
  {
    forall b ensures multiset(freed)[b] <= 1 {
      Lists.NoDupOnce(freed, b);
    }
  }

  /**
    A buffer that is not in the middle of a packet belongs to a flow and is exactly
    where that flow wants it: deferral is the only reason to be elsewhere.
   */
  lemma Settled(h: seq<Event>, b: BufId)
    requires Legal(h) && b in Final(h).bufs && !IsBusy(Final(h), b)
    ensures var st := Final(h);
      && st.bufs[b].flow.Some? && st.bufs[b].flow.value in st.flows
      && st.bufs[b].sink == st.flows[st.bufs[b].flow.value].desired
  {
    var st := Final(h);
    assert BufOk(st, b);
    if st.bufs[b].sink.Some? {
      assert SinkOk(st, st.bufs[b].sink.value);
    } else {
      assert FlowOk(st, st.bufs[b].flow.value);
    }
  }

  // When the queue is done with a packet, a buffer waiting to leave ends up where
  // its flow wants it by then, or is freed if the flow is gone.
  lemma DoneSettles(st: State, s: SinkId)
    requires Inv(st) && Allowed(st, Done(s)) && st.sinks[s].detaching.Some?
    ensures var b := st.sinks[s].detaching.value; var t := Step(st, Done(s));
      if b in t.bufs
      then t.bufs[b].flow.Some? && t.bufs[b].flow.value in t.flows && t.bufs[b].sink == t.flows[t.bufs[b].flow.value].desired
      else b in t.freed && st.bufs[b].flow.None?
  {
    assert SinkOk(st, s);
    assert BufOk(st, st.sinks[s].detaching.value);
  }
}
