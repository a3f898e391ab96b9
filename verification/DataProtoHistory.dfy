/**
  What flows, sinks and buffers are like after any run, told from the history alone:
  which flows there are and what they want, what each sink is sending, and where each
  buffer is.
 */
module DataProtoHistory {
  import opened Bytes
  import opened DataProtoModel

  // The buffer a flow was made with, if it has not been freed since.
  function OwnBuf(h: seq<Event>, f: FlowId): Option<BufId> {
    if h == [] then None
    else
      var e := h[|h| - 1];
      if e.NewFlow? && e.f == f then Some(e.b)
      else if e == FreeFlow(f) then None
      else OwnBuf(h[..|h| - 1], f)
  }

  // The sink a flow was last attached to, if it has not been detached since.
  function Wanted(h: seq<Event>, f: FlowId): Option<SinkId> {
    if h == [] then None
    else
      var e := h[|h| - 1];
      if e.Attach? && e.f == f then Some(e.s)
      else if e == Detach(f) || (e.NewFlow? && e.f == f) then None
      else Wanted(h[..|h| - 1], f)
  }

  // What a sink was last told to send, if it is not done; none if there is no such sink.
  function InHand(h: seq<Event>, s: SinkId): Option<Busy> {
    if h == [] then None
    else
      var e := h[|h| - 1];
      if e == NewSink(s) || e == Done(s) then Some(Idle)
      else if e.Start? && e.s == s then Some(e.busy)
      else if e == FreeSink(s) then None
      else InHand(h[..|h| - 1], s)
  }

  lemma StepFlows(st: State, e: Event, f: FlowId)
    requires Inv(st) && Allowed(st, e)
    ensures var t := Step(st, e);
      && (f in t.flows <==> (e.NewFlow? && e.f == f) || (f in st.flows && e != FreeFlow(f)))
      && (f in t.flows ==>
            && t.flows[f].buf == (if e.NewFlow? && e.f == f then e.b else st.flows[f].buf)
            && t.flows[f].desired ==
                 if e.Attach? && e.f == f then Some(e.s)
                 else if e == Detach(f) || (e.NewFlow? && e.f == f) then None
                 else st.flows[f].desired)
  {
  }

  /** In every run, the flows there are, each with its own buffer, want what they were last attached to. */
  lemma {:induction false} FlowsFromHistory(h: seq<Event>, f: FlowId)
    requires Legal(h)
    ensures f in Final(h).flows <==> OwnBuf(h, f).Some?
    ensures f in Final(h).flows ==>
      Final(h).flows[f].buf == OwnBuf(h, f).value && Final(h).flows[f].desired == Wanted(h, f)
  {
    if h != [] {
      FlowsFromHistory(h[..|h| - 1], f);
      StepFlows(Final(h[..|h| - 1]), h[|h| - 1], f);
    }
  }

  lemma StepSinks(st: State, e: Event, s: SinkId)
    requires Inv(st) && Allowed(st, e)
    ensures var t := Step(st, e);
      && (s in t.sinks <==> e == NewSink(s) || (s in st.sinks && e != FreeSink(s)))
      && (s in t.sinks ==>
            t.sinks[s].busy ==
              if e == NewSink(s) || e == Done(s) then Idle
              else if e.Start? && e.s == s then e.busy
              else st.sinks[s].busy)
  {
    if e.FreeSink? || e.Done? {
      assert SinkOk(st, e.s);
    } else if e.FreeFlow? || e.Attach? || e.Detach? {
      assert FlowOk(st, e.f);
    }
  }

  /** In every run, the sinks there are send what they were last told to. */
  lemma {:induction false} SinksFromHistory(h: seq<Event>, s: SinkId)
    requires Legal(h)
    ensures s in Final(h).sinks <==> InHand(h, s).Some?
    ensures s in Final(h).sinks ==> Final(h).sinks[s].busy == InHand(h, s).value
  {
    if h != [] {
      SinksFromHistory(h[..|h| - 1], s);
      StepSinks(Final(h[..|h| - 1]), h[|h| - 1], s);
    }
  }

  // Some sink is in the middle of this buffer's packet.
  ghost predicate MidPacket(h: seq<Event>, b: BufId) {
    exists s: SinkId :: InHand(h, s) == Some(Sending(b))
  }

  /**
    In every run, the buffer of a flow is at the sink that is in the middle of its
    packet, and if there is none, exactly where the flow was last attached.
   */
  lemma BufferFromHistory(h: seq<Event>, f: FlowId)
    requires Legal(h) && OwnBuf(h, f).Some?
    ensures var b := OwnBuf(h, f).value; var st := Final(h);
      && b in st.bufs && st.bufs[b].flow == Some(f)
      && (forall s: SinkId :: InHand(h, s) == Some(Sending(b)) ==> st.bufs[b].sink == Some(s))
      && (!MidPacket(h, b) ==> st.bufs[b].sink == Wanted(h, f))
  {
    var st := Final(h);
    FlowsFromHistory(h, f);
    assert FlowOk(st, f);
    var b := OwnBuf(h, f).value;
    forall s: SinkId | InHand(h, s) == Some(Sending(b)) ensures st.bufs[b].sink == Some(s) {
      SinksFromHistory(h, s);
      assert SinkOk(st, s);
    }
    if !MidPacket(h, b) {
      if IsBusy(st, b) {
        SinksFromHistory(h, st.bufs[b].sink.value);
      }
      Settled(h, b);
    }
  }

  /**
    In every run, a buffer that was ever made is still there exactly if its flow is, or
    if a sink is in the middle of its packet; otherwise it has been freed.
   */
  lemma OrphanFromHistory(h: seq<Event>, b: BufId)
    requires Legal(h) && b in Created(h)
    ensures b in Final(h).bufs <==> (exists f: FlowId :: OwnBuf(h, f) == Some(b)) || MidPacket(h, b)
    ensures b in Final(h).bufs <==> b !in Final(h).freed
  {
    var st := Final(h);
    RunKeeps(h);
    assert b in multiset(Created(h)) && multiset(st.bufs.Keys)[b] + multiset(st.freed)[b] > 0;
    if b in st.bufs {
      assert BufOk(st, b);
      assert b !in st.freed;
      match st.bufs[b].flow
      case Some(f) => FlowsFromHistory(h, f);
      case None =>
        SinksFromHistory(h, st.bufs[b].sink.value);
        assert SinkOk(st, st.bufs[b].sink.value);
    }
    if f: FlowId :| OwnBuf(h, f) == Some(b) {
      FlowsFromHistory(h, f);
      assert FlowOk(st, f);
    }
    if s: SinkId :| InHand(h, s) == Some(Sending(b)) {
      SinksFromHistory(h, s);
      assert SinkOk(st, s);
    }
  }

  /** Attaching or detaching a flow touches no other flow, no other buffer and no other sink. */
  lemma OthersUntouched(st: State, e: Event)
    requires Inv(st) && Allowed(st, e) && (e.Attach? || e.Detach?)
    ensures var t := Step(st, e); var own := st.flows[e.f];
      && t.flows - {e.f} == st.flows - {e.f} && t.bufs - {own.buf} == st.bufs - {own.buf} && t.freed == st.freed
      && own.buf in st.bufs && own.buf in t.bufs && t.bufs[own.buf].flow == st.bufs[own.buf].flow
      && t.sinks.Keys == st.sinks.Keys
      && forall s :: s in st.sinks && Some(s) != st.bufs[own.buf].sink ==>
           t.sinks[s] == st.sinks[s].(dCtr := st.sinks[s].dCtr
             + (if e.Attach? && e.s == s then 1 else 0) - (if e.Detach? && own.desired == Some(s) then 1 else 0))
  {
    assert FlowOk(st, e.f);
  }
}
