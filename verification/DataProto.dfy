/**
  DataProto as it runs: sinks, flows and flow buffers hold references to one another
  (here keys into the object tables), and each operation updates those references
  step by step. The assertions the program makes on the way are proved where it
  makes them; every operation is proved to take the state where the model's step does.
 */
module DataProto {
  import opened Bytes
  import opened DataProtoModel

  class Objects {
    var sinks: map<SinkId, Sink>
    var flows: map<FlowId, Flow>
    var bufs: map<BufId, Buf>
    ghost var freed: seq<BufId>

    ghost function St(): State
      reads this
    {
      State(sinks, flows, bufs, freed)
    }

    constructor ()
      ensures St() == INITIAL
    {
      sinks, flows, bufs, freed := map[], map[], map[], [];
    }

    // Whether the queue of the buffer's sink is sending the buffer's packet.
    predicate FlowIsBusy(b: BufId)
      requires b in bufs && bufs[b].sink.Some? && bufs[b].sink.value in sinks
      reads this
    {
      sinks[bufs[b].sink.value].busy == Sending(b)
    }

    method FlowBufferFree(b: BufId)
      requires b in bufs && bufs[b].sink == None
      modifies this
      ensures St() == old(St()).(bufs := old(bufs) - {b}, freed := old(freed) + [b])
    {
      bufs := bufs - {b};
      freed := freed + [b];
    }

    method FlowBufferAttach(b: BufId, s: SinkId)
      requires b in bufs && bufs[b].sink == None && s in sinks
      modifies this`bufs
      ensures bufs == old(bufs[b := bufs[b].(sink := Some(s))])
    {
      bufs := bufs[b := bufs[b].(sink := Some(s))];
    }

    method FlowBufferDetach(b: BufId)
      requires b in bufs && bufs[b].sink.Some? && bufs[b].sink.value in sinks && !FlowIsBusy(b)
      modifies this`bufs, this`sinks
      ensures bufs == old(bufs[b := bufs[b].(sink := None)])
      ensures var s := old(bufs[b].sink.value);
        sinks == if old(sinks[s].detaching) == Some(b) then old(sinks[s := sinks[s].(detaching := None)]) else old(sinks)
    {
      var s := bufs[b].sink.value;
      if sinks[s].detaching == Some(b) {
        sinks := sinks[s := sinks[s].(detaching := None)];
      }
      bufs := bufs[b := bufs[b].(sink := None)];
    }

    method FlowBufferScheduleDetach(b: BufId)
      requires b in bufs && bufs[b].sink.Some? && bufs[b].sink.value in sinks && FlowIsBusy(b)
      requires sinks[bufs[b].sink.value].detaching in {None, Some(b)}
      modifies this`sinks
      ensures var s := bufs[b].sink.value; sinks == old(sinks[s := sinks[s].(detaching := Some(b))])
    {
      var s := bufs[b].sink.value;
      if sinks[s].detaching == Some(b) {
        assert sinks[s].(detaching := Some(b)) == sinks[s];
        return;
      }
      sinks := sinks[s := sinks[s].(detaching := Some(b))];
    }

    method FlowBufferFinishDetach(b: BufId)
      requires b in bufs && bufs[b].sink.Some? && bufs[b].sink.value in sinks && !FlowIsBusy(b)
      requires sinks[bufs[b].sink.value].detaching == Some(b)
      requires bufs[b].flow.Some? ==> bufs[b].flow.value in flows
      requires bufs[b].flow.Some? && flows[bufs[b].flow.value].desired.Some? ==> flows[bufs[b].flow.value].desired.value in sinks
      modifies this
      ensures St() == old(Finish(St(), bufs[b].sink.value))
    {
      FlowBufferDetach(b);
      if bufs[b].flow.None? {
        FlowBufferFree(b);
      } else if flows[bufs[b].flow.value].desired.Some? {
        FlowBufferAttach(b, flows[bufs[b].flow.value].desired.value);
      }
    }

    method SinkInit(s: SinkId)
      requires Inv(St()) && Allowed(St(), NewSink(s))
      modifies this`sinks
      ensures St() == old(Step(St(), NewSink(s))) && Inv(St())
    {
      StepKeeps(St(), NewSink(s));
      sinks := sinks[s := Sink(None, Idle, 0)];
    }

    method SinkFree(s: SinkId)
      requires Inv(St()) && Allowed(St(), FreeSink(s))
      modifies this
      ensures St() == old(Step(St(), FreeSink(s))) && Inv(St())
    {
      StepKeeps(St(), FreeSink(s));
      assert SinkOk(St(), s);
      // Preparing the queue makes its flows free to go.
      sinks := sinks[s := sinks[s].(busy := Idle)];
      if sinks[s].detaching.Some? {
        var b := sinks[s].detaching.value;
        assert BufOk(old(St()), b);
        assert bufs[b].flow.None? || flows[bufs[b].flow.value].desired != Some(s);
        assert bufs[b].flow.Some? ==> FlowOk(old(St()), bufs[b].flow.value);
        FlowBufferFinishDetach(b);
      }
      sinks := sinks - {s};
      assert sinks == old(sinks) - {s};
    }

    method FlowInit(f: FlowId, b: BufId)
      requires Inv(St()) && Allowed(St(), NewFlow(f, b))
      modifies this
      ensures St() == old(Step(St(), NewFlow(f, b))) && Inv(St())
    {
      StepKeeps(St(), NewFlow(f, b));
      flows := flows[f := Flow(None, b)];
      bufs := bufs[b := Buf(Some(f), None)];
    }

    method FlowFree(f: FlowId)
      requires Inv(St()) && Allowed(St(), FreeFlow(f))
      modifies this
      ensures St() == old(Step(St(), FreeFlow(f))) && Inv(St())
    {
      StepKeeps(St(), FreeFlow(f));
      assert FlowOk(St(), f);
      var b := flows[f].buf;
      assert BufOk(St(), b);
      flows := flows - {f};
      if bufs[b].sink.Some? {
        assert SinkOk(old(St()), bufs[b].sink.value);
        if FlowIsBusy(b) {
          FlowBufferScheduleDetach(b);
          bufs := bufs[b := bufs[b].(flow := None)];
        } else {
          // A flow that wants no sink is at one only while its packet is sent.
          assert false;
        }
      } else {
        FlowBufferFree(b);
      }
    }

    method FlowAttach(f: FlowId, s: SinkId)
      requires Inv(St()) && Allowed(St(), Attach(f, s))
      modifies this
      ensures St() == old(Step(St(), Attach(f, s))) && Inv(St())
    {
      StepKeeps(St(), Attach(f, s));
      assert FlowOk(St(), f);
      var b := flows[f].buf;
      assert BufOk(St(), b);
      if bufs[b].sink.Some? {
        assert SinkOk(St(), bufs[b].sink.value);
        if FlowIsBusy(b) {
          FlowBufferScheduleDetach(b);
        } else {
          // Likewise: detaching and reattaching on the spot never happens.
          assert false;
        }
      } else {
        FlowBufferAttach(b, s);
      }
      flows := flows[f := flows[f].(desired := Some(s))];
      sinks := sinks[s := sinks[s].(dCtr := sinks[s].dCtr + 1)];
    }

    method FlowDetach(f: FlowId)
      requires Inv(St()) && Allowed(St(), Detach(f))
      modifies this
      ensures St() == old(Step(St(), Detach(f))) && Inv(St())
    {
      StepKeeps(St(), Detach(f));
      assert FlowOk(St(), f);
      var b := flows[f].buf;
      assert BufOk(St(), b);
      var s := flows[f].desired.value;
      assert SinkOk(St(), bufs[b].sink.value);
      if FlowIsBusy(b) {
        FlowBufferScheduleDetach(b);
      } else {
        FlowBufferDetach(b);
      }
      flows := flows[f := flows[f].(desired := None)];
      sinks := sinks[s := sinks[s].(dCtr := sinks[s].dCtr - 1)];
    }

    // The queue starts a packet of one of its flows.
    method QueueStart(s: SinkId, busy: Busy)
      requires Inv(St()) && Allowed(St(), Start(s, busy))
      modifies this`sinks
      ensures St() == old(Step(St(), Start(s, busy))) && Inv(St())
    {
      StepKeeps(St(), Start(s, busy));
      sinks := sinks[s := sinks[s].(busy := busy)];
    }

    // The queue is done with a packet: the flow that was busy hears about it if it
    // asked to.
    method QueueDone(s: SinkId)
      requires Inv(St()) && Allowed(St(), Done(s))
      modifies this
      ensures St() == old(Step(St(), Done(s))) && Inv(St())
    {
      StepKeeps(St(), Done(s));
      assert SinkOk(St(), s);
      sinks := sinks[s := sinks[s].(busy := Idle)];
      if sinks[s].detaching.Some? {
        var b := sinks[s].detaching.value;
        assert BufOk(old(St()), b);
        assert bufs[b].flow.Some? ==> FlowOk(old(St()), bufs[b].flow.value);
        FlowBufferFinishDetach(b);
      }
    }
  }
}
