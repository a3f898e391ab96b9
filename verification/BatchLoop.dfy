/**
  The coalescing layer in motion: senders put packets into a bounded queue while one
  loop collects them into batches and hands each batch to the channel. Each step of
  the loop may be interleaved with sends in any way.
 */
module BatchLoop {
  import opened Bytes
  import opened Lists
  import opened BatchFraming

  const QUEUE_DEPTH: nat := 4096

  datatype Config = Config(maxBytes: nat, maxCount: nat, linger: nat, z: Zstd) {
    // What the environment variables and the defaults allow.
    ghost predicate Valid() {
      maxBytes > 0 && maxCount > 0 && z.Sound()
    }
  }

  // Where the loop is: waiting for the first packet, absorbing what is queued, or
  // lingering for stragglers, with the batch so far and its size; or stopped.
  datatype Phase = Waiting | Draining | Lingering | Stopped

  datatype State = State(running: bool, queue: seq<Packet>, phase: Phase, batch: seq<Packet>, size: nat, sent: seq<seq<Byte>>)

  const INITIAL := State(true, [], Waiting, [], 0, [])

  datatype Event =
    | Send(p: Packet)
    | Take        // the loop receives from the queue
    | NoMore      // the queue is empty, or the timer fires
    | Flush       // the batch goes out
    | Stop

  predicate Open(cfg: Config, st: State) {
    st.size < cfg.maxBytes && |st.batch| < cfg.maxCount
  }

  // What can happen next. A full batch takes nothing more; lingering needs a timer.
  predicate Allowed(cfg: Config, st: State, e: Event) {
    match e
    case Send(_) => true
    case Take =>
      && st.queue != []
      && (st.phase.Waiting? || ((st.phase.Draining? || st.phase.Lingering?) && Open(cfg, st)))
    case NoMore => Open(cfg, st) && ((st.phase.Draining? && st.queue == []) || st.phase.Lingering?)
    case Flush => (st.phase.Draining? || st.phase.Lingering?) && !Open(cfg, st)
    case Stop => true
  }

  // Whether a send is taken; otherwise the sender is told that the queue is full.
  predicate Accepts(st: State) {
    |st.queue| < QUEUE_DEPTH
  }

  function Emit(cfg: Config, st: State): State {
    st.(phase := if st.running then Waiting else Stopped, batch := [], size := 0, sent := st.sent + [Encode(cfg.z, st.batch)])
  }

  function Step(cfg: Config, st: State, e: Event): State
    requires Allowed(cfg, st, e)
  {
    match e
    case Send(p) => if Accepts(st) then st.(queue := st.queue + [p]) else st
    case Take =>
      var p := st.queue[0];
      st.(queue := st.queue[1..], phase := if st.phase.Waiting? then Draining else st.phase,
          batch := st.batch + [p], size := st.size + 2 + |p|)
    case NoMore => if st.phase.Draining? && cfg.linger > 0 then st.(phase := Lingering) else Emit(cfg, st)
    case Flush => Emit(cfg, st)
    case Stop => st.(running := false)
  }

  // A batch that may be sent: not empty, not too many packets, and not full before
  // its last packet came.
  ghost predicate Bounded(cfg: Config, batch: seq<Packet>) {
    && 1 <= |batch| <= cfg.maxCount
    && (|batch| > 1 ==> FramedSize(batch[..|batch| - 1]) < cfg.maxBytes)
  }

  ghost predicate Inv(cfg: Config, st: State) {
    && st.size == FramedSize(st.batch)
    && |st.queue| <= QUEUE_DEPTH
    && (st.phase.Waiting? || st.phase.Stopped? ==> st.batch == [])
    && (st.phase.Draining? || st.phase.Lingering? ==> Bounded(cfg, st.batch))
  }

  lemma StepKeeps(cfg: Config, st: State, e: Event)
    requires cfg.Valid() && Inv(cfg, st) && Allowed(cfg, st, e)
    ensures Inv(cfg, Step(cfg, st, e))
  {
    match e
    case Take => TakeKeeps(cfg, st);
    case _ =>
  }

  lemma TakeKeeps(cfg: Config, st: State)
    requires cfg.maxBytes > 0 && cfg.maxCount > 0 && Inv(cfg, st) && Allowed(cfg, st, Take)
    ensures Inv(cfg, Step(cfg, st, Take))
  {
    BatchGrows(cfg, st.batch, st.queue[0]);
  }

  lemma BatchGrows(cfg: Config, batch: seq<Packet>, p: Packet)
    requires |batch| < cfg.maxCount && (batch != [] ==> FramedSize(batch) < cfg.maxBytes)
    ensures Bounded(cfg, batch + [p]) && FramedSize(batch + [p]) == FramedSize(batch) + 2 + |p|
  {
    assert (batch + [p])[..|batch|] == batch;
  }

  // ----- runs

  predicate Legal(cfg: Config, h: seq<Event>)
    decreases h, 0
  {
    h == [] || (Legal(cfg, h[..|h| - 1]) && Allowed(cfg, Final(cfg, h[..|h| - 1]), h[|h| - 1]))
  }

  function Final(cfg: Config, h: seq<Event>): State
    requires Legal(cfg, h)
    decreases h, 1
  {
    if h == [] then INITIAL else Step(cfg, Final(cfg, h[..|h| - 1]), h[|h| - 1])
  }

  // The packets whose sends were accepted.
  function Accepted(cfg: Config, h: seq<Event>): seq<Packet>
    requires Legal(cfg, h)
  {
    if h == [] then []
    else
      var front, e := h[..|h| - 1], h[|h| - 1];
      Accepted(cfg, front) + if e.Send? && Accepts(Final(cfg, front)) then [e.p] else []
  }

  // What the receiver makes of the messages, in order; undecodable ones are dropped.
  function Received(z: Zstd, sent: seq<seq<Byte>>): seq<Packet> {
    if sent == [] then []
    else
      var r := Decode(z, sent[|sent| - 1]);
      Received(z, sent[..|sent| - 1]) + if r.Some? then r.value else []
  }

  // Every message is a batch within the bounds.
  ghost predicate AllBounded(cfg: Config, sent: seq<seq<Byte>>) {
    forall i :: 0 <= i < |sent| ==> exists b :: sent[i] == Encode(cfg.z, b) && Bounded(cfg, b)
  }

  // A packet with its length prefix.
  const MAX_RECORD: nat := 65537

  // The most that a batch within the bounds can come to.
  function MaxFramed(cfg: Config): nat {
    if cfg.maxBytes + MAX_RECORD - 1 <= cfg.maxCount * MAX_RECORD then cfg.maxBytes + MAX_RECORD - 1 else cfg.maxCount * MAX_RECORD
  }

  // No batch within the bounds is more than decompression can produce.
  predicate Unpackable(cfg: Config) {
    MaxFramed(cfg) <= MAX_UNPACKED
  }

  lemma {:induction false} CountedSize(batch: seq<Packet>)
    requires Short(batch)
    ensures FramedSize(batch) <= |batch| * MAX_RECORD
  {
    if batch != [] {
      CountedSize(batch[..|batch| - 1]);
      assert |batch[|batch| - 1]| <= 65535;
      assert (|batch| - 1) * MAX_RECORD + MAX_RECORD == |batch| * MAX_RECORD;
    }
  }

  lemma BoundedSize(cfg: Config, batch: seq<Packet>)
    requires cfg.Valid() && Bounded(cfg, batch) && Short(batch)
    ensures |Framed(batch)| <= MaxFramed(cfg)
  {
    FramedSizeIs(batch);
    CountedSize(batch);
    assert |batch| * MAX_RECORD <= cfg.maxCount * MAX_RECORD;
    if |batch| == 1 {
      assert batch[..0] == [];
    }
  }

  lemma EmitDelivers(cfg: Config, st: State)
    requires cfg.Valid() && Unpackable(cfg) && Bounded(cfg, st.batch) && Short(st.batch)
    ensures Received(cfg.z, Emit(cfg, st).sent) == Received(cfg.z, st.sent) + st.batch
  {
    BoundedSize(cfg, st.batch);
    BatchRoundTrip(cfg.z, st.batch);
    var m := Encode(cfg.z, st.batch);
    assert (st.sent + [m])[..|st.sent|] == st.sent;
  }

  // Packets only move: accepted ones into the queue, from there into the batch, and
  // from there to the receiver.
  lemma StepConserves(cfg: Config, st: State, e: Event, done: seq<Packet>)
    requires cfg.Valid() && Unpackable(cfg) && Inv(cfg, st) && Allowed(cfg, st, e)
    requires Short(done) && done == Received(cfg.z, st.sent) + st.batch + st.queue
    requires e.Send? ==> |e.p| <= 65535
    ensures var t := Step(cfg, st, e);
      done + (if e.Send? && Accepts(st) then [e.p] else []) == Received(cfg.z, t.sent) + t.batch + t.queue
  {
    var r := Received(cfg.z, st.sent);
    match e
    case Send(p) =>
      Assoc(r + st.batch, st.queue, [p]);
    case Take =>
      assert st.queue == [st.queue[0]] + st.queue[1..];
      Assoc(r + st.batch, [st.queue[0]], st.queue[1..]);
      Assoc(r, st.batch, [st.queue[0]]);
    case NoMore => if !(st.phase.Draining? && cfg.linger > 0) { EmitConserves(cfg, st, done); }
    case Flush => EmitConserves(cfg, st, done);
    case Stop =>
  }

  lemma EmitConserves(cfg: Config, st: State, done: seq<Packet>)
    requires cfg.Valid() && Unpackable(cfg) && Bounded(cfg, st.batch)
    requires Short(done) && done == Received(cfg.z, st.sent) + st.batch + st.queue
    ensures var t := Emit(cfg, st); done == Received(cfg.z, t.sent) + t.batch + t.queue
  {
    var r := Received(cfg.z, st.sent);
    forall i | 0 <= i < |st.batch| ensures |st.batch[i]| <= 65535 {
      assert done[|r| + i] == st.batch[i];
    }
    EmitDelivers(cfg, st);
    EmptyUnits(r, st.batch);
  }

  /**
    In every interleaving of sends with the loop, nothing is lost, duplicated or
    reordered: what the receiver has, then the batch being filled, then the queue, is
    the sequence of packets that were accepted. Every message is within the bounds.
   */
  lemma {:induction false} RunConserves(cfg: Config, h: seq<Event>)
    requires cfg.Valid() && Unpackable(cfg) && Legal(cfg, h)
    requires forall i :: 0 <= i < |h| && h[i].Send? ==> |h[i].p| <= 65535
    ensures var st := Final(cfg, h);
      && Inv(cfg, st) && Short(Accepted(cfg, h))
      && Accepted(cfg, h) == Received(cfg.z, st.sent) + st.batch + st.queue
  {
    if h != [] {
      var front, e := h[..|h| - 1], h[|h| - 1];
      assert h[|h| - 1] == e;
      RunConserves(cfg, front);
      StepKeeps(cfg, Final(cfg, front), e);
      StepConserves(cfg, Final(cfg, front), e, Accepted(cfg, front));
    }
  }

  lemma {:induction false} RunBounded(cfg: Config, h: seq<Event>)
    requires cfg.Valid() && Legal(cfg, h)
    ensures Inv(cfg, Final(cfg, h)) && AllBounded(cfg, Final(cfg, h).sent)
  {
    if h != [] {
      var front, e := h[..|h| - 1], h[|h| - 1];
      RunBounded(cfg, front);
      var st := Final(cfg, front);
      StepKeeps(cfg, st, e);
      var t := Final(cfg, h);
      forall i | 0 <= i < |t.sent| ensures exists b :: t.sent[i] == Encode(cfg.z, b) && Bounded(cfg, b) {
        if i == |st.sent| {
          assert t.sent[i] == Encode(cfg.z, st.batch) && Bounded(cfg, st.batch);
        }
      }
    }
  }

  // The receiver's packets are a prefix of the accepted ones, in order.
  lemma ReceivedPrefix(cfg: Config, h: seq<Event>)
    requires cfg.Valid() && Unpackable(cfg) && Legal(cfg, h)
    requires forall i :: 0 <= i < |h| && h[i].Send? ==> |h[i].p| <= 65535
    ensures Received(cfg.z, Final(cfg, h).sent) <= Accepted(cfg, h)
    ensures Final(cfg, h).phase.Waiting? && Final(cfg, h).queue == [] ==>
      Received(cfg.z, Final(cfg, h).sent) == Accepted(cfg, h)
  {
    RunConserves(cfg, h);
    var st := Final(cfg, h);
    Assoc(Received(cfg.z, st.sent), st.batch, st.queue);
  }

  // ----- when batches can be too big

  lemma Extend(cfg: Config, h: seq<Event>, e: Event)
    requires Legal(cfg, h) && Allowed(cfg, Final(cfg, h), e)
    ensures Legal(cfg, h + [e]) && Final(cfg, h + [e]) == Step(cfg, Final(cfg, h), e)
    ensures Accepted(cfg, h + [e]) == Accepted(cfg, h) + if e.Send? && Accepts(Final(cfg, h)) then [e.p] else []
  {
    assert (h + [e])[..|h + [e]| - 1] == h;
  }

  // A run of short packets leads to this state, these packets having been accepted.
  ghost predicate Reaches(cfg: Config, h: seq<Event>, st: State, accepted: seq<Packet>) {
    && Legal(cfg, h) && Final(cfg, h) == st && Accepted(cfg, h) == accepted
    && forall i :: 0 <= i < |h| && h[i].Send? ==> |h[i].p| <= 65535
  }

  lemma ReachNext(cfg: Config, h: seq<Event>, st: State, accepted: seq<Packet>, e: Event)
    requires Reaches(cfg, h, st, accepted) && Allowed(cfg, st, e) && (e.Send? ==> |e.p| <= 65535)
    ensures Reaches(cfg, h + [e], Step(cfg, st, e), accepted + if e.Send? && Accepts(st) then [e.p] else [])
  {
    Extend(cfg, h, e);
  }

  // The loop has taken these packets one by one, and sent nothing yet.
  function Collected(pkts: seq<Packet>): State {
    State(true, [], if pkts == [] then Waiting else Draining, pkts, FramedSize(pkts), [])
  }

  lemma {:induction false} Collects(cfg: Config, pkts: seq<Packet>) returns (h: seq<Event>)
    requires Short(pkts) && |pkts| <= cfg.maxCount
    requires pkts != [] ==> FramedSize(pkts[..|pkts| - 1]) < cfg.maxBytes
    ensures Reaches(cfg, h, Collected(pkts), pkts)
    decreases |pkts|
  {
    h := [];
    if pkts != [] {
      var front, p := pkts[..|pkts| - 1], pkts[|pkts| - 1];
      OpenBefore(cfg, front);
      var g := Collects(cfg, front);
      h := CollectsOne(cfg, g, front, p, pkts);
    }
  }

  lemma OpenBefore(cfg: Config, pkts: seq<Packet>)
    requires FramedSize(pkts) < cfg.maxBytes
    ensures pkts != [] ==> FramedSize(pkts[..|pkts| - 1]) < cfg.maxBytes
  {
  }

  lemma CollectsOne(cfg: Config, g: seq<Event>, front: seq<Packet>, p: Packet, pkts: seq<Packet>) returns (h: seq<Event>)
    requires Reaches(cfg, g, Collected(front), front) && |front| < cfg.maxCount && FramedSize(front) < cfg.maxBytes && |p| <= 65535
    requires pkts == front + [p]
    ensures Reaches(cfg, h, Collected(pkts), pkts)
  {
    var st := Collected(front);
    SentAndTaken(cfg, st, p);
    var mid := Step(cfg, st, Send(p));
    ReachNext(cfg, g, st, front, Send(p));
    ReachNext(cfg, g + [Send(p)], mid, pkts, Take);
    h := g + [Send(p)] + [Take];
    SizeSnoc(front, p);
    EmptyUnits(pkts, []);
  }

  lemma SentAndTaken(cfg: Config, st: State, p: Packet)
    requires st.queue == [] && Open(cfg, st) && (st.phase.Waiting? || st.phase.Draining?)
    ensures Allowed(cfg, Step(cfg, st, Send(p)), Take)
    ensures Step(cfg, Step(cfg, st, Send(p)), Take) == st.(phase := Draining, batch := st.batch + [p], size := st.size + 2 + |p|)
  {
    assert [] + [p] == [p] && [p][1..] == [];
  }

  // The batch goes out as it is.
  lemma GoesOut(cfg: Config, g: seq<Event>, pkts: seq<Packet>) returns (h: seq<Event>)
    requires Reaches(cfg, g, Collected(pkts), pkts) && pkts != []
    ensures Reaches(cfg, h, State(true, [], Waiting, [], 0, [Encode(cfg.z, pkts)]), pkts)
  {
    var st := Collected(pkts);
    EmptyUnits(pkts, []);
    assert [] + [Encode(cfg.z, pkts)] == [Encode(cfg.z, pkts)];
    if !Open(cfg, st) {
      ReachNext(cfg, g, st, pkts, Flush);
      h := g + [Flush];
    } else {
      ReachNext(cfg, g, st, pkts, NoMore);
      h := g + [NoMore];
      if cfg.linger > 0 {
        ReachNext(cfg, h, Step(cfg, st, NoMore), pkts, NoMore);
        h := h + [NoMore];
      }
    }
  }

  // Zero bytes.
  function Zeros(n: nat): Packet {
    seq(n, _ => 0)
  }

  function Repeated(p: Packet, n: nat): seq<Packet> {
    seq(n, _ => p)
  }

  lemma {:induction false} RepeatedSize(p: Packet, n: nat)
    ensures FramedSize(Repeated(p, n)) == n * (2 + |p|)
  {
    if n > 0 {
      RepeatedSize(p, n - 1);
      assert Repeated(p, n)[..n - 1] == Repeated(p, n - 1);
      assert (n - 1) * (2 + |p|) + (2 + |p|) == n * (2 + |p|);
    }
  }

  // 127 packets that leave the batch just open, and a full one.
  function BigFront(cfg: Config): seq<Packet>
    requires !Unpackable(cfg)
  {
    var short: nat := if cfg.maxBytes <= 127 * MAX_RECORD then 127 * MAX_RECORD + 1 - cfg.maxBytes else 0;
    Repeated(Zeros(65535), 126) + [Zeros(65535 - short)]
  }

  function BigBatch(cfg: Config): seq<Packet>
    requires !Unpackable(cfg)
  {
    BigFront(cfg) + [Zeros(65535)]
  }

  lemma SizeSnoc(pkts: seq<Packet>, p: Packet)
    ensures FramedSize(pkts + [p]) == FramedSize(pkts) + 2 + |p|
  {
    assert (pkts + [p])[..|pkts|] == pkts;
  }

  lemma BigIsBounded(cfg: Config)
    requires cfg.Valid() && !Unpackable(cfg)
    ensures var b := BigBatch(cfg); Short(b) && Bounded(cfg, b) && |Framed(b)| > MAX_UNPACKED && b[..|b| - 1] == BigFront(cfg)
  {
    assert cfg.maxCount >= 128;
    BigSize(cfg);
    var b := BigBatch(cfg);
    assert b[..|b| - 1] == BigFront(cfg);
  }

  /**
    If batches can get bigger than decompression allows, packets are lost: whenever the
    bound is exceeded there is a run, of packets that fit their prefixes, after which
    the receiver has none of those accepted, for any compressor that shrinks zeros and
    any decompressor that keeps to the limit.
   */
  lemma LosingRun(cfg: Config) returns (h: seq<Event>)
    requires cfg.Valid() && !Unpackable(cfg) && cfg.z.Refuses() && Compressed(cfg.z, BigBatch(cfg))
    ensures Legal(cfg, h) && forall i :: 0 <= i < |h| && h[i].Send? ==> |h[i].p| <= 65535
    ensures var st := Final(cfg, h);
      && st.phase.Waiting? && st.queue == [] && Accepted(cfg, h) == BigBatch(cfg)
      && Received(cfg.z, st.sent) == []
  {
    var b := BigBatch(cfg);
    BigIsBounded(cfg);
    var g := Collects(cfg, b);
    h := GoesOut(cfg, g, b);
    BatchRoundTrip(cfg.z, b);
    assert [Encode(cfg.z, b)][..0] == [];
  }

  // Such a compressor: it shrinks one string and prefixes all others with a byte.
  function Stingy(big: seq<Byte>): Zstd {
    Zstd(x => if x == big then [] else [0] + x, y => if 0 < |y| <= MAX_UNPACKED + 1 then Some(y[1..]) else None)
  }

  // The bound is exact: it is met, or some sound compressor loses packets.
  lemma BoundExact(maxBytes: nat, maxCount: nat, linger: nat, z: Zstd) returns (cfg: Config, h: seq<Event>)
    requires maxBytes > 0 && maxCount > 0 && !Unpackable(Config(maxBytes, maxCount, linger, z))
    ensures cfg.maxBytes == maxBytes && cfg.maxCount == maxCount && cfg.linger == linger && cfg.Valid() && Legal(cfg, h)
    ensures Final(cfg, h).phase.Waiting? && Final(cfg, h).queue == [] && Accepted(cfg, h) != []
    ensures Received(cfg.z, Final(cfg, h).sent) == []
  {
    var big := Framed(BigBatch(Config(maxBytes, maxCount, linger, z)));
    cfg := Config(maxBytes, maxCount, linger, Stingy(big));
    assert BigBatch(cfg) == BigBatch(Config(maxBytes, maxCount, linger, z));
    StingySound(big, BigBatch(cfg), cfg);
    h := LosingRun(cfg);
  }

  lemma StingySound(big: seq<Byte>, b: seq<Packet>, cfg: Config)
    requires cfg.maxBytes > 0 && cfg.maxCount > 0 && !Unpackable(cfg) && b == BigBatch(cfg) && big == Framed(b)
    ensures Stingy(big).Sound() && Stingy(big).Refuses() && Compressed(Stingy(big), b)
  {
    BigSize(cfg);
    forall x | x != big ensures Stingy(big).unpack(Stingy(big).pack(x)) == if |x| <= MAX_UNPACKED then Some(x) else None {
      StingyOther(big, x);
    }
  }

  lemma StingyOther(big: seq<Byte>, x: seq<Byte>)
    requires x != big
    ensures Stingy(big).unpack(Stingy(big).pack(x)) == if |x| <= MAX_UNPACKED then Some(x) else None
  {
    assert ([0] + x)[1..] == x;
  }

  lemma BigSize(cfg: Config)
    requires cfg.maxBytes > 0 && cfg.maxCount > 0 && !Unpackable(cfg)
    ensures |Framed(BigBatch(cfg))| > MAX_UNPACKED && FramedSize(BigFront(cfg)) < cfg.maxBytes
  {
    var front := BigFront(cfg);
    RepeatedSize(Zeros(65535), 126);
    SizeSnoc(Repeated(Zeros(65535), 126), front[126]);
    assert front == Repeated(Zeros(65535), 126) + [front[126]];
    SizeSnoc(front, Zeros(65535));
    FramedSizeIs(BigBatch(cfg));
  }
}
