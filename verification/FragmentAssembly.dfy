/**
  Reassembly of frames from chunks as the protocol sees it: a bounded list of
  frames under way, a packet clock that is renormalised when it reaches its
  maximum, and the rules for chunks, timeouts and evictions.
 */
module FragmentAssembly {
  import opened Bytes
  import opened Lists
  import opened FragmentPieces

  // FPA_MAX_TIME
  const MAX_TIME: nat := 0xFFFF_FFFF

  // What FragmentProtoAssembler_Init fixes. The time tolerance is numFrames.
  datatype Config = Config(mtu: nat, numFrames: nat, numChunks: nat) {
    predicate Ok() {
      0 < numFrames < MAX_TIME && 0 < numChunks
    }
  }

  // A frame under way: the packet time of its last chunk and the chunks it has.
  datatype Slot = Slot(id: U16, time: nat, pieces: seq<Piece>)

  // Frames under way are listed in the order they were allocated.
  datatype State = State(time: nat, live: seq<Slot>)

  const INITIAL := State(0, [])

  datatype Event = Arrive(id: U16, piece: Piece) | Tick

  function Find(live: seq<Slot>, id: U16): (i: nat)
    ensures i <= |live|
    ensures i < |live| ==> live[i].id == id
    ensures forall k :: 0 <= k < i ==> live[k].id != id
  {
    if live == [] then 0 else if live[0].id == id then 0 else 1 + Find(live[1..], id)
  }

  predicate IsLive(s: State, id: U16) {
    Find(s.live, id) < |s.live|
  }

  predicate TimedOut(cfg: Config, now: nat, slot: Slot) {
    now - slot.time > cfg.numFrames
  }

  predicate InBounds(cfg: Config, p: Piece) {
    p.start <= cfg.mtu && |p.data| <= cfg.mtu - p.start
  }

  // The list with an entry for the frame, and the position of that entry. A timed
  // out frame is started afresh; when the pool is exhausted the oldest frame goes.
  function Fetch(cfg: Config, s: State, id: U16): (r: (seq<Slot>, nat))
    requires cfg.Ok() && |s.live| <= cfg.numFrames
    ensures r.1 < |r.0| <= cfg.numFrames
  {
    var i := Find(s.live, id);
    if i < |s.live| && !TimedOut(cfg, s.time, s.live[i]) then (s.live, i)
    else
      var kept := if i < |s.live| then RemoveAt(s.live, i) else s.live;
      var room := if |kept| == cfg.numFrames then kept[1..] else kept;
      (room + [Slot(id, s.time, [])], |room|)
  }

  // What becomes of a frame's entry when a chunk arrives for it.
  datatype Verdict = Drop | Wait | Deliver(frame: seq<Byte>)

  function Judge(cfg: Config, ps: seq<Piece>, p: Piece): Verdict {
    if !Fits(ps, p) then Drop
    else if Complete(ps + [p]) then Deliver(Join(ps + [p]))
    else if |ps| + 1 == cfg.numChunks then Drop
    else Wait
  }

  // A chunk arrives: the next state and the frame it completes, if any.
  function Process(cfg: Config, s: State, id: U16, p: Piece): (r: (State, Option<seq<Byte>>))
    requires cfg.Ok() && |s.live| <= cfg.numFrames
    ensures |r.0.live| <= cfg.numFrames && r.0.time == s.time
  {
    if !InBounds(cfg, p) then (s, None)
    else
      var (live, i) := Fetch(cfg, s, id);
      match Judge(cfg, live[i].pieces, p)
      case Drop => (State(s.time, RemoveAt(live, i)), None)
      case Deliver(frame) => (State(s.time, RemoveAt(live, i)), Some(frame))
      case Wait => (State(s.time, live[i := Slot(id, s.time, live[i].pieces + [p])]), None)
  }

  // The frames under way once a chunk for entry i has been judged.
  function After(cfg: Config, live: seq<Slot>, i: nat, id: U16, now: nat, p: Piece): seq<Slot>
    requires i < |live|
  {
    if Judge(cfg, live[i].pieces, p).Wait? then live[i := Slot(id, now, live[i].pieces + [p])] else RemoveAt(live, i)
  }

  // The same as processing, once the entry has been fetched.
  lemma ProcessFetched(cfg: Config, s: State, id: U16, p: Piece, live: seq<Slot>, i: nat)
    requires cfg.Ok() && |s.live| <= cfg.numFrames && InBounds(cfg, p)
    requires Fetch(cfg, s, id).0 == live && Fetch(cfg, s, id).1 == i
    ensures var v := Judge(cfg, live[i].pieces, p); var r := Process(cfg, s, id, p);
      r.0.live == After(cfg, live, i, id, s.time, p) && r.0.time == s.time && r.1 == if v.Deliver? then Some(v.frame) else None
  {
  }

  function Survivors(cfg: Config, now: nat, live: seq<Slot>): (r: seq<Slot>)
    ensures |r| <= |live|
  {
    if live == [] then []
    else
      var front := Survivors(cfg, now, live[..|live| - 1]);
      if TimedOut(cfg, now, live[|live| - 1]) then front else front + [live[|live| - 1]]
  }

  // The smallest time in the list.
  function MinTime(live: seq<Slot>): (m: nat)
    requires live != []
    ensures forall i :: 0 <= i < |live| ==> m <= live[i].time
    ensures exists i :: 0 <= i < |live| && live[i].time == m
  {
    if |live| == 1 then live[0].time
    else
      var m := MinTime(live[..|live| - 1]);
      if live[|live| - 1].time < m then live[|live| - 1].time else m
  }

  function Earlier(live: seq<Slot>, d: nat): (r: seq<Slot>)
    requires forall i :: 0 <= i < |live| ==> d <= live[i].time
    ensures |r| == |live|
    ensures forall i :: 0 <= i < |live| ==> r[i] == live[i].(time := live[i].time - d)
  {
    seq(|live|, i requires 0 <= i < |live| => live[i].(time := live[i].time - d))
  }

  // reduce_times: drop the frames that have timed out and subtract the smallest time.
  function Reduce(cfg: Config, s: State): (r: State)
    ensures |r.live| <= |s.live|
  {
    var live := Survivors(cfg, s.time, s.live);
    if live == [] then State(0, [])
    else
      var m := MinTime(live);
      State(if m <= s.time then s.time - m else 0, Earlier(live, m))
  }

  // The packet clock advances when a packet has been consumed.
  function Advance(cfg: Config, s: State): (r: State)
    ensures |r.live| <= |s.live|
  {
    if s.time == MAX_TIME then
      var r := Reduce(cfg, s);
      if r.live != [] then r.(time := r.time + 1) else r
    else s.(time := s.time + 1)
  }

  function Step(cfg: Config, s: State, e: Event): (r: (State, Option<seq<Byte>>))
    requires cfg.Ok() && |s.live| <= cfg.numFrames
    ensures |r.0.live| <= cfg.numFrames
  {
    match e
    case Arrive(id, p) => Process(cfg, s, id, p)
    case Tick => (Advance(cfg, s), None)
  }

  // The state after a history of events.
  function Final(cfg: Config, h: seq<Event>): (s: State)
    requires cfg.Ok()
    ensures |s.live| <= cfg.numFrames
  {
    if h == [] then INITIAL else Step(cfg, Final(cfg, h[..|h| - 1]), h[|h| - 1]).0
  }

  // What the last event of a history delivers.
  function Delivered(cfg: Config, h: seq<Event>): Option<seq<Byte>>
    requires cfg.Ok() && h != []
  {
    Step(cfg, Final(cfg, h[..|h| - 1]), h[|h| - 1]).1
  }

  // The chunks for one frame id in a history, in order, leaving out those that
  // the frame size bound rejects.
  function Arrivals(cfg: Config, h: seq<Event>, id: U16): seq<Piece> {
    if h == [] then []
    else
      var front := Arrivals(cfg, h[..|h| - 1], id);
      var e := h[|h| - 1];
      if e.Arrive? && e.id == id && InBounds(cfg, e.piece) then front + [e.piece] else front
  }

  // ----- the invariant

  predicate GoodSlot(cfg: Config, now: nat, t: Slot) {
    && t.time <= now
    && |t.pieces| < cfg.numChunks
    && Consistent(t.pieces)
    && !Complete(t.pieces)
    && (forall i :: 0 <= i < |t.pieces| ==> InBounds(cfg, t.pieces[i]))
  }

  predicate DistinctIds(live: seq<Slot>) {
    forall i, j :: 0 <= i < j < |live| ==> live[i].id != live[j].id
  }

  predicate Inv(cfg: Config, s: State) {
    && s.time <= MAX_TIME
    && |s.live| <= cfg.numFrames
    && DistinctIds(s.live)
    && forall t :: t in s.live ==> GoodSlot(cfg, s.time, t)
  }

  lemma RemoveSlot(live: seq<Slot>, i: nat)
    requires DistinctIds(live) && i < |live|
    ensures DistinctIds(RemoveAt(live, i))
    ensures forall t :: t in RemoveAt(live, i) ==> t in live && t.id != live[i].id
    ensures forall t :: t in live && t.id != live[i].id ==> t in RemoveAt(live, i)
  {
    RemoveKeepsDistinct(live, i);
    forall t | t in RemoveAt(live, i) ensures t in live && t.id != live[i].id {
      RemovedFrom(live, i, t);
    }
    forall t | t in live && t.id != live[i].id ensures t in RemoveAt(live, i) {
      StaysIn(live, i, t);
    }
  }

  lemma RemovedFrom(live: seq<Slot>, i: nat, t: Slot)
    requires DistinctIds(live) && i < |live| && t in RemoveAt(live, i)
    ensures t in live && t.id != live[i].id
  {
    var r := RemoveAt(live, i);
    var j :| 0 <= j < |r| && r[j] == t;
    assert t == live[if j < i then j else j + 1];
  }

  lemma StaysIn(live: seq<Slot>, i: nat, t: Slot)
    requires i < |live| && t in live && t != live[i]
    ensures t in RemoveAt(live, i)
  {
    var j :| 0 <= j < |live| && live[j] == t;
    assert t == RemoveAt(live, i)[if j < i then j else j - 1];
  }

  lemma RemoveKeepsDistinct(live: seq<Slot>, i: nat)
    requires DistinctIds(live) && i < |live|
    ensures DistinctIds(RemoveAt(live, i))
  {
    var r := RemoveAt(live, i);
    forall j, k | 0 <= j < k < |r| ensures r[j].id != r[k].id {
      assert r[j] == live[if j < i then j else j + 1] && r[k] == live[if k < i then k else k + 1];
    }
  }

  // An entry obtained for a frame is the one it had, or an empty one, and every
  // other entry in the list was there before.
  lemma FetchSlots(cfg: Config, s: State, id: U16)
    requires cfg.Ok() && |s.live| <= cfg.numFrames && DistinctIds(s.live)
    ensures var (live, i) := Fetch(cfg, s, id);
      && DistinctIds(live)
      && live[i].id == id
      && (live[i] in s.live || live[i] == Slot(id, s.time, []))
      && forall t :: t in live && t.id != id ==> t in s.live
  {
    var k := Find(s.live, id);
    if k < |s.live| {
      RemoveSlot(s.live, k);
    } else {
      assert forall t :: t in s.live ==> t.id != id;
    }
  }

  /**
    The entries a chunk leaves are untouched ones of other frames, or this frame's
    entry extended by exactly the chunk.
   */
  lemma ProcessSlots(cfg: Config, s: State, id: U16, p: Piece)
    requires cfg.Ok() && |s.live| <= cfg.numFrames && DistinctIds(s.live)
    requires InBounds(cfg, p)
    ensures DistinctIds(Process(cfg, s, id, p).0.live)
    ensures forall t :: t in Process(cfg, s, id, p).0.live && t.id != id ==> t in s.live
    ensures forall t :: t in Process(cfg, s, id, p).0.live && t.id == id ==>
      var base := Fetch(cfg, s, id).0[Fetch(cfg, s, id).1].pieces;
      && t == Slot(id, s.time, base + [p]) && |base| + 1 != cfg.numChunks
      && Fits(base, p) && !Complete(base + [p])
  {
    FetchSlots(cfg, s, id);
    var (live, i) := Fetch(cfg, s, id);
    RemoveSlot(live, i);
    var next := live[i := Slot(id, s.time, live[i].pieces + [p])];
    forall t | t in next ensures t == next[i] || (t in live && t.id != id) {
      var j :| 0 <= j < |next| && next[j] == t;
      assert j != i ==> t == live[j];
    }
  }

  // One chunk keeps the invariant.
  lemma ProcessKeeps(cfg: Config, s: State, id: U16, p: Piece)
    requires cfg.Ok() && Inv(cfg, s)
    ensures Inv(cfg, Process(cfg, s, id, p).0)
  {
    if InBounds(cfg, p) {
      ProcessSlots(cfg, s, id, p);
      FetchSlots(cfg, s, id);
      var (live, i) := Fetch(cfg, s, id);
      var base := live[i].pieces;
      var r := Process(cfg, s, id, p).0;
      forall t | t in r.live ensures GoodSlot(cfg, s.time, t) {
        if t.id == id {
          BaseGood(cfg, s, id);
          FitsKeepsConsistent(base, p);
        }
      }
    }
  }

  lemma BaseGood(cfg: Config, s: State, id: U16)
    requires cfg.Ok() && Inv(cfg, s)
    ensures GoodSlot(cfg, s.time, Fetch(cfg, s, id).0[Fetch(cfg, s, id).1])
  {
    FetchSlots(cfg, s, id);
  }

  lemma {:induction false} SurvivorsAre(cfg: Config, now: nat, live: seq<Slot>)
    ensures forall t :: t in Survivors(cfg, now, live) <==> t in live && !TimedOut(cfg, now, t)
  {
    if live != [] {
      SurvivorsAre(cfg, now, live[..|live| - 1]);
      assert live == live[..|live| - 1] + [live[|live| - 1]];
    }
  }

  lemma {:induction false} SurvivorsKeep(cfg: Config, now: nat, live: seq<Slot>)
    requires DistinctIds(live)
    ensures DistinctIds(Survivors(cfg, now, live))
  {
    if live != [] {
      var front := live[..|live| - 1];
      SurvivorsKeep(cfg, now, front);
      SurvivorsAre(cfg, now, front);
      forall t | t in Survivors(cfg, now, front) ensures t.id != live[|live| - 1].id {
        assert t in front;
      }
    }
  }

  /**
    Renormalising keeps exactly the frames that have not timed out, with their
    chunks and their ages, and when the clock stands at its maximum it makes room
    for the next tick: no frame survives, or something was subtracted.
   */
  lemma ReduceKeepsAges(cfg: Config, s: State)
    requires cfg.Ok() && forall t :: t in s.live ==> t.time <= s.time
    ensures var r := Reduce(cfg, s); var live := Survivors(cfg, s.time, s.live);
      && |r.live| == |live| && r.time <= s.time
      && (forall i :: 0 <= i < |live| ==>
            && r.live[i] == live[i].(time := r.live[i].time)
            && r.time - r.live[i].time == s.time - live[i].time)
    ensures s.time == MAX_TIME ==> Reduce(cfg, s).live == [] || Reduce(cfg, s).time < MAX_TIME
  {
    var live := Survivors(cfg, s.time, s.live);
    SurvivorsAre(cfg, s.time, s.live);
    if live != [] {
      var i :| 0 <= i < |live| && live[i].time == MinTime(live);
      assert live[i] in s.live && !TimedOut(cfg, s.time, live[i]);
      forall j | 0 <= j < |live| ensures live[j].time <= s.time {
        assert live[j] in s.live;
      }
    }
  }

  lemma SurvivorsMin(cfg: Config, s: State)
    requires forall t :: t in s.live ==> t.time <= s.time
    ensures var live := Survivors(cfg, s.time, s.live); live != [] ==> MinTime(live) <= s.time
  {
    var live := Survivors(cfg, s.time, s.live);
    SurvivorsAre(cfg, s.time, s.live);
    if live != [] {
      var i :| 0 <= i < |live| && live[i].time == MinTime(live);
      assert live[i] in s.live;
    }
  }

  lemma ReduceKeeps(cfg: Config, s: State)
    requires cfg.Ok() && Inv(cfg, s)
    ensures Inv(cfg, Reduce(cfg, s))
  {
    var live := Survivors(cfg, s.time, s.live);
    SurvivorsKeep(cfg, s.time, s.live);
    SurvivorsAre(cfg, s.time, s.live);
    ReduceKeepsAges(cfg, s);
    var r := Reduce(cfg, s);
    forall j | 0 <= j < |live| ensures GoodSlot(cfg, r.time, r.live[j]) {
      assert live[j] in s.live;
    }
  }

  lemma AdvanceKeeps(cfg: Config, s: State)
    requires cfg.Ok() && Inv(cfg, s)
    ensures Inv(cfg, Advance(cfg, s))
    ensures forall t :: t in Advance(cfg, s).live ==> exists u :: u in s.live && u.id == t.id && u.pieces == t.pieces
  {
    if s.time == MAX_TIME {
      ReduceKeepsAges(cfg, s);
      ReduceKeeps(cfg, s);
      forall t | t in Advance(cfg, s).live
        ensures exists u :: u in s.live && u.id == t.id && u.pieces == t.pieces
      {
        var i :| 0 <= i < |Reduce(cfg, s).live| && Reduce(cfg, s).live[i] == t;
        ReduceFrom(cfg, s, i);
      }
    }
  }

  // A frame that survives renormalisation has the chunks it had.
  lemma ReduceFrom(cfg: Config, s: State, i: nat)
    requires i < |Reduce(cfg, s).live|
    ensures var t := Reduce(cfg, s).live[i]; exists u :: u in s.live && u.id == t.id && u.pieces == t.pieces
  {
    SurvivorsAre(cfg, s.time, s.live);
    assert Survivors(cfg, s.time, s.live)[i] in s.live;
  }

  ghost predicate IsSuffix(ps: seq<Piece>, all: seq<Piece>) {
    |ps| <= |all| && all[|all| - |ps|..] == ps
  }

  // The clock, the pool and the accepted chunks stay in bounds in every run.
  lemma {:induction false} RunKeeps(cfg: Config, h: seq<Event>)
    requires cfg.Ok()
    ensures Inv(cfg, Final(cfg, h))
  {
    if h != [] {
      RunKeeps(cfg, h[..|h| - 1]);
      match h[|h| - 1]
      case Tick => AdvanceKeeps(cfg, Final(cfg, h[..|h| - 1]));
      case Arrive(id, p) => ProcessKeeps(cfg, Final(cfg, h[..|h| - 1]), id, p);
    }
  }

  lemma SuffixExtends(ps: seq<Piece>, all: seq<Piece>, p: Piece)
    requires IsSuffix(ps, all)
    ensures IsSuffix(ps + [p], all + [p])
  {
  }

  // In every run, what a frame under way holds is exactly the most recent chunks of its id.
  lemma {:induction false} Provenance(cfg: Config, h: seq<Event>, t: Slot)
    requires cfg.Ok() && t in Final(cfg, h).live
    ensures IsSuffix(t.pieces, Arrivals(cfg, h, t.id))
    decreases h, 0
  {
    var front, e := h[..|h| - 1], h[|h| - 1];
    var s := Final(cfg, front);
    RunKeeps(cfg, front);
    match e
    case Tick =>
      AdvanceKeeps(cfg, s);
      var u :| u in s.live && u.id == t.id && u.pieces == t.pieces;
      Provenance(cfg, front, u);
    case Arrive(id, p) =>
      if !InBounds(cfg, p) {
        Provenance(cfg, front, t);
      } else {
        ProcessSlots(cfg, s, id, p);
        if t.id != id {
          Provenance(cfg, front, t);
        } else {
          BaseProvenance(cfg, front, id);
          SuffixExtends(Fetch(cfg, s, id).0[Fetch(cfg, s, id).1].pieces, Arrivals(cfg, front, id), p);
        }
      }
  }

  lemma {:induction false} BaseProvenance(cfg: Config, h: seq<Event>, id: U16)
    requires cfg.Ok()
    ensures IsSuffix(Fetch(cfg, Final(cfg, h), id).0[Fetch(cfg, Final(cfg, h), id).1].pieces, Arrivals(cfg, h, id))
    decreases h, 1
  {
    var s := Final(cfg, h);
    RunKeeps(cfg, h);
    FetchSlots(cfg, s, id);
    var base := Fetch(cfg, s, id).0[Fetch(cfg, s, id).1];
    if base in s.live {
      Provenance(cfg, h, base);
    }
  }

  lemma ProcessDelivers(cfg: Config, s: State, id: U16, p: Piece)
    requires cfg.Ok() && Inv(cfg, s) && Process(cfg, s, id, p).1.Some?
    ensures InBounds(cfg, p)
    ensures Spells(Fetch(cfg, s, id).0[Fetch(cfg, s, id).1].pieces + [p], Process(cfg, s, id, p).1.value)
  {
    var (live, i) := Fetch(cfg, s, id);
    BaseGood(cfg, s, id);
    FitsKeepsConsistent(live[i].pieces, p);
    CompleteSpells(live[i].pieces + [p]);
  }

  /**
    Every frame ever delivered, in any run over any chunks, is spelled by the most
    recent chunks received for its id: they lie inside the frame, do not overlap,
    fill it, and each of its bytes comes from exactly one of them.
   */
  lemma DeliverySound(cfg: Config, h: seq<Event>)
    requires cfg.Ok() && h != [] && Delivered(cfg, h).Some?
    ensures h[|h| - 1].Arrive?
    ensures exists ps :: ps != [] && IsSuffix(ps, Arrivals(cfg, h, h[|h| - 1].id)) && Spells(ps, Delivered(cfg, h).value)
  {
    var front, e := h[..|h| - 1], h[|h| - 1];
    RunKeeps(cfg, front);
    var s := Final(cfg, front);
    DeliveredBy(cfg, h);
    ProcessDelivers(cfg, s, e.id, e.piece);
    var base := Fetch(cfg, s, e.id).0[Fetch(cfg, s, e.id).1].pieces;
    BaseProvenance(cfg, front, e.id);
    ArrivesNext(cfg, h);
    Spelled(base, Arrivals(cfg, front, e.id), e.piece, Delivered(cfg, h).value);
  }

  // A frame is delivered by the chunk that has just arrived.
  lemma DeliveredBy(cfg: Config, h: seq<Event>)
    requires cfg.Ok() && h != [] && Delivered(cfg, h).Some?
    ensures var e := h[|h| - 1]; var s := Final(cfg, h[..|h| - 1]);
      e.Arrive? && |s.live| <= cfg.numFrames && Delivered(cfg, h) == Process(cfg, s, e.id, e.piece).1 && InBounds(cfg, e.piece)
  {
  }

  lemma ArrivesNext(cfg: Config, h: seq<Event>)
    requires h != [] && h[|h| - 1].Arrive? && InBounds(cfg, h[|h| - 1].piece)
    ensures var e := h[|h| - 1]; Arrivals(cfg, h, e.id) == Arrivals(cfg, h[..|h| - 1], e.id) + [e.piece]
  {
  }

  lemma Spelled(base: seq<Piece>, all: seq<Piece>, p: Piece, frame: seq<Byte>)
    requires IsSuffix(base, all) && Spells(base + [p], frame)
    ensures exists ps :: ps != [] && IsSuffix(ps, all + [p]) && Spells(ps, frame)
  {
    SuffixExtends(base, all, p);
  }
}
