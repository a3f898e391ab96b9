/**
  What the 32-bit packet clock does to reassembly. The yardstick is the same machine
  on a clock without bound, which never renormalises and so never purges frames that
  have timed out. The two agree on the frames that have not timed out for exactly as
  long as evictions hit the same frames.
 */
module FragmentClock {
  import opened Bytes
  import opened Lists
  import opened FragmentPieces
  import opened FragmentAssembly

  // ----- the machine with an unbounded clock

  function IdealStep(cfg: Config, s: State, e: Event): (r: (State, Option<seq<Byte>>))
    requires cfg.Ok() && |s.live| <= cfg.numFrames
    ensures |r.0.live| <= cfg.numFrames
  {
    match e
    case Arrive(id, p) => Process(cfg, s, id, p)
    case Tick => (s.(time := s.time + 1), None)
  }

  function IdealFinal(cfg: Config, h: seq<Event>): (s: State)
    requires cfg.Ok()
    ensures |s.live| <= cfg.numFrames
  {
    if h == [] then INITIAL else IdealStep(cfg, IdealFinal(cfg, h[..|h| - 1]), h[|h| - 1]).0
  }

  // What the last event of a history delivers on the unbounded clock.
  function IdealDelivered(cfg: Config, h: seq<Event>): Option<seq<Byte>>
    requires cfg.Ok() && h != []
  {
    IdealStep(cfg, IdealFinal(cfg, h[..|h| - 1]), h[|h| - 1]).1
  }

  // ----- the frames that count

  // A frame that has not timed out, with its age in place of its time.
  datatype Aged = Aged(id: U16, age: int, pieces: seq<Piece>)

  function Young(cfg: Config, now: nat, live: seq<Slot>): (ys: seq<Aged>)
    ensures |ys| <= |live|
  {
    if live == [] then []
    else
      (if TimedOut(cfg, now, live[0]) then [] else [Aged(live[0].id, now - live[0].time, live[0].pieces)])
      + Young(cfg, now, live[1..])
  }

  function YoungOf(cfg: Config, s: State): seq<Aged> {
    Young(cfg, s.time, s.live)
  }

  function FindYoung(ys: seq<Aged>, id: U16): (i: nat)
    ensures i <= |ys| && (i < |ys| ==> ys[i].id == id)
    ensures forall k :: 0 <= k < i ==> ys[k].id != id
  {
    if ys == [] || ys[0].id == id then 0 else 1 + FindYoung(ys[1..], id)
  }

  // The pool without the frame's own entry: what an allocation looks at.
  function Others(s: State, id: U16): seq<Slot> {
    var i := Find(s.live, id);
    if i < |s.live| then RemoveAt(s.live, i) else s.live
  }

  // A chunk of this frame needs a new entry.
  predicate Allocates(cfg: Config, s: State, e: Event) {
    e.Arrive? && InBounds(cfg, e.piece) &&
    var i := Find(s.live, e.id);
    i == |s.live| || TimedOut(cfg, s.time, s.live[i])
  }

  // ...and takes that of a frame that has not timed out.
  predicate Evicts(cfg: Config, s: State, e: Event) {
    Allocates(cfg, s, e) &&
    var kept := Others(s, e.id);
    |kept| == cfg.numFrames && kept != [] && !TimedOut(cfg, s.time, kept[0])
  }

  /**
    A frame that has not timed out is given up for a new one although the pool holds
    one that has: the pool is full, the oldest frame is still good, another is not.
   */
  predicate Wasteful(cfg: Config, s: State, e: Event) {
    Evicts(cfg, s, e) && |Young(cfg, s.time, Others(s, e.id))| < |Others(s, e.id)|
  }

  // ----- one event, seen from the frames that count

  function YoungRoom(ys: seq<Aged>, evict: bool): seq<Aged> {
    if evict && ys != [] then ys[1..] else ys
  }

  // A chunk arrives; evict says whether a frame is given up for it.
  function YoungProcess(cfg: Config, ys: seq<Aged>, evict: bool, id: U16, p: Piece): (seq<Aged>, Option<seq<Byte>>) {
    if !InBounds(cfg, p) then (ys, None)
    else
      var k := FindYoung(ys, id);
      var base := if k < |ys| then ys[k].pieces else [];
      var v := Judge(cfg, base, p);
      var rest := if k < |ys| then RemoveAt(ys, k) else YoungRoom(ys, evict);
      var next := if k < |ys| then ys[k := Aged(id, 0, base + [p])] else rest + [Aged(id, 0, base + [p])];
      (if v.Wait? then next else rest, if v.Deliver? then Some(v.frame) else None)
  }

  function YoungTick(cfg: Config, ys: seq<Aged>): seq<Aged> {
    if ys == [] then []
    else (if ys[0].age + 1 > cfg.numFrames then [] else [ys[0].(age := ys[0].age + 1)]) + YoungTick(cfg, ys[1..])
  }

  lemma {:induction false} YoungAppend(cfg: Config, now: nat, a: seq<Slot>, b: seq<Slot>)
    ensures Young(cfg, now, a + b) == Young(cfg, now, a) + Young(cfg, now, b)
  {
    if a == [] {
      assert a + b == b;
    } else {
      assert (a + b)[1..] == a[1..] + b;
      YoungAppend(cfg, now, a[1..], b);
    }
  }

  lemma YoungOne(cfg: Config, now: nat, t: Slot)
    ensures Young(cfg, now, [t]) == if TimedOut(cfg, now, t) then [] else [Aged(t.id, now - t.time, t.pieces)]
  {
  }

  // The frames before, at and after a position.
  lemma YoungAround(cfg: Config, now: nat, live: seq<Slot>, i: nat)
    requires i < |live|
    ensures Young(cfg, now, live) == Young(cfg, now, live[..i]) + Young(cfg, now, [live[i]]) + Young(cfg, now, live[i + 1..])
    ensures Young(cfg, now, RemoveAt(live, i)) == Young(cfg, now, live[..i]) + Young(cfg, now, live[i + 1..])
  {
    assert live == live[..i] + ([live[i]] + live[i + 1..]);
    YoungAppend(cfg, now, live[..i], [live[i]] + live[i + 1..]);
    YoungAppend(cfg, now, [live[i]], live[i + 1..]);
    YoungAppend(cfg, now, live[..i], live[i + 1..]);
    Assoc(Young(cfg, now, live[..i]), Young(cfg, now, [live[i]]), Young(cfg, now, live[i + 1..]));
  }

  lemma YoungPut(cfg: Config, now: nat, live: seq<Slot>, i: nat, t: Slot)
    requires i < |live|
    ensures Young(cfg, now, live[i := t]) == Young(cfg, now, live[..i]) + Young(cfg, now, [t]) + Young(cfg, now, live[i + 1..])
  {
    YoungAround(cfg, now, live[i := t], i);
    assert live[i := t][..i] == live[..i] && live[i := t][i + 1..] == live[i + 1..];
  }

  lemma {:induction false} YoungIds(cfg: Config, now: nat, live: seq<Slot>, id: U16)
    requires forall j :: 0 <= j < |live| ==> live[j].id != id
    ensures forall j :: 0 <= j < |Young(cfg, now, live)| ==> Young(cfg, now, live)[j].id != id
  {
    if live != [] {
      YoungIds(cfg, now, live[1..], id);
    }
  }

  lemma FindMiddle(a: seq<Aged>, y: Aged, b: seq<Aged>)
    requires forall j :: 0 <= j < |a| ==> a[j].id != y.id
    ensures FindYoung(a + [y] + b, y.id) == |a|
  {
    assert (a + [y] + b)[|a|] == y;
    assert forall j :: 0 <= j < |a| ==> (a + [y] + b)[j] == a[j];
  }

  lemma FindNowhere(ys: seq<Aged>, id: U16)
    requires forall j :: 0 <= j < |ys| ==> ys[j].id != id
    ensures FindYoung(ys, id) == |ys|
  {
  }

  lemma Middle<T>(a: seq<T>, y: T, b: seq<T>, z: T)
    ensures (a + [y] + b)[|a|] == y
    ensures RemoveAt(a + [y] + b, |a|) == a + b
    ensures (a + [y] + b)[|a| := z] == a + [z] + b
  {
  }

  // A frame in the pool that has not timed out is found among those that count.
  lemma YoungKnown(cfg: Config, now: nat, live: seq<Slot>, id: U16, q: seq<Piece>)
    requires var i := Find(live, id); i < |live| && !TimedOut(cfg, now, live[i])
    ensures var i := Find(live, id); var ys := Young(cfg, now, live); var k := FindYoung(ys, id);
      && k < |ys| && ys[k].pieces == live[i].pieces
      && RemoveAt(ys, k) == Young(cfg, now, RemoveAt(live, i))
      && ys[k := Aged(id, 0, q)] == Young(cfg, now, live[i := Slot(id, now, q)])
  {
    var i := Find(live, id);
    YoungIds(cfg, now, live[..i], id);
    YoungAt(cfg, now, live, i, q);
  }

  lemma YoungAt(cfg: Config, now: nat, live: seq<Slot>, i: nat, q: seq<Piece>)
    requires i < |live| && !TimedOut(cfg, now, live[i])
    requires forall j :: 0 <= j < |Young(cfg, now, live[..i])| ==> Young(cfg, now, live[..i])[j].id != live[i].id
    ensures var id := live[i].id; var ys := Young(cfg, now, live); var k := FindYoung(ys, id);
      && k < |ys| && ys[k].pieces == live[i].pieces
      && RemoveAt(ys, k) == Young(cfg, now, RemoveAt(live, i))
      && ys[k := Aged(id, 0, q)] == Young(cfg, now, live[i := Slot(id, now, q)])
  {
    var id := live[i].id;
    var a, b := Young(cfg, now, live[..i]), Young(cfg, now, live[i + 1..]);
    var y := Aged(id, now - live[i].time, live[i].pieces);
    YoungAround(cfg, now, live, i);
    YoungOne(cfg, now, live[i]);
    YoungPutFresh(cfg, now, live, i, id, q);
    FindMiddle(a, y, b);
    Middle(a, y, b, Aged(id, 0, q));
  }

  lemma YoungPutFresh(cfg: Config, now: nat, live: seq<Slot>, i: nat, id: U16, q: seq<Piece>)
    requires i < |live|
    ensures Young(cfg, now, live[i := Slot(id, now, q)])
      == Young(cfg, now, live[..i]) + [Aged(id, 0, q)] + Young(cfg, now, live[i + 1..])
  {
    YoungPut(cfg, now, live, i, Slot(id, now, q));
    YoungOne(cfg, now, Slot(id, now, q));
  }

  // A frame that is not, or has timed out, is not found, and what an allocation looks
  // at has the same frames that count.
  lemma YoungUnknown(cfg: Config, s: State, id: U16)
    requires DistinctIds(s.live)
    requires var i := Find(s.live, id); i == |s.live| || TimedOut(cfg, s.time, s.live[i])
    ensures FindYoung(YoungOf(cfg, s), id) == |YoungOf(cfg, s)|
    ensures Young(cfg, s.time, Others(s, id)) == YoungOf(cfg, s)
  {
    var i := Find(s.live, id);
    if i < |s.live| {
      YoungAround(cfg, s.time, s.live, i);
      YoungOne(cfg, s.time, s.live[i]);
      RemoveOthers(s.live, i);
      EmptyUnits(Young(cfg, s.time, s.live[..i]), Young(cfg, s.time, s.live[i + 1..]));
    }
    YoungIds(cfg, s.time, Others(s, id), id);
    FindNowhere(YoungOf(cfg, s), id);
  }

  lemma RemoveOthers(live: seq<Slot>, i: nat)
    requires DistinctIds(live) && i < |live|
    ensures forall j :: 0 <= j < |RemoveAt(live, i)| ==> RemoveAt(live, i)[j].id != live[i].id
  {
    var r := RemoveAt(live, i);
    forall j | 0 <= j < |r| ensures r[j].id != live[i].id {
      assert r[j] == live[if j < i then j else j + 1];
    }
  }

  // Giving up the oldest frame takes one that counts, or none.
  lemma YoungWithoutFirst(cfg: Config, now: nat, kept: seq<Slot>)
    requires kept != []
    ensures var ys := Young(cfg, now, kept);
      Young(cfg, now, kept[1..]) == if TimedOut(cfg, now, kept[0]) then ys else ys[1..]
  {
  }

  /**
    What a chunk does to the frames that count, and what it delivers, is fixed by
    them and by whether a frame is given up for it.
   */
  lemma YoungAfterArrival(cfg: Config, s: State, id: U16, p: Piece)
    requires cfg.Ok() && |s.live| <= cfg.numFrames && DistinctIds(s.live)
    ensures var r := Process(cfg, s, id, p);
      (YoungOf(cfg, r.0), r.1) == YoungProcess(cfg, YoungOf(cfg, s), Evicts(cfg, s, Arrive(id, p)), id, p)
  {
    if InBounds(cfg, p) {
      var i := Find(s.live, id);
      if i < |s.live| && !TimedOut(cfg, s.time, s.live[i]) {
        ProcessFetched(cfg, s, id, p, s.live, i);
        YoungKnown(cfg, s.time, s.live, id, s.live[i].pieces + [p]);
      } else {
        YoungAfterAllocation(cfg, s, id, p);
      }
    }
  }

  lemma YoungAfterAllocation(cfg: Config, s: State, id: U16, p: Piece)
    requires cfg.Ok() && |s.live| <= cfg.numFrames && DistinctIds(s.live)
    requires Allocates(cfg, s, Arrive(id, p))
    ensures var r := Process(cfg, s, id, p);
      (YoungOf(cfg, r.0), r.1) == YoungProcess(cfg, YoungOf(cfg, s), Evicts(cfg, s, Arrive(id, p)), id, p)
  {
    YoungUnknown(cfg, s, id);
    var room := Room(cfg, s, id);
    var live := room + [Slot(id, s.time, [])];
    ProcessFetched(cfg, s, id, p, live, |room|);
    RoomYoung(cfg, s, id, p);
    AfterFresh(cfg, room, id, s.time, p);
  }

  // The pool an allocation appends to.
  function Room(cfg: Config, s: State, id: U16): seq<Slot> {
    var kept := Others(s, id);
    if |kept| == cfg.numFrames && kept != [] then kept[1..] else kept
  }

  lemma RoomYoung(cfg: Config, s: State, id: U16, p: Piece)
    requires DistinctIds(s.live) && Allocates(cfg, s, Arrive(id, p))
    ensures Young(cfg, s.time, Room(cfg, s, id)) == YoungRoom(YoungOf(cfg, s), Evicts(cfg, s, Arrive(id, p)))
  {
    YoungUnknown(cfg, s, id);
    var kept := Others(s, id);
    if |kept| == cfg.numFrames && kept != [] {
      YoungWithoutFirst(cfg, s.time, kept);
    }
  }

  lemma AfterFresh(cfg: Config, room: seq<Slot>, id: U16, now: nat, p: Piece)
    ensures var ys := Young(cfg, now, room);
      Young(cfg, now, After(cfg, room + [Slot(id, now, [])], |room|, id, now, p))
      == if Judge(cfg, [], p).Wait? then ys + [Aged(id, 0, [] + [p])] else ys
  {
    var t := Slot(id, now, [] + [p]);
    YoungAppend(cfg, now, room, [t]);
    YoungOne(cfg, now, t);
    assert (room + [Slot(id, now, [])])[|room| := t] == room + [t];
    assert RemoveAt(room + [Slot(id, now, [])], |room|) == room;
  }

  // ----- ticks

  lemma {:induction false} YoungLater(cfg: Config, now: nat, live: seq<Slot>)
    ensures Young(cfg, now + 1, live) == YoungTick(cfg, Young(cfg, now, live))
  {
    if live != [] {
      YoungLater(cfg, now, live[1..]);
      var rest := Young(cfg, now, live[1..]);
      if TimedOut(cfg, now, live[0]) {
        assert [] + rest == rest && [] + Young(cfg, now + 1, live[1..]) == Young(cfg, now + 1, live[1..]);
      } else {
        TickFirst(cfg, Aged(live[0].id, now - live[0].time, live[0].pieces), rest);
      }
    }
  }

  lemma TickFirst(cfg: Config, y: Aged, ys: seq<Aged>)
    ensures YoungTick(cfg, [y] + ys) == (if y.age + 1 > cfg.numFrames then [] else [y.(age := y.age + 1)]) + YoungTick(cfg, ys)
  {
    assert ([y] + ys)[1..] == ys;
  }

  lemma {:induction false} YoungSurvivors(cfg: Config, now: nat, live: seq<Slot>)
    ensures Young(cfg, now, Survivors(cfg, now, live)) == Young(cfg, now, live)
  {
    if live != [] {
      var front, t := live[..|live| - 1], live[|live| - 1];
      YoungSurvivors(cfg, now, front);
      YoungOne(cfg, now, t);
      YoungAppend(cfg, now, front, [t]);
      YoungAppend(cfg, now, Survivors(cfg, now, front), [t]);
      assert live == front + [t];
      EmptyUnits(Young(cfg, now, front), []);
    }
  }

  lemma {:induction false} YoungEarlier(cfg: Config, now: nat, live: seq<Slot>, d: nat)
    requires d <= now && forall i :: 0 <= i < |live| ==> d <= live[i].time
    ensures Young(cfg, now - d, Earlier(live, d)) == Young(cfg, now, live)
  {
    if live != [] {
      YoungEarlier(cfg, now, live[1..], d);
      assert Earlier(live, d)[1..] == Earlier(live[1..], d);
    }
  }

  lemma YoungReduce(cfg: Config, s: State)
    requires forall t :: t in s.live ==> t.time <= s.time
    ensures YoungOf(cfg, Reduce(cfg, s)) == YoungOf(cfg, s)
  {
    var live := Survivors(cfg, s.time, s.live);
    YoungSurvivors(cfg, s.time, s.live);
    SurvivorsMin(cfg, s);
    if live != [] {
      YoungEarlier(cfg, s.time, live, MinTime(live));
    }
  }

  // A tick ages the frames that count, renormalised or not.
  lemma YoungAfterTick(cfg: Config, s: State)
    requires forall t :: t in s.live ==> t.time <= s.time
    ensures YoungOf(cfg, Advance(cfg, s)) == YoungTick(cfg, YoungOf(cfg, s))
  {
    if s.time == MAX_TIME {
      YoungReduce(cfg, s);
      var r := Reduce(cfg, s);
      YoungLater(cfg, r.time, r.live);
    } else {
      YoungLater(cfg, s.time, s.live);
    }
  }

  // ----- both machines, seen from the frames that count

  function YoungStep(cfg: Config, ys: seq<Aged>, evict: bool, e: Event): (seq<Aged>, Option<seq<Byte>>) {
    match e
    case Arrive(id, p) => YoungProcess(cfg, ys, evict, id, p)
    case Tick => (YoungTick(cfg, ys), None)
  }

  predicate Sound(cfg: Config, s: State) {
    |s.live| <= cfg.numFrames && DistinctIds(s.live) && forall t :: t in s.live ==> t.time <= s.time
  }

  lemma RealStepYoung(cfg: Config, s: State, e: Event)
    requires cfg.Ok() && Sound(cfg, s)
    ensures var r := Step(cfg, s, e); (YoungOf(cfg, r.0), r.1) == YoungStep(cfg, YoungOf(cfg, s), Evicts(cfg, s, e), e)
  {
    match e
    case Arrive(id, p) => YoungAfterArrival(cfg, s, id, p);
    case Tick => YoungAfterTick(cfg, s);
  }

  lemma IdealStepYoung(cfg: Config, z: State, e: Event)
    requires cfg.Ok() && Sound(cfg, z)
    ensures var r := IdealStep(cfg, z, e); (YoungOf(cfg, r.0), r.1) == YoungStep(cfg, YoungOf(cfg, z), Evicts(cfg, z, e), e)
  {
    match e
    case Arrive(id, p) => YoungAfterArrival(cfg, z, id, p);
    case Tick => YoungLater(cfg, z.time, z.live);
  }

  lemma {:induction false} AllYoung(cfg: Config, now: nat, live: seq<Slot>)
    requires |Young(cfg, now, live)| == |live|
    ensures forall t :: t in live ==> !TimedOut(cfg, now, t)
  {
    if live != [] {
      AllYoung(cfg, now, live[1..]);
    }
  }

  // A frame is given up when all of the pool counts, and otherwise in waste.
  lemma WhenEvicts(cfg: Config, s: State, e: Event)
    requires cfg.Ok() && Sound(cfg, s)
    ensures var ys := YoungOf(cfg, s);
      && (Allocates(cfg, s, e) <==> e.Arrive? && InBounds(cfg, e.piece) && FindYoung(ys, e.id) == |ys|)
      && (Evicts(cfg, s, e) <==> (Allocates(cfg, s, e) && |ys| == cfg.numFrames) || Wasteful(cfg, s, e))
      && (Wasteful(cfg, s, e) ==> 0 < |ys| < cfg.numFrames)
  {
    if e.Arrive? && InBounds(cfg, e.piece) {
      var i := Find(s.live, e.id);
      if i < |s.live| && !TimedOut(cfg, s.time, s.live[i]) {
        YoungKnown(cfg, s.time, s.live, e.id, []);
      } else {
        YoungUnknown(cfg, s, e.id);
        EvictsFull(cfg, s.time, Others(s, e.id));
      }
    }
  }

  lemma EvictsFull(cfg: Config, now: nat, kept: seq<Slot>)
    requires cfg.Ok() && |kept| <= cfg.numFrames
    ensures |Young(cfg, now, kept)| == cfg.numFrames ==> |kept| == cfg.numFrames && !TimedOut(cfg, now, kept[0])
    ensures kept != [] && !TimedOut(cfg, now, kept[0]) ==> Young(cfg, now, kept) != []
  {
    if |Young(cfg, now, kept)| == cfg.numFrames {
      AllYoung(cfg, now, kept);
    }
  }

  lemma EvictionShows(cfg: Config, ys: seq<Aged>, e: Event, a: bool, b: bool)
    requires e.Arrive? && InBounds(cfg, e.piece) && FindYoung(ys, e.id) == |ys| && ys != [] && a != b
    ensures YoungStep(cfg, ys, a, e).0 != YoungStep(cfg, ys, b, e).0
  {
    assert |YoungStep(cfg, ys, a, e).0| != |YoungStep(cfg, ys, b, e).0|;
  }

  lemma DeliveryBlind(cfg: Config, ys: seq<Aged>, e: Event, a: bool, b: bool)
    ensures YoungStep(cfg, ys, a, e).1 == YoungStep(cfg, ys, b, e).1
  {
  }

  /**
    Two machines with the same frames that count deliver the same on the next event,
    and have the same frames that count afterwards exactly if both or neither give up
    a good frame while they hold one that has timed out.
   */
  lemma OneEvent(cfg: Config, s: State, z: State, e: Event)
    requires cfg.Ok() && Sound(cfg, s) && Sound(cfg, z) && YoungOf(cfg, s) == YoungOf(cfg, z)
    ensures Step(cfg, s, e).1 == IdealStep(cfg, z, e).1
    ensures YoungOf(cfg, Step(cfg, s, e).0) == YoungOf(cfg, IdealStep(cfg, z, e).0)
      <==> (Wasteful(cfg, s, e) <==> Wasteful(cfg, z, e))
  {
    RealStepYoung(cfg, s, e);
    IdealStepYoung(cfg, z, e);
    WhenEvicts(cfg, s, e);
    WhenEvicts(cfg, z, e);
    DeliveryBlind(cfg, YoungOf(cfg, s), e, Evicts(cfg, s, e), Evicts(cfg, z, e));
    if Evicts(cfg, s, e) != Evicts(cfg, z, e) {
      EvictionShows(cfg, YoungOf(cfg, s), e, Evicts(cfg, s, e), Evicts(cfg, z, e));
    }
  }

  // ----- over every history

  lemma {:induction false} IdealSound(cfg: Config, h: seq<Event>)
    requires cfg.Ok()
    ensures Sound(cfg, IdealFinal(cfg, h))
  {
    if h != [] {
      IdealSound(cfg, h[..|h| - 1]);
      var z := IdealFinal(cfg, h[..|h| - 1]);
      var e := h[|h| - 1];
      if e.Arrive? && InBounds(cfg, e.piece) {
        ProcessSlots(cfg, z, e.id, e.piece);
      }
    }
  }

  // The two machines have the same frames that count after a history.
  predicate Agree(cfg: Config, h: seq<Event>)
    requires cfg.Ok()
  {
    YoungOf(cfg, Final(cfg, h)) == YoungOf(cfg, IdealFinal(cfg, h))
  }

  // Both or neither of them give up a good frame in waste for what comes next.
  predicate AlikeAt(cfg: Config, h: seq<Event>, e: Event)
    requires cfg.Ok()
  {
    Wasteful(cfg, Final(cfg, h), e) <==> Wasteful(cfg, IdealFinal(cfg, h), e)
  }

  // They agree after every part of a history.
  predicate InStep(cfg: Config, h: seq<Event>)
    requires cfg.Ok()
  {
    Agree(cfg, h) && (h == [] || InStep(cfg, h[..|h| - 1]))
  }

  // They are alike at every event of a history.
  predicate SameWaste(cfg: Config, h: seq<Event>)
    requires cfg.Ok()
  {
    h == [] || (AlikeAt(cfg, h[..|h| - 1], h[|h| - 1]) && SameWaste(cfg, h[..|h| - 1]))
  }

  lemma LastEvent(cfg: Config, h: seq<Event>)
    requires cfg.Ok() && h != [] && Agree(cfg, h[..|h| - 1])
    ensures Delivered(cfg, h) == IdealDelivered(cfg, h)
    ensures Agree(cfg, h) <==> AlikeAt(cfg, h[..|h| - 1], h[|h| - 1])
  {
    RunKeeps(cfg, h[..|h| - 1]);
    IdealSound(cfg, h[..|h| - 1]);
    OneEvent(cfg, Final(cfg, h[..|h| - 1]), IdealFinal(cfg, h[..|h| - 1]), h[|h| - 1]);
  }

  /**
    The 32-bit clock is invisible exactly as long as it changes no eviction: over any
    history, the machine with it and the machine without bound keep the same frames
    that have not timed out if and only if, at every event, both or neither give up a
    good frame while the pool holds one that has timed out.
   */
  lemma {:induction false} ClockVisible(cfg: Config, h: seq<Event>)
    requires cfg.Ok()
    ensures InStep(cfg, h) <==> SameWaste(cfg, h)
  {
    if h != [] {
      ClockVisible(cfg, h[..|h| - 1]);
      if InStep(cfg, h[..|h| - 1]) {
        LastEvent(cfg, h);
      }
    }
  }

  // ...and until then they deliver the same frames.
  lemma {:induction false} SameDeliveries(cfg: Config, h: seq<Event>, j: nat)
    requires cfg.Ok() && SameWaste(cfg, h) && 0 < j <= |h|
    ensures Delivered(cfg, h[..j]) == IdealDelivered(cfg, h[..j])
  {
    var front := h[..|h| - 1];
    if j == |h| {
      ClockVisible(cfg, front);
      LastEvent(cfg, h);
      assert h[..j] == h;
    } else {
      SameDeliveries(cfg, front, j);
      assert front[..j] == h[..j];
    }
  }

  // ----- when the unbounded machine alone tells

  // A new entry is wanted, the pool is full, and a frame in it has timed out.
  predicate Crowded(cfg: Config, s: State, e: Event) {
    && Allocates(cfg, s, e)
    && |Others(s, e.id)| == cfg.numFrames
    && |Young(cfg, s.time, Others(s, e.id))| < cfg.numFrames
  }

  predicate NeverCrowded(cfg: Config, h: seq<Event>)
    requires cfg.Ok()
  {
    h == [] || (!Crowded(cfg, IdealFinal(cfg, h[..|h| - 1]), h[|h| - 1]) && NeverCrowded(cfg, h[..|h| - 1]))
  }

  function Ids(live: seq<Slot>): set<U16> {
    set t | t in live :: t.id
  }

  lemma {:induction false} IdsCount(live: seq<Slot>)
    requires DistinctIds(live)
    ensures |Ids(live)| == |live|
  {
    if live != [] {
      var front, t := live[..|live| - 1], live[|live| - 1];
      IdsCount(front);
      assert live == front + [t];
      assert Ids(live) == Ids(front) + {t.id};
      assert t.id !in Ids(front);
    }
  }

  lemma IdsOthers(s: State, id: U16)
    requires DistinctIds(s.live)
    ensures Ids(Others(s, id)) == Ids(s.live) - {id}
    ensures DistinctIds(Others(s, id))
  {
    var i := Find(s.live, id);
    if i < |s.live| {
      RemoveSlot(s.live, i);
    }
  }

  // More ids, more entries.
  lemma OthersCount(s: State, z: State, id: U16)
    requires DistinctIds(s.live) && DistinctIds(z.live) && Ids(s.live) <= Ids(z.live)
    ensures |Others(s, id)| <= |Others(z, id)|
  {
    IdsOthers(s, id);
    IdsOthers(z, id);
    IdsCount(Others(s, id));
    IdsCount(Others(z, id));
    SubsetCount(Ids(Others(s, id)), Ids(Others(z, id)));
  }

  lemma SubsetCount<T>(a: set<T>, b: set<T>)
    requires a <= b
    ensures |a| <= |b|
  {
    assert b == a + (b - a);
  }

  lemma NotCrowded(cfg: Config, s: State, z: State, e: Event)
    requires cfg.Ok() && Sound(cfg, s) && Sound(cfg, z) && YoungOf(cfg, s) == YoungOf(cfg, z)
    requires Ids(s.live) <= Ids(z.live) && !Crowded(cfg, z, e)
    ensures !Crowded(cfg, s, e) && !Wasteful(cfg, s, e) && !Wasteful(cfg, z, e)
  {
    WhenEvicts(cfg, s, e);
    WhenEvicts(cfg, z, e);
    if Allocates(cfg, s, e) {
      OthersCount(s, z, e.id);
      YoungUnknown(cfg, s, e.id);
      YoungUnknown(cfg, z, e.id);
    }
  }

  // When nothing has timed out the frames that count are the pool, in its order.
  lemma {:induction false} YoungInOrder(cfg: Config, now: nat, live: seq<Slot>)
    requires |Young(cfg, now, live)| == |live|
    ensures forall i :: 0 <= i < |live| ==> Young(cfg, now, live)[i].id == live[i].id
  {
    if live != [] {
      YoungInOrder(cfg, now, live[1..]);
    }
  }

  lemma RoomIds(cfg: Config, s: State, z: State, e: Event)
    requires cfg.Ok() && Sound(cfg, s) && Sound(cfg, z) && YoungOf(cfg, s) == YoungOf(cfg, z)
    requires Ids(s.live) <= Ids(z.live) && !Crowded(cfg, z, e)
    requires Allocates(cfg, s, e) && Allocates(cfg, z, e)
    ensures Ids(Room(cfg, s, e.id)) <= Ids(Room(cfg, z, e.id))
  {
    IdsOthers(s, e.id);
    IdsOthers(z, e.id);
    YoungUnknown(cfg, s, e.id);
    YoungUnknown(cfg, z, e.id);
    RoomIdsOf(cfg, s.time, Others(s, e.id), z.time, Others(z, e.id));
  }

  lemma RoomIdsOf(cfg: Config, now: nat, ks: seq<Slot>, later: nat, kz: seq<Slot>)
    requires cfg.Ok() && |ks| <= cfg.numFrames && Ids(ks) <= Ids(kz)
    requires Young(cfg, now, ks) == Young(cfg, later, kz)
    requires |kz| == cfg.numFrames ==> |Young(cfg, later, kz)| == cfg.numFrames
    ensures Ids(if |ks| == cfg.numFrames && ks != [] then ks[1..] else ks)
      <= Ids(if |kz| == cfg.numFrames && kz != [] then kz[1..] else kz)
  {
    if |kz| == cfg.numFrames {
      YoungInOrder(cfg, later, kz);
      YoungInOrder(cfg, now, ks);
      SameIds(ks[1..], kz[1..]);
    }
  }

  lemma SameIds(a: seq<Slot>, b: seq<Slot>)
    requires |a| == |b| && forall i :: 0 <= i < |a| ==> a[i].id == b[i].id
    ensures Ids(a) == Ids(b)
  {
    forall i | 0 <= i < |a| ensures a[i].id in Ids(b) && b[i].id in Ids(a) {
      assert b[i] in b && a[i] in a;
    }
  }

  // What a chunk leaves of a pool, by ids.
  function IdsAfter(cfg: Config, room: set<U16>, base: seq<Piece>, id: U16, p: Piece): set<U16> {
    if Judge(cfg, base, p).Wait? then room + {id} else room
  }

  lemma KnownIds(cfg: Config, s: State, id: U16, p: Piece)
    requires cfg.Ok() && Sound(cfg, s) && InBounds(cfg, p) && !Allocates(cfg, s, Arrive(id, p))
    ensures var ys := YoungOf(cfg, s); var k := FindYoung(ys, id);
      k < |ys| && Ids(Process(cfg, s, id, p).0.live) == IdsAfter(cfg, Ids(s.live) - {id}, ys[k].pieces, id, p)
  {
    var i := Find(s.live, id);
    ProcessFetched(cfg, s, id, p, s.live, i);
    YoungKnown(cfg, s.time, s.live, id, []);
    IdsOthers(s, id);
    IdsPut(s.live, i, Slot(id, s.time, s.live[i].pieces + [p]));
  }

  lemma IdsPut(live: seq<Slot>, i: nat, t: Slot)
    requires i < |live| && live[i].id == t.id
    ensures Ids(live[i := t]) == Ids(live)
    ensures t.id in Ids(live)
  {
    SameIds(live[i := t], live);
    assert live[i] in live;
  }

  lemma FreshIds(cfg: Config, s: State, id: U16, p: Piece)
    requires cfg.Ok() && Sound(cfg, s) && Allocates(cfg, s, Arrive(id, p))
    ensures Ids(Process(cfg, s, id, p).0.live) == IdsAfter(cfg, Ids(Room(cfg, s, id)), [], id, p)
  {
    var room := Room(cfg, s, id);
    ProcessFetched(cfg, s, id, p, room + [Slot(id, s.time, [])], |room|);
    AfterIds(cfg, room, id, s.time, p);
  }

  lemma AfterIds(cfg: Config, room: seq<Slot>, id: U16, now: nat, p: Piece)
    ensures Ids(After(cfg, room + [Slot(id, now, [])], |room|, id, now, p)) == IdsAfter(cfg, Ids(room), [], id, p)
  {
    var t := Slot(id, now, [] + [p]);
    UpdateLast(room, Slot(id, now, []), t);
    assert RemoveAt(room + [Slot(id, now, [])], |room|) == room;
    assert Ids(room + [t]) == Ids(room) + {id};
  }

  lemma ArrivalIds(cfg: Config, s: State, z: State, id: U16, p: Piece)
    requires cfg.Ok() && Sound(cfg, s) && Sound(cfg, z) && YoungOf(cfg, s) == YoungOf(cfg, z)
    requires Ids(s.live) <= Ids(z.live) && !Crowded(cfg, z, Arrive(id, p))
    ensures Ids(Process(cfg, s, id, p).0.live) <= Ids(Process(cfg, z, id, p).0.live)
  {
    var e := Arrive(id, p);
    if InBounds(cfg, p) {
      WhenEvicts(cfg, s, e);
      WhenEvicts(cfg, z, e);
      if Allocates(cfg, s, e) {
        FreshIds(cfg, s, id, p);
        FreshIds(cfg, z, id, p);
        RoomIds(cfg, s, z, e);
      } else {
        KnownIds(cfg, s, id, p);
        KnownIds(cfg, z, id, p);
      }
    }
  }

  lemma TickIds(cfg: Config, s: State)
    requires Sound(cfg, s)
    ensures Ids(Advance(cfg, s).live) <= Ids(s.live)
  {
    forall t | t in Advance(cfg, s).live ensures t.id in Ids(s.live) {
      var i :| 0 <= i < |Advance(cfg, s).live| && Advance(cfg, s).live[i] == t;
      if s.time == MAX_TIME {
        ReduceFrom(cfg, s, i);
      }
    }
  }

  /**
    If on the unbounded clock no chunk that needs an entry finds the pool full with a
    timed out frame in it, then the 32-bit clock is invisible.
   */
  lemma {:induction false} UncrowdedRun(cfg: Config, h: seq<Event>)
    requires cfg.Ok() && NeverCrowded(cfg, h)
    ensures SameWaste(cfg, h)
    ensures Ids(Final(cfg, h).live) <= Ids(IdealFinal(cfg, h).live)
  {
    if h != [] {
      var front, e := h[..|h| - 1], h[|h| - 1];
      UncrowdedRun(cfg, front);
      ClockVisible(cfg, front);
      RunKeeps(cfg, front);
      IdealSound(cfg, front);
      var s, z := Final(cfg, front), IdealFinal(cfg, front);
      NotCrowded(cfg, s, z, e);
      match e
      case Arrive(id, p) => ArrivalIds(cfg, s, z, id, p);
      case Tick => TickIds(cfg, s);
    }
  }

  function Ticks(h: seq<Event>): nat {
    if h == [] then 0 else Ticks(h[..|h| - 1]) + if h[|h| - 1].Tick? then 1 else 0
  }

  // Nothing differs until the clock has filled for the first time.
  lemma {:induction false} FirstLap(cfg: Config, h: seq<Event>)
    requires cfg.Ok() && Ticks(h) <= MAX_TIME
    ensures Final(cfg, h) == IdealFinal(cfg, h) && Final(cfg, h).time == Ticks(h)
    ensures SameWaste(cfg, h)
  {
    if h != [] {
      FirstLap(cfg, h[..|h| - 1]);
    }
  }

  // ----- a run in which the clock shows

  lemma NextEvent(cfg: Config, h: seq<Event>, e: Event)
    requires cfg.Ok()
    ensures Final(cfg, h + [e]) == Step(cfg, Final(cfg, h), e).0 && Delivered(cfg, h + [e]) == Step(cfg, Final(cfg, h), e).1
    ensures IdealFinal(cfg, h + [e]) == IdealStep(cfg, IdealFinal(cfg, h), e).0
    ensures IdealDelivered(cfg, h + [e]) == IdealStep(cfg, IdealFinal(cfg, h), e).1
  {
    assert (h + [e])[..|h + [e]| - 1] == h;
  }

  lemma {:induction false} OnlyTicks(cfg: Config, n: nat)
    requires cfg.Ok() && n <= MAX_TIME
    ensures Final(cfg, seq(n, _ => Tick)) == State(n, []) == IdealFinal(cfg, seq(n, _ => Tick))
  {
    if n > 0 {
      OnlyTicks(cfg, n - 1);
      var h: seq<Event> := seq(n, _ => Tick);
      assert h == seq(n - 1, _ => Tick) + [Tick];
      NextEvent(cfg, seq(n - 1, _ => Tick), Tick);
    }
  }

  const SMALL := Config(3, 2, 4)

  // The chunks of frame 1.
  const C0 := Piece(0, [10], false)
  const C1 := Piece(1, [11], false)
  const C2 := Piece(2, [12], true)

  const D0 := Piece(0, [20], false)

  // When the clock is about to fill, frames 1 and 2 start and frame 1 goes on.
  function BeforePurge(): seq<Event> {
    seq(MAX_TIME - 3, _ => Tick) + [Arrive(1, C0)] + [Arrive(2, D0)] + [Tick] + [Tick] + [Arrive(1, C1)] + [Tick]
  }

  lemma TwoStarted(h: seq<Event>, t: nat)
    requires Final(SMALL, h) == State(t, []) == IdealFinal(SMALL, h)
    ensures var g := h + [Arrive(1, C0)] + [Arrive(2, D0)];
      Final(SMALL, g) == State(t, [Slot(1, t, [C0]), Slot(2, t, [D0])]) == IdealFinal(SMALL, g)
  {
    NextEvent(SMALL, h, Arrive(1, C0));
    FirstChunk(State(t, []), 1, C0);
    var s1 := State(t, [Slot(1, t, [C0])]);
    assert [] + s1.live == s1.live;
    assert Final(SMALL, h + [Arrive(1, C0)]) == s1 == IdealFinal(SMALL, h + [Arrive(1, C0)]);
    NextEvent(SMALL, h + [Arrive(1, C0)], Arrive(2, D0));
    FirstChunk(s1, 2, D0);
    assert s1.live + [Slot(2, t, [D0])] == [Slot(1, t, [C0]), Slot(2, t, [D0])];
  }

  lemma SecondChunk(t: nat)
    ensures Process(SMALL, State(t + 2, [Slot(1, t, [C0]), Slot(2, t, [D0])]), 1, C1)
      == (State(t + 2, [Slot(1, t + 2, [C0, C1]), Slot(2, t, [D0])]), None)
  {
    var s := State(t + 2, [Slot(1, t, [C0]), Slot(2, t, [D0])]);
    assert Fetch(SMALL, s, 1) == (s.live, 0);
    ProcessFetched(SMALL, s, 1, C1, s.live, 0);
    SecondWaits();
    assert s.live[0 := Slot(1, t + 2, [C0, C1])] == [Slot(1, t + 2, [C0, C1]), Slot(2, t, [D0])];
  }

  lemma SecondWaits()
    ensures Judge(SMALL, [C0], C1) == Wait && [C0] + [C1] == [C0, C1]
  {
    assert Length([C0]) == -1 && Length([C0] + [C1]) == -1;
  }

  lemma AllTheSame()
    ensures var h := BeforePurge();
      Final(SMALL, h) == State(MAX_TIME, [Slot(1, MAX_TIME - 1, [C0, C1]), Slot(2, MAX_TIME - 3, [D0])]) == IdealFinal(SMALL, h)
  {
    var t := MAX_TIME - 3;
    var h0: seq<Event> := seq(t, _ => Tick);
    OnlyTicks(SMALL, t);
    TwoStarted(h0, t);
    GoesOn(h0 + [Arrive(1, C0)] + [Arrive(2, D0)], t);
  }

  lemma GoesOn(h: seq<Event>, t: nat)
    requires t == MAX_TIME - 3 && Final(SMALL, h) == State(t, [Slot(1, t, [C0]), Slot(2, t, [D0])]) == IdealFinal(SMALL, h)
    ensures var g := h + [Tick] + [Tick] + [Arrive(1, C1)] + [Tick];
      Final(SMALL, g) == State(t + 3, [Slot(1, t + 2, [C0, C1]), Slot(2, t, [D0])]) == IdealFinal(SMALL, g)
  {
    NextEvent(SMALL, h, Tick);
    NextEvent(SMALL, h + [Tick], Tick);
    var h2 := h + [Tick] + [Tick];
    NextEvent(SMALL, h2, Arrive(1, C1));
    SecondChunk(t);
    NextEvent(SMALL, h2 + [Arrive(1, C1)], Tick);
  }

  lemma Purge()
    ensures Advance(SMALL, State(MAX_TIME, [Slot(1, MAX_TIME - 1, [C0, C1]), Slot(2, MAX_TIME - 3, [D0])]))
      == State(2, [Slot(1, 0, [C0, C1])])
  {
    var live := [Slot(1, MAX_TIME - 1, [C0, C1]), Slot(2, MAX_TIME - 3, [D0])];
    assert live[..1] == [live[0]] && live[..1][..0] == [];
    assert Survivors(SMALL, MAX_TIME, live[..1]) == [live[0]];
    assert Survivors(SMALL, MAX_TIME, live) == [live[0]];
    assert Earlier([live[0]], MAX_TIME - 1) == [Slot(1, 0, [C0, C1])];
  }

  // On the 32-bit clock the purge made room for frame 3, and frame 1 is completed.
  lemma RealCompletes(s: State)
    requires s == State(2, [Slot(1, 0, [C0, C1]), Slot(3, 2, [D0])])
    ensures Process(SMALL, s, 1, C2).1 == Some([10, 11, 12])
  {
    assert Fetch(SMALL, s, 1) == (s.live, 0);
    ProcessFetched(SMALL, s, 1, C2, s.live, 0);
    ThirdDelivers();
  }

  lemma ThirdDelivers()
    ensures Judge(SMALL, [C0, C1], C2) == Deliver([10, 11, 12])
  {
    var ps := [C0, C1, C2];
    assert [C0, C1] + [C2] == ps && ps[..2] == [C0, C1] && [C0, C1][..1] == [C0] && [C0][..0] == [];
    assert Length([C0]) == -1 && Length([C0, C1]) == -1;
    assert Sum([C0]) == 1 && Sum([C0, C1]) == 2 && Sum(ps) == 3;
    assert MaxEnd([C0]) == 1 && MaxEnd([C0, C1]) == 2;
    assert ByteAt(ps, 2) == 12 && ByteAt(ps, 1) == ByteAt([C0, C1], 1) == 11;
    assert ByteAt(ps, 0) == ByteAt([C0, C1], 0) == ByteAt([C0], 0) == 10;
  }

  // On the unbounded clock frame 3 takes the place of frame 1, which comes to nothing.
  lemma IdealForgets(t: nat)
    requires t == MAX_TIME + 1
    ensures var z := State(t, [Slot(1, MAX_TIME - 1, [C0, C1]), Slot(2, MAX_TIME - 3, [D0])]);
      Process(SMALL, Process(SMALL, z, 3, D0).0, 1, C2).1 == None
  {
    var z := State(t, [Slot(1, MAX_TIME - 1, [C0, C1]), Slot(2, MAX_TIME - 3, [D0])]);
    var live := [z.live[1], Slot(3, t, [])];
    assert Find(z.live, 3) == 2;
    assert z.live[1..] + [Slot(3, t, [])] == live;
    assert Fetch(SMALL, z, 3) == (live, 1);
    ProcessFetched(SMALL, z, 3, D0, live, 1);
    FirstWaits(D0);
    LateEnd(Process(SMALL, z, 3, D0).0);
  }

  lemma LateEnd(z: State)
    requires |z.live| <= 2 && Find(z.live, 1) == |z.live|
    ensures Process(SMALL, z, 1, C2).1 == None
  {
    var (live, i) := Fetch(SMALL, z, 1);
    ProcessFetched(SMALL, z, 1, C2, live, i);
    assert [] + [C2] == [C2] && Sum([C2]) == 1 && Length([C2]) == 3;
  }

  /**
    The clock can be seen: a run in which the 32-bit machine delivers a frame that the
    machine on an unbounded clock has given up, because only the former had purged the
    frame that had timed out.
   */
  lemma ClockShows()
    ensures var h := BeforePurge() + [Tick] + [Arrive(3, D0)] + [Arrive(1, C2)];
      Delivered(SMALL, h) == Some([10, 11, 12]) && IdealDelivered(SMALL, h) == None && !SameWaste(SMALL, h)
  {
    var h := BeforePurge();
    AllTheSame();
    Purge();
    NextEvent(SMALL, h, Tick);
    var h1 := h + [Tick];
    NextEvent(SMALL, h1, Arrive(3, D0));
    FirstChunk(State(2, [Slot(1, 0, [C0, C1])]), 3, D0);
    var h2 := h1 + [Arrive(3, D0)];
    NextEvent(SMALL, h2, Arrive(1, C2));
    RealCompletes(Final(SMALL, h2));
    IdealForgets(MAX_TIME + 1);
    var h3 := h2 + [Arrive(1, C2)];
    assert h3[..|h3|] == h3;
    if SameWaste(SMALL, h3) {
      SameDeliveries(SMALL, h3, |h3|);
    }
  }

  // A first chunk makes an entry when there is room.
  lemma FirstChunk(s: State, id: U16, p: Piece)
    requires |s.live| < 2 && Find(s.live, id) == |s.live| && InBounds(SMALL, p) && !p.last
    ensures Process(SMALL, s, id, p) == (State(s.time, s.live + [Slot(id, s.time, [p])]), None)
  {
    var live := s.live + [Slot(id, s.time, [])];
    FetchNew(s, id);
    ProcessFetched(SMALL, s, id, p, live, |s.live|);
    FirstWaits(p);
    UpdateLast(s.live, Slot(id, s.time, []), Slot(id, s.time, [p]));
  }

  lemma FetchNew(s: State, id: U16)
    requires |s.live| < 2 && Find(s.live, id) == |s.live|
    ensures Fetch(SMALL, s, id) == (s.live + [Slot(id, s.time, [])], |s.live|)
  {
  }

  lemma UpdateLast<T>(a: seq<T>, x: T, y: T)
    ensures (a + [x])[|a| := y] == a + [y] && (a + [x])[|a|] == x
  {
  }

  lemma FirstWaits(p: Piece)
    requires !p.last
    ensures Judge(SMALL, [], p) == Wait && [] + [p] == [p]
  {
    assert Length([] + [p]) == -1;
  }
}
