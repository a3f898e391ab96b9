/**
  The exchange of one-time-password seeds between two peers. A peer makes up a seed,
  sends it over the chat, waits until the other end has generated the passwords and
  confirmed, and only then sends packets with passwords from it. The chat keeps the
  order of messages and carries both directions' exchanges.
 */
module SeedProtocol {
  import opened Bytes
  import opened Lists

  datatype Seed = Seed(id: U16, key: seq<Byte>, iv: seq<Byte>)

  datatype Msg = SeedMsg(seed: Seed) | ConfirmMsg(id: U16)

  /**
    One end of a link. As a sender: the next id, the seed waiting for confirmation, the
    job that sends a new one, and the seed packets are sent with. As a receiver: the
    seed whose passwords are being generated, the id to confirm then, and the two most
    recent seeds whose passwords are there, the newest first.
   */
  datatype Side = Side(nextId: U16, sent: Option<Seed>, job: bool, active: Option<Seed>,
                       work: Option<Seed>, pendingId: U16, recent: seq<Seed>)

  const NUM_TABLES: nat := 2

  // A fresh link schedules its first seed.
  const FRESH_SIDE := Side(0, None, true, None, None, 0, [])

  function Latest(recent: seq<Seed>, s: Seed): (r: seq<Seed>)
    ensures |r| <= NUM_TABLES
  {
    if recent == [] then [s] else [s, recent[0]]
  }

  // The tables passwords can be checked against: the table being generated is the
  // oldest one once all are in use.
  function Usable(side: Side): seq<Seed> {
    if side.work.Some? && side.recent != [] then side.recent[..1] else side.recent
  }

  // The encoder warns that passwords are running out.
  function Warn(s: Side): Side {
    if s.sent.None? then s.(job := true) else s
  }

  // The job makes up a seed. The id wraps around after 65536 seeds.
  function SendSeed(s: Side, key: seq<Byte>, iv: seq<Byte>): Side {
    s.(job := false, sent := Some(Seed(s.nextId, key, iv)), nextId := (s.nextId + 1) % 0x1_0000)
  }

  // A seed arrives: generation (re)starts with it.
  function OnSeed(s: Side, seed: Seed): Side {
    s.(work := Some(seed), pendingId := seed.id)
  }

  // Generation is done; the pending id is confirmed.
  function OnGenerated(s: Side): Side
    requires s.work.Some?
  {
    s.(work := None, recent := Latest(s.recent, s.work.value))
  }

  // A confirmation arrives: it counts if it names the seed that waits for it.
  function OnConfirm(s: Side, id: U16): Side {
    if s.sent.Some? && id == s.sent.value.id then s.(sent := None, active := s.sent) else s
  }

  // ----- two peers and the chat between them

  datatype World = World(a: Side, b: Side, ab: seq<Msg>, ba: seq<Msg>)

  const INITIAL := World(FRESH_SIDE, FRESH_SIDE, [], [])

  datatype Who = A | B

  // Messages may fail to be sent (delivered is false), never to arrive once sent.
  datatype Event =
    | Warned(who: Who)
    | JobRuns(who: Who, key: seq<Byte>, iv: seq<Byte>, delivered: bool)
    | Arrives(who: Who)
    | Generated(who: Who, delivered: bool)

  function Other(who: Who): Who {
    if who.A? then B else A
  }

  function Me(w: World, who: Who): Side {
    if who.A? then w.a else w.b
  }

  // The chat towards and from a peer.
  function Inbox(w: World, who: Who): seq<Msg> {
    if who.A? then w.ba else w.ab
  }

  function Outbox(w: World, who: Who): seq<Msg> {
    if who.A? then w.ab else w.ba
  }

  function Put(w: World, who: Who, me: Side, inbox: seq<Msg>, outbox: seq<Msg>): World {
    if who.A? then World(me, w.b, outbox, inbox) else World(w.a, me, inbox, outbox)
  }

  predicate Allowed(w: World, e: Event) {
    match e
    case Warned(_) => true
    case JobRuns(who, _, _, _) => Me(w, who).job
    case Arrives(who) => Inbox(w, who) != []
    case Generated(who, _) => Me(w, who).work.Some?
  }

  function Handle(s: Side, m: Msg): Side {
    match m
    case SeedMsg(seed) => OnSeed(s, seed)
    case ConfirmMsg(id) => OnConfirm(s, id)
  }

  function Say(outbox: seq<Msg>, m: Msg, delivered: bool): seq<Msg> {
    if delivered then outbox + [m] else outbox
  }

  // An event as the peer it happens at sees it.
  function Acted(me: Side, inbox: seq<Msg>, outbox: seq<Msg>, e: Event): (Side, seq<Msg>, seq<Msg>)
    requires e.JobRuns? ==> me.job
    requires e.Arrives? ==> inbox != []
    requires e.Generated? ==> me.work.Some?
  {
    match e
    case Warned(_) => (Warn(me), inbox, outbox)
    case JobRuns(_, key, iv, delivered) =>
      var t := SendSeed(me, key, iv);
      (t, inbox, Say(outbox, SeedMsg(t.sent.value), delivered))
    case Arrives(_) => (Handle(me, inbox[0]), inbox[1..], outbox)
    case Generated(_, delivered) => (OnGenerated(me), inbox, Say(outbox, ConfirmMsg(me.pendingId), delivered))
  }

  function Step(w: World, e: Event): World
    requires Allowed(w, e)
  {
    var (me, inbox, outbox) := Acted(Me(w, e.who), Inbox(w, e.who), Outbox(w, e.who), e);
    Put(w, e.who, me, inbox, outbox)
  }

  // ----- one direction on its own

  // The seeds and the confirmations under way in a chat.
  function Seeds(ms: seq<Msg>): seq<Seed> {
    if ms == [] then [] else (if ms[0].SeedMsg? then [ms[0].seed] else []) + Seeds(ms[1..])
  }

  function Confirms(ms: seq<Msg>): seq<U16> {
    if ms == [] then [] else (if ms[0].ConfirmMsg? then [ms[0].id] else []) + Confirms(ms[1..])
  }

  // The seeds go one way and the confirmations the other: the sender's part of one
  // end, the receiver's part of the other, and what is under way between them.
  datatype Way = Way(nextId: U16, sent: Option<Seed>, job: bool, active: Option<Seed>,
                     work: Option<Seed>, pendingId: U16, recent: seq<Seed>,
                     seeds: seq<Seed>, confirms: seq<U16>)

  function Along(s: Side, r: Side, inbox: seq<Msg>, outbox: seq<Msg>): Way {
    Way(s.nextId, s.sent, s.job, s.active, r.work, r.pendingId, r.recent, Seeds(outbox), Confirms(inbox))
  }

  function WayFrom(w: World, who: Who): Way {
    Along(Me(w, who), Me(w, Other(who)), Inbox(w, who), Outbox(w, who))
  }

  datatype Move = Rest | Alert | Offer(key: seq<Byte>, iv: seq<Byte>, delivered: bool) | Take | Finish(delivered: bool) | Accept

  predicate Can(d: Way, m: Move) {
    match m
    case Rest => true
    case Alert => true
    case Offer(_, _, _) => d.job
    case Take => d.seeds != []
    case Finish(_) => d.work.Some?
    case Accept => d.confirms != []
  }

  function Moved(d: Way, m: Move): Way
    requires Can(d, m)
  {
    match m
    case Rest => d
    case Alert => if d.sent.None? then d.(job := true) else d
    case Offer(key, iv, delivered) =>
      var x := Seed(d.nextId, key, iv);
      d.(job := false, sent := Some(x), nextId := (d.nextId + 1) % 0x1_0000, seeds := if delivered then d.seeds + [x] else d.seeds)
    case Take => d.(work := Some(d.seeds[0]), pendingId := d.seeds[0].id, seeds := d.seeds[1..])
    case Finish(delivered) =>
      d.(work := None, recent := Latest(d.recent, d.work.value), confirms := if delivered then d.confirms + [d.pendingId] else d.confirms)
    case Accept =>
      var rest := d.confirms[1..];
      if d.sent.Some? && d.confirms[0] == d.sent.value.id then d.(sent := None, active := d.sent, confirms := rest) else d.(confirms := rest)
  }

  lemma {:induction false} Said(ms: seq<Msg>, m: Msg)
    ensures Seeds(ms + [m]) == Seeds(ms) + if m.SeedMsg? then [m.seed] else []
    ensures Confirms(ms + [m]) == Confirms(ms) + if m.ConfirmMsg? then [m.id] else []
  {
    if ms == [] {
      assert ([] + [m])[1..] == [];
    } else {
      assert (ms + [m])[1..] == ms[1..] + [m];
      Said(ms[1..], m);
    }
  }

  lemma JobMoves(s: Side, r: Side, inbox: seq<Msg>, outbox: seq<Msg>, key: seq<Byte>, iv: seq<Byte>, delivered: bool)
    requires s.job
    ensures var t := SendSeed(s, key, iv); var out := Say(outbox, SeedMsg(t.sent.value), delivered);
      && Along(t, r, inbox, out) == Moved(Along(s, r, inbox, outbox), Offer(key, iv, delivered))
      && Along(r, t, out, inbox) == Along(r, s, outbox, inbox)
  {
    Said(outbox, SeedMsg(Seed(s.nextId, key, iv)));
    EmptyUnits(Confirms(outbox), []);
  }

  lemma SeedMoves(s: Side, r: Side, inbox: seq<Msg>, outbox: seq<Msg>)
    requires inbox != [] && inbox[0].SeedMsg?
    ensures var t := Handle(s, inbox[0]);
      && Along(t, r, inbox[1..], outbox) == Along(s, r, inbox, outbox)
      && Can(Along(r, s, outbox, inbox), Take)
      && Along(r, t, outbox, inbox[1..]) == Moved(Along(r, s, outbox, inbox), Take)
  {
    assert Seeds(inbox)[1..] == Seeds(inbox[1..]);
  }

  lemma ConfirmMoves(s: Side, r: Side, inbox: seq<Msg>, outbox: seq<Msg>)
    requires inbox != [] && inbox[0].ConfirmMsg?
    ensures var t := Handle(s, inbox[0]);
      && Can(Along(s, r, inbox, outbox), Accept)
      && Along(t, r, inbox[1..], outbox) == Moved(Along(s, r, inbox, outbox), Accept)
      && Along(r, t, outbox, inbox[1..]) == Along(r, s, outbox, inbox)
  {
    assert Confirms(inbox)[1..] == Confirms(inbox[1..]);
  }

  lemma DoneMoves(s: Side, r: Side, inbox: seq<Msg>, outbox: seq<Msg>, delivered: bool)
    requires s.work.Some?
    ensures var t := OnGenerated(s); var out := Say(outbox, ConfirmMsg(s.pendingId), delivered);
      && Along(t, r, inbox, out) == Along(s, r, inbox, outbox)
      && Along(r, t, out, inbox) == Moved(Along(r, s, outbox, inbox), Finish(delivered))
  {
    Said(outbox, ConfirmMsg(s.pendingId));
    EmptyUnits(Seeds(outbox), []);
  }

  lemma StepSeen(w: World, e: Event)
    requires Allowed(w, e)
    ensures var (me, inbox, outbox) := Acted(Me(w, e.who), Inbox(w, e.who), Outbox(w, e.who), e); var other := Me(w, Other(e.who));
      WayFrom(Step(w, e), e.who) == Along(me, other, inbox, outbox) && WayFrom(Step(w, e), Other(e.who)) == Along(other, me, outbox, inbox)
  {
  }

  // What an event does to the direction its peer sends in, and to the other.
  lemma StepMoves(w: World, e: Event) returns (forth: Move, back: Move)
    requires Allowed(w, e)
    ensures Can(WayFrom(w, e.who), forth) && WayFrom(Step(w, e), e.who) == Moved(WayFrom(w, e.who), forth)
    ensures Can(WayFrom(w, Other(e.who)), back) && WayFrom(Step(w, e), Other(e.who)) == Moved(WayFrom(w, Other(e.who)), back)
  {
    var me, other, inbox, outbox := Me(w, e.who), Me(w, Other(e.who)), Inbox(w, e.who), Outbox(w, e.who);
    StepSeen(w, e);
    match e
    case Warned(_) =>
      forth, back := Alert, Rest;
    case JobRuns(_, key, iv, delivered) =>
      JobMoves(me, other, inbox, outbox, key, iv, delivered);
      forth, back := Offer(key, iv, delivered), Rest;
    case Arrives(_) =>
      if inbox[0].SeedMsg? {
        SeedMoves(me, other, inbox, outbox);
        forth, back := Rest, Take;
      } else {
        ConfirmMoves(me, other, inbox, outbox);
        forth, back := Accept, Rest;
      }
    case Generated(_, delivered) =>
      DoneMoves(me, other, inbox, outbox, delivered);
      forth, back := Rest, Finish(delivered);
  }

  // ----- what is kept

  // The newest seed the receiver has generated is the one the sender uses, if any.
  predicate InStep(d: Way) {
    d.active.Some? ==> d.recent != [] && d.recent[0] == d.active.value
  }

  // The receiver has generated this seed and still holds the one the sender uses.
  predicate Ahead(d: Way, s: Seed) {
    && d.recent != [] && d.recent[0] == s
    && (d.active.Some? ==> |d.recent| > 1 && d.recent[1] == d.active.value)
  }

  predicate Orderly(d: Way) {
    && (d.job ==> d.sent.None?)
    && (d.work.Some? ==> d.pendingId == d.work.value.id)
    && |d.recent| <= NUM_TABLES
  }

  /**
    A seed that waits for confirmation is in one place at most: on its way, being
    generated, or generated with its confirmation on its way or lost. Nothing else
    is anywhere.
   */
  predicate Direction(d: Way) {
    && Orderly(d)
    && match d.sent
       case None => d.seeds == [] && d.work.None? && d.confirms == [] && InStep(d)
       case Some(s) =>
         || (InStep(d) && d.confirms == [] && d.seeds == [s] && d.work.None?)
         || (InStep(d) && d.confirms == [] && d.seeds == [] && (d.work.None? || d.work == Some(s)))
         || (Ahead(d, s) && d.seeds == [] && d.work.None? && (d.confirms == [] || d.confirms == [s.id]))
  }

  predicate Inv(w: World) {
    Direction(WayFrom(w, A)) && Direction(WayFrom(w, B))
  }

  lemma MoveKeeps(d: Way, m: Move)
    requires Direction(d) && Can(d, m)
    ensures Direction(Moved(d, m))
  {
  }

  lemma StepKeeps(w: World, e: Event)
    requires Inv(w) && Allowed(w, e)
    ensures Inv(Step(w, e))
  {
    var forth, back := StepMoves(w, e);
    MoveKeeps(WayFrom(w, e.who), forth);
    MoveKeeps(WayFrom(w, Other(e.who)), back);
  }

  // ----- runs, from any state

  predicate Legal(w: World, h: seq<Event>)
    decreases |h|
  {
    h == [] || (Allowed(w, h[0]) && Legal(Step(w, h[0]), h[1..]))
  }

  function Final(w: World, h: seq<Event>): World
    requires Legal(w, h)
    decreases |h|
  {
    if h == [] then w else Final(Step(w, h[0]), h[1..])
  }

  lemma {:induction false} RunKeeps(w: World, h: seq<Event>)
    requires Inv(w) && Legal(w, h)
    ensures Inv(Final(w, h))
    decreases |h|
  {
    if h != [] {
      StepKeeps(w, h[0]);
      RunKeeps(Step(w, h[0]), h[1..]);
    }
  }

  // The seed a peer sends with is one whose passwords the other end has generated and
  // can check against; and no new seed is about to be made up while one is waiting.
  predicate SafeAt(w: World, who: Who) {
    && (Me(w, who).active.Some? ==> Me(w, who).active.value in Usable(Me(w, Other(who))))
    && !(Me(w, who).job && Me(w, who).sent.Some?)
  }

  predicate Safe(w: World) {
    SafeAt(w, A) && SafeAt(w, B)
  }

  // Whatever happens on a link from its start, both ends are safe.
  lemma SafeToUse(h: seq<Event>)
    requires Legal(INITIAL, h)
    ensures Safe(Final(INITIAL, h))
  {
    RunKeeps(INITIAL, h);
  }

  // ----- a new link on an old chat

  // Both ends get a new link; what the chat still carries stays under way.
  function Relink(w: World): World {
    w.(a := FRESH_SIDE, b := FRESH_SIDE)
  }

  function Id(m: Msg): U16 {
    match m
    case SeedMsg(seed) => seed.id
    case ConfirmMsg(id) => id
  }

  // No message of the first seed of a link is under way.
  predicate NoFirst(w: World) {
    (forall m :: m in w.ab ==> Id(m) != 0) && (forall m :: m in w.ba ==> Id(m) != 0)
  }

  predicate OldSeeds(seeds: seq<Seed>) {
    forall i :: 0 <= i < |seeds| ==> seeds[i].id != 0
  }

  predicate OldIds(ids: seq<U16>) {
    forall i :: 0 <= i < |ids| ==> ids[i] != 0
  }

  predicate OldWork(d: Way) {
    d.work.Some? ==> d.work.value.id != 0
  }

  /**
    A direction before its first confirmation. Messages of the old link are under way
    ahead of those of the new one, and none of them has the id of the first seed.
   */
  predicate Early(d: Way) {
    && Orderly(d) && d.active.None?
    && match d.sent
       case None => d.nextId == 0 && OldSeeds(d.seeds) && OldWork(d) && OldIds(d.confirms)
       case Some(s) => s.id == 0 && (Reaching(d, s) || Reached(d, s))
  }

  // The first seed is lost, on its way, or being generated.
  predicate Reaching(d: Way, s: Seed) {
    && OldIds(d.confirms)
    && ( || (OldWork(d) && OldSeeds(d.seeds))
         || (OldWork(d) && d.seeds != [] && Last(d.seeds) == s && OldSeeds(Front(d.seeds)))
         || (d.work == Some(s) && d.seeds == []))
  }

  // The first seed is generated, and its confirmation lost or on its way.
  predicate Reached(d: Way, s: Seed) {
    && d.recent != [] && d.recent[0] == s && d.work.None? && d.seeds == []
    && (OldIds(d.confirms) || (d.confirms != [] && Last(d.confirms) == 0 && OldIds(Front(d.confirms))))
  }

  function Last<T>(s: seq<T>): T
    requires s != []
  {
    s[|s| - 1]
  }

  function Front<T>(s: seq<T>): seq<T>
    requires s != []
  {
    s[..|s| - 1]
  }

  lemma EarlyMove(d: Way, m: Move)
    requires Early(d) && Can(d, m)
    ensures Early(Moved(d, m)) || Direction(Moved(d, m))
  {
    match m
    case Rest =>
    case Alert =>
    case Offer(_, _, delivered) => EarlyOffer(d, m);
    case Take => EarlyTake(d);
    case Finish(_) => EarlyFinish(d, m);
    case Accept => EarlyAccept(d);
  }

  lemma EarlyOffer(d: Way, m: Move)
    requires Early(d) && m.Offer? && Can(d, m)
    ensures Early(Moved(d, m))
  {
    var x := Seed(d.nextId, m.key, m.iv);
    assert Front(d.seeds + [x]) == d.seeds;
  }

  lemma EarlyTake(d: Way)
    requires Early(d) && Can(d, Take)
    ensures Early(Moved(d, Take))
  {
    if |d.seeds| > 1 {
      assert Front(d.seeds[1..]) == Front(d.seeds)[1..] && Front(d.seeds)[0] == d.seeds[0];
    }
  }

  lemma EarlyFinish(d: Way, m: Move)
    requires Early(d) && m.Finish? && Can(d, m)
    ensures Early(Moved(d, m))
  {
    assert Front(d.confirms + [d.pendingId]) == d.confirms;
  }

  lemma EarlyAccept(d: Way)
    requires Early(d) && Can(d, Accept)
    ensures Early(Moved(d, Accept)) || Direction(Moved(d, Accept))
  {
    if |d.confirms| > 1 {
      assert Front(d.confirms[1..]) == Front(d.confirms)[1..] && Front(d.confirms)[0] == d.confirms[0];
    }
  }

  predicate Tolerant(w: World) {
    (Early(WayFrom(w, A)) || Direction(WayFrom(w, A))) && (Early(WayFrom(w, B)) || Direction(WayFrom(w, B)))
  }

  lemma TolerantMove(d: Way, m: Move)
    requires (Early(d) || Direction(d)) && Can(d, m)
    ensures Early(Moved(d, m)) || Direction(Moved(d, m))
  {
    if Early(d) {
      EarlyMove(d, m);
    } else {
      MoveKeeps(d, m);
    }
  }

  lemma TolerantStep(w: World, e: Event)
    requires Tolerant(w) && Allowed(w, e)
    ensures Tolerant(Step(w, e))
  {
    var forth, back := StepMoves(w, e);
    TolerantMove(WayFrom(w, e.who), forth);
    TolerantMove(WayFrom(w, Other(e.who)), back);
  }

  lemma TolerantSafe(w: World)
    requires Tolerant(w)
    ensures Safe(w)
  {
    WaySafe(WayFrom(w, A));
    WaySafe(WayFrom(w, B));
  }

  lemma WaySafe(d: Way)
    requires Early(d) || Direction(d)
    ensures !(d.job && d.sent.Some?)
    ensures d.active.Some? ==> d.active.value in if d.work.Some? && d.recent != [] then d.recent[..1] else d.recent
  {
  }

  lemma {:induction false} TolerantRun(w: World, h: seq<Event>)
    requires Tolerant(w) && Legal(w, h)
    ensures Tolerant(Final(w, h)) && Safe(Final(w, h))
    decreases |h|
  {
    if h == [] {
      TolerantSafe(w);
    } else {
      TolerantStep(w, h[0]);
      TolerantRun(Step(w, h[0]), h[1..]);
    }
  }

  lemma {:induction false} OldMessages(ms: seq<Msg>)
    requires forall m :: m in ms ==> Id(m) != 0
    ensures OldSeeds(Seeds(ms)) && OldIds(Confirms(ms))
  {
    if ms != [] {
      assert ms[0] in ms;
      OldMessages(ms[1..]);
      OldFirst(if ms[0].SeedMsg? then [ms[0].seed] else [], Seeds(ms[1..]));
    }
  }

  lemma OldFirst(a: seq<Seed>, b: seq<Seed>)
    requires OldSeeds(a) && OldSeeds(b)
    ensures OldSeeds(a + b)
  {
  }

  lemma RelinkTolerant(w: World)
    requires NoFirst(w)
    ensures Tolerant(Relink(w))
  {
    OldMessages(w.ab);
    OldMessages(w.ba);
  }

  // ----- a message of the first seed is always fatal

  lemma {:induction false} Continue(w: World, h: seq<Event>, g: seq<Event>)
    requires Legal(w, h) && Legal(Final(w, h), g)
    ensures Legal(w, h + g) && Final(w, h + g) == Final(Final(w, h), g)
    decreases |h|
  {
    if h == [] {
      assert h + g == g;
    } else {
      Continue(Step(w, h[0]), h[1..], g);
      Precede(w, h[0], h[1..] + g);
      assert [h[0]] + (h[1..] + g) == h + g;
    }
  }

  lemma Precede(w: World, e: Event, h: seq<Event>)
    requires Allowed(w, e) && Legal(Step(w, e), h)
    ensures Legal(w, [e] + h) && Final(w, [e] + h) == Final(Step(w, e), h)
  {
    assert ([e] + h)[1..] == h;
  }

  lemma One(w: World, e: Event)
    requires Allowed(w, e)
    ensures Legal(w, [e]) && Final(w, [e]) == Step(w, e)
  {
    assert [e][1..] == [];
  }

  function HandleAll(s: Side, ms: seq<Msg>): Side
    decreases |ms|
  {
    if ms == [] then s else HandleAll(Handle(s, ms[0]), ms[1..])
  }

  lemma PutTwice(w: World, who: Who, me: Side, inbox: seq<Msg>, outbox: seq<Msg>)
    ensures var v := Put(w, who, me, inbox, outbox);
      && Me(v, who) == me && Inbox(v, who) == inbox && Outbox(v, who) == outbox
      && forall x, y, z :: Put(v, who, x, y, z) == Put(w, who, x, y, z)
  {
  }

  // A peer reads the first n messages of its inbox.
  lemma {:induction false} Reads(w: World, who: Who, n: nat)
    requires n <= |Inbox(w, who)|
    ensures Legal(w, seq(n, _ => Arrives(who)))
    ensures Final(w, seq(n, _ => Arrives(who)))
      == Put(w, who, HandleAll(Me(w, who), Inbox(w, who)[..n]), Inbox(w, who)[n..], Outbox(w, who))
    decreases n
  {
    var ms := Inbox(w, who);
    var h: seq<Event> := seq(n, _ => Arrives(who));
    if n == 0 {
      assert ms[0..] == ms && ms[..0] == [];
    } else {
      var v := Put(w, who, Handle(Me(w, who), ms[0]), ms[1..], Outbox(w, who));
      assert h[0] == Arrives(who) && Step(w, h[0]) == v;
      PutTwice(w, who, Handle(Me(w, who), ms[0]), ms[1..], Outbox(w, who));
      Reads(v, who, n - 1);
      assert h[1..] == seq(n - 1, _ => Arrives(who));
      assert ms[..n][1..] == ms[1..][..n - 1] && ms[1..][n - 1..] == ms[n..];
    }
  }

  // Whoever waits for a confirmation takes any that names its id.
  lemma {:induction false} TakesConfirmation(s: Side, x: Seed, ms: seq<Msg>)
    requires s.sent == Some(x) && ConfirmMsg(x.id) in ms
    ensures HandleAll(s, ms).active == Some(x)
    decreases |ms|
  {
    if ms[0] == ConfirmMsg(x.id) {
      KeepsActive(Handle(s, ms[0]), ms[1..]);
    } else {
      TakesConfirmation(Handle(s, ms[0]), x, ms[1..]);
    }
  }

  lemma {:induction false} KeepsActive(s: Side, ms: seq<Msg>)
    requires s.sent.None?
    ensures HandleAll(s, ms).active == s.active
    decreases |ms|
  {
    if ms != [] {
      KeepsActive(Handle(s, ms[0]), ms[1..]);
    }
  }

  // A peer takes any seed.
  lemma {:induction false} TakesSeed(s: Side, ms: seq<Msg>)
    requires ms != [] && ms[|ms| - 1].SeedMsg?
    ensures var t := HandleAll(s, ms); var x := ms[|ms| - 1].seed;
      t.recent == s.recent && t.work == Some(x) && t.pendingId == x.id
    decreases |ms|
  {
    if |ms| > 1 {
      TakesSeed(Handle(s, ms[0]), ms[1..]);
    } else {
      assert ms[1..] == [];
    }
  }

  // The first seed of the new link is made up.
  lemma FirstSeed(w: World, who: Who, key: seq<Byte>)
    ensures Allowed(Relink(w), JobRuns(who, key, [], true))
    ensures var v := Step(Relink(w), JobRuns(who, key, [], true));
      && Me(v, who) == SendSeed(FRESH_SIDE, key, []) && Me(v, Other(who)) == FRESH_SIDE
      && Inbox(v, who) == Inbox(w, who) && Outbox(v, who) == Outbox(w, who) + [SeedMsg(Seed(0, key, []))]
  {
  }

  // An old confirmation with its id is taken for one of it, though the other end has
  // not generated any.
  lemma ConfirmationFatal(w: World, who: Who) returns (h: seq<Event>)
    requires ConfirmMsg(0) in Inbox(w, who)
    ensures Legal(Relink(w), h) && !Safe(Final(Relink(w), h))
  {
    var e := JobRuns(who, [], [], true);
    FirstSeed(w, who, []);
    One(Relink(w), e);
    var v := Step(Relink(w), e);
    var g := StaleConfirmed(v, who, Seed(0, [], []));
    h := [e] + g;
    Continue(Relink(w), [e], g);
  }

  // An old seed with its id is generated, and the confirmation is taken for one of it.
  lemma SeedFatal(w: World, who: Who, i: nat) returns (h: seq<Event>)
    requires i < |Outbox(w, who)| && Outbox(w, who)[i].SeedMsg? && Outbox(w, who)[i].seed.id == 0
    ensures Legal(Relink(w), h) && !Safe(Final(Relink(w), h))
  {
    var stale := Outbox(w, who)[i].seed;
    var x := Seed(0, stale.key + [0], []);
    var e := JobRuns(who, x.key, [], true);
    FirstSeed(w, who, x.key);
    One(Relink(w), e);
    var v1 := Step(Relink(w), e);
    var g1 := StaleGenerated(v1, who, i);
    var v2 := Final(v1, g1);
    var g2 := StaleConfirmed(v2, who, x);
    Continue(v1, g1, g2);
    h := [e] + (g1 + g2);
    Continue(Relink(w), [e], g1 + g2);
  }

  // The other end reads up to the old seed, generates and confirms.
  lemma StaleGenerated(v: World, who: Who, i: nat) returns (g: seq<Event>)
    requires i < |Outbox(v, who)| && Outbox(v, who)[i].SeedMsg? && Me(v, Other(who)) == FRESH_SIDE
    ensures Legal(v, g)
    ensures var u := Final(v, g); var stale := Outbox(v, who)[i].seed;
      && Me(u, who) == Me(v, who) && Inbox(u, who) == Inbox(v, who) + [ConfirmMsg(stale.id)]
      && Me(u, Other(who)).recent == [stale]
  {
    var other := Other(who);
    var r: seq<Event> := seq(i + 1, _ => Arrives(other));
    Reads(v, other, i + 1);
    TakesSeed(Me(v, other), Inbox(v, other)[..i + 1]);
    var u := Final(v, r);
    One(u, Generated(other, true));
    g := r + [Generated(other, true)];
    Continue(v, r, [Generated(other, true)]);
  }

  // This end takes the confirmation.
  lemma StaleConfirmed(v: World, who: Who, x: Seed) returns (g: seq<Event>)
    requires Me(v, who).sent == Some(x) && Me(v, who).active.None? && x.id == 0 && ConfirmMsg(0) in Inbox(v, who)
    requires x !in Me(v, Other(who)).recent
    ensures Legal(v, g) && !Safe(Final(v, g))
  {
    var n := |Inbox(v, who)|;
    g := seq(n, _ => Arrives(who));
    Reads(v, who, n);
    assert Inbox(v, who)[..n] == Inbox(v, who);
    TakesConfirmation(Me(v, who), x, Inbox(v, who));
    NotUsable(Me(v, Other(who)), x);
  }

  lemma NotUsable(s: Side, x: Seed)
    requires x !in s.recent
    ensures x !in Usable(s)
  {
  }

  /**
    When a new link may share the chat with an old one. Whatever is left of the old
    link, all that can happen afterwards is safe if and only if none of it has the id
    of a link's first seed.
   */
  lemma RelinkSafe(w: World)
    ensures (forall h :: Legal(Relink(w), h) ==> Safe(Final(Relink(w), h))) <==> NoFirst(w)
  {
    if NoFirst(w) {
      RelinkTolerant(w);
      forall h | Legal(Relink(w), h) ensures Safe(Final(Relink(w), h)) {
        TolerantRun(Relink(w), h);
      }
    } else {
      var h := Fatal(w);
    }
  }

  lemma Fatal(w: World) returns (h: seq<Event>)
    requires !NoFirst(w)
    ensures Legal(Relink(w), h) && !Safe(Final(Relink(w), h))
  {
    if m :| m in w.ab && Id(m) == 0 {
      h := FatalFrom(w, A, m);
    } else {
      var m :| m in w.ba && Id(m) == 0;
      h := FatalFrom(w, B, m);
    }
  }

  lemma FatalFrom(w: World, who: Who, m: Msg) returns (h: seq<Event>)
    requires m in Outbox(w, who) && Id(m) == 0
    ensures Legal(Relink(w), h) && !Safe(Final(Relink(w), h))
  {
    if m.ConfirmMsg? {
      h := ConfirmationFatal(w, Other(who));
    } else {
      var i :| 0 <= i < |Outbox(w, who)| && Outbox(w, who)[i] == m;
      h := SeedFatal(w, who, i);
    }
  }

  // A run in which an old confirmation is left over, and taken for one of the new seed.
  lemma StaleConfirmation(k1: seq<Byte>, k2: seq<Byte>, iv: seq<Byte>)
    ensures var h := [JobRuns(A, k1, iv, true)] + [Arrives(B)] + [Generated(B, true)];
      && Legal(INITIAL, h)
      && !NoFirst(Final(INITIAL, h)) && Final(INITIAL, h).ba == [ConfirmMsg(0)]
      && var sent := Step(Relink(Final(INITIAL, h)), JobRuns(A, k2, iv, true));
         var w := Step(sent, Arrives(A));
         w.a.active == Some(Seed(0, k2, iv)) && w.b.recent == []
  {
    var sendIt, arrive, done := JobRuns(A, k1, iv, true), Arrives(B), Generated(B, true);
    One(INITIAL, sendIt);
    var w1 := Step(INITIAL, sendIt);
    assert w1.ab == [SeedMsg(Seed(0, k1, iv))];
    One(w1, arrive);
    Continue(INITIAL, [sendIt], [arrive]);
    var w2 := Step(w1, arrive);
    assert w2.b.work == Some(Seed(0, k1, iv));
    One(w2, done);
    Continue(INITIAL, [sendIt] + [arrive], [done]);
    var w := Final(INITIAL, [sendIt] + [arrive] + [done]);
    assert w.ba == [ConfirmMsg(0)];
    assert ConfirmMsg(0) in w.ba && Id(ConfirmMsg(0)) == 0;
  }

  // ----- any number of links, one after the other, on one chat

  datatype LinkEvent = Within(e: Event) | Relinked

  // What can happen, every new link being made when no first seed or confirmation of
  // one is under way.
  predicate LegalLinks(h: seq<LinkEvent>)
    decreases h, 0
  {
    h == [] || (LegalLinks(h[..|h| - 1]) && var w := AfterLinks(h[..|h| - 1]);
                match h[|h| - 1] case Within(e) => Allowed(w, e) case Relinked => NoFirst(w))
  }

  function AfterLinks(h: seq<LinkEvent>): World
    requires LegalLinks(h)
    decreases h, 1
  {
    if h == [] then INITIAL
    else
      var w := AfterLinks(h[..|h| - 1]);
      match h[|h| - 1] case Within(e) => Step(w, e) case Relinked => Relink(w)
  }

  lemma {:induction false} LinksSafe(h: seq<LinkEvent>)
    requires LegalLinks(h)
    ensures Tolerant(AfterLinks(h)) && Safe(AfterLinks(h))
  {
    if h != [] {
      var front := h[..|h| - 1];
      LinksSafe(front);
      match h[|h| - 1]
      case Within(e) => TolerantStep(AfterLinks(front), e);
      case Relinked => RelinkTolerant(AfterLinks(front));
    }
    TolerantSafe(AfterLinks(h));
  }

  // ----- a seed does come into use

  // The other end reads what there is, the new seed last, and generates.
  lemma Generates(v: World, who: Who, x: Seed) returns (g: seq<Event>)
    requires Outbox(v, who) != [] && Outbox(v, who)[|Outbox(v, who)| - 1] == SeedMsg(x)
    ensures Legal(v, g)
    ensures var u := Final(v, g); Me(u, who) == Me(v, who) && Inbox(u, who) == Inbox(v, who) + [ConfirmMsg(x.id)]
  {
    var other, n := Other(who), |Outbox(v, who)|;
    var r: seq<Event> := seq(n, _ => Arrives(other));
    Reads(v, other, n);
    assert Inbox(v, other)[..n] == Inbox(v, other);
    TakesSeed(Me(v, other), Inbox(v, other));
    var u := Final(v, r);
    One(u, Generated(other, true));
    g := r + [Generated(other, true)];
    Continue(v, r, [Generated(other, true)]);
  }

  /**
    From any state in which a peer has no seed waiting, a warning leads to a new seed with
    the next id in use: once it is sent, read, generated, confirmed, and the confirmation
    read, whatever else was under way in the chat.
   */
  lemma ExchangeCompletes(w: World, who: Who, key: seq<Byte>, iv: seq<Byte>) returns (h: seq<Event>)
    requires Me(w, who).sent.None?
    ensures |h| >= 2 && h[0] == Warned(who) && h[1] == JobRuns(who, key, iv, true) && Legal(w, h)
    ensures Me(Final(w, h), who).active == Some(Seed(Me(w, who).nextId, key, iv))
  {
    var x := Seed(Me(w, who).nextId, key, iv);
    var w1 := Step(w, Warned(who));
    One(w, Warned(who));
    assert Me(w1, who).job && Outbox(w1, who) == Outbox(w, who);
    var job := JobRuns(who, key, iv, true);
    One(w1, job);
    var w2 := Step(w1, job);
    assert Me(w2, who).sent == Some(x) && Outbox(w2, who) == Outbox(w, who) + [SeedMsg(x)];
    var g := Generates(w2, who, x);
    var w3 := Final(w2, g);
    var r := Confirmed(w3, who, x);
    Continue(w2, g, r);
    Continue(w1, [job], g + r);
    Continue(w, [Warned(who)], [job] + (g + r));
    h := [Warned(who)] + ([job] + (g + r));
  }

  lemma Confirmed(v: World, who: Who, x: Seed) returns (g: seq<Event>)
    requires Me(v, who).sent == Some(x) && ConfirmMsg(x.id) in Inbox(v, who)
    ensures Legal(v, g) && Me(Final(v, g), who).active == Some(x)
  {
    var n := |Inbox(v, who)|;
    g := seq(n, _ => Arrives(who));
    Reads(v, who, n);
    assert Inbox(v, who)[..n] == Inbox(v, who);
    TakesConfirmation(Me(v, who), x, Inbox(v, who));
  }

  // How many seeds a peer makes up.
  function MadeUp(h: seq<Event>, who: Who): nat {
    if h == [] then 0 else (if h[0].JobRuns? && h[0].who == who then 1 else 0) + MadeUp(h[1..], who)
  }

  /** A peer's seeds are numbered one after the other, modulo 65536. */
  lemma {:induction false} SeedsNumbered(w: World, h: seq<Event>, who: Who)
    requires Legal(w, h)
    ensures Me(Final(w, h), who).nextId == (Me(w, who).nextId + MadeUp(h, who)) % 0x1_0000
    decreases |h|
  {
    if h != [] {
      SeedsNumbered(Step(w, h[0]), h[1..], who);
      StepNumbers(w, h[0], who);
      WrapOnce(Me(w, who).nextId, MadeUp(h[1..], who));
    }
  }

  lemma StepNumbers(w: World, e: Event, who: Who)
    requires Allowed(w, e)
    ensures var n := Me(w, who).nextId; Me(Step(w, e), who).nextId == if e.JobRuns? && e.who == who then (n + 1) % 0x1_0000 else n
  {
  }

  lemma WrapOnce(n: U16, k: nat)
    ensures ((n + 1) % 0x1_0000 + k) % 0x1_0000 == (n + (1 + k)) % 0x1_0000
  {
  }

  // ----- the handlers of one peer

  class SeedEnd {
    const keySize: nat
    const ivSize: nat
    var nextId: U16
    var sent: bool
    var sentSeed: Seed
    var jobSendSeed: bool
    var sendSeed: Option<Seed>
    var pendingId: U16
    // the password checker: its tables in order of use, and the seed being generated
    var checkerWork: Option<Seed>
    var tables: seq<Seed>

    ghost function Abs(): Side
      reads this
    {
      Side(nextId, if sent then Some(sentSeed) else None, jobSendSeed, sendSeed, checkerWork, pendingId, tables)
    }

    constructor (keySize: nat, ivSize: nat)
      ensures Abs() == FRESH_SIDE && this.keySize == keySize && this.ivSize == ivSize
    {
      this.keySize, this.ivSize := keySize, ivSize;
      nextId, sent, sentSeed, jobSendSeed := 0, false, Seed(0, [], []), true;
      sendSeed, pendingId, checkerWork, tables := None, 0, None, [];
    }

    method SeedWarning()
      modifies this`jobSendSeed
      ensures Abs() == old(Warn(Abs()))
    {
      if !sent {
        jobSendSeed := true;
      }
    }

    // The key and the IV are random; the caller passes them in.
    method JobSendSeed(key: seq<Byte>, iv: seq<Byte>) returns (m: Msg)
      requires jobSendSeed && !sent
      modifies this
      ensures Abs() == old(SendSeed(Abs(), key, iv)) && m == SeedMsg(Abs().sent.value)
    {
      jobSendSeed := false;
      sentSeed := Seed(nextId, key, iv);
      sent := true;
      nextId := (nextId + 1) % 0x1_0000;
      m := SeedMsg(sentSeed);
    }

    method MsgSeed(seed: Seed) returns (taken: bool)
      modifies this
      ensures taken <==> |seed.key| == keySize && |seed.iv| == ivSize
      ensures Abs() == old(if |seed.key| == keySize && |seed.iv| == ivSize then OnSeed(Abs(), seed) else Abs())
    {
      if |seed.key| != keySize || |seed.iv| != ivSize {
        return false;
      }
      // Work on an earlier seed is given up.
      checkerWork := Some(seed);
      pendingId := seed.id;
      return true;
    }

    method SeedReady() returns (m: Msg)
      requires checkerWork.Some?
      modifies this
      ensures Abs() == old(OnGenerated(Abs())) && m == old(ConfirmMsg(pendingId))
    {
      tables := Latest(tables, checkerWork.value);
      checkerWork := None;
      m := ConfirmMsg(pendingId);
    }

    method MsgConfirmSeed(id: U16)
      modifies this
      ensures Abs() == old(OnConfirm(Abs(), id))
    {
      if !sent || id != sentSeed.id {
        return;
      }
      sent := false;
      sendSeed := Some(sentSeed);
    }
  }
}
