/**
  The DHCP client's state machine with its five timers. Times are milliseconds; time
  passes between events, and a running timer fires at its deadline or at most so much
  later.
 */
module DhcpClient {
  import opened Bytes

  const RESET_TIMEOUT: int := 4000
  const REQUEST_TIMEOUT: int := 3000
  const RENEW_REQUEST_TIMEOUT: int := 20000
  const MAX_REQUESTS: int := 4
  const XID_REUSE_MAX: int := 8

  function RenewTimeout(lease: U32): int {
    500 * (lease as int)
  }

  function LeaseTimeout(lease: U32): int {
    1000 * (lease as int) - RenewTimeout(lease)
  }

  datatype Phase = Resetting | SentDiscover | SentRequest | Finished | Renewing

  datatype Timer = Reset | Request | Renew | RenewRequest | Lease

  datatype Report = Up | Down

  datatype Kind = Offer | Ack | Nak

  // A reply to this client that is well formed; some options may be missing.
  datatype Reply = Reply(xid: U32, kind: Kind, server: Option<U32>, yiaddr: U32, lease: Option<U32>, mask: Option<U32>)

  // The deadlines of the running timers, and what the client remembers. The time of
  // the last accepted acknowledgement is kept for the sake of the argument.
  datatype State = State(phase: Phase, timers: map<Timer, int>, requestCount: int, xid: U32, reuse: int,
                         yiaddr: U32, server: U32, lease: U32, reports: seq<Report>, ackTime: int)

  predicate IsUp(phase: Phase) {
    phase.Finished? || phase.Renewing?
  }

  // ----- the handlers; rnd is the transaction id drawn if a new one is needed

  function StartProcess(st: State, force: bool, rnd: U32, now: int): State {
    var anew := force || st.reuse == XID_REUSE_MAX;
    st.(xid := if anew then rnd else st.xid, reuse := (if anew then 0 else st.reuse) + 1,
        timers := st.timers[Reset := now + RESET_TIMEOUT], phase := SentDiscover)
  }

  function FireReset(st: State, rnd: U32, now: int): State {
    StartProcess(st.(timers := st.timers - {Reset}), st.phase.Resetting?, rnd, now)
  }

  function FireRequest(st: State, rnd: U32, now: int): State {
    var t := st.(timers := st.timers - {Request});
    if st.requestCount == MAX_REQUESTS then StartProcess(t, false, rnd, now)
    else t.(timers := t.timers[Request := now + REQUEST_TIMEOUT], requestCount := st.requestCount + 1)
  }

  function FireRenew(st: State, now: int): State {
    st.(timers := (st.timers - {Renew})[RenewRequest := now + RENEW_REQUEST_TIMEOUT][Lease := now + LeaseTimeout(st.lease)],
        phase := Renewing)
  }

  function FireRenewRequest(st: State, now: int): State {
    st.(timers := st.timers[RenewRequest := now + RENEW_REQUEST_TIMEOUT])
  }

  function FireLease(st: State, rnd: U32, now: int): State {
    var t := StartProcess(st.(timers := st.timers - {Lease} - {RenewRequest}), true, rnd, now);
    t.(reports := t.reports + [Down])
  }

  function Fire(st: State, t: Timer, rnd: U32, now: int): State {
    match t
    case Reset => FireReset(st, rnd, now)
    case Request => FireRequest(st, rnd, now)
    case Renew => FireRenew(st, now)
    case RenewRequest => FireRenewRequest(st, now)
    case Lease => FireLease(st, rnd, now)
  }

  function OnNak(st: State, now: int): State {
    match st.phase
    case SentRequest => st.(timers := (st.timers - {Request})[Reset := now + RESET_TIMEOUT], phase := Resetting)
    case Finished =>
      st.(timers := (st.timers - {Renew})[Reset := now + RESET_TIMEOUT], phase := Resetting, reports := st.reports + [Down])
    case Renewing =>
      st.(timers := (st.timers - {RenewRequest} - {Lease})[Reset := now + RESET_TIMEOUT], phase := Resetting, reports := st.reports + [Down])
    case _ => st
  }

  function OnOffer(st: State, yiaddr: U32, server: U32, now: int): State {
    st.(yiaddr := yiaddr, server := server, timers := (st.timers - {Reset})[Request := now + REQUEST_TIMEOUT],
        phase := SentRequest, requestCount := 1)
  }

  function OnAck(st: State, lease: U32, now: int): State {
    var t := st.(lease := lease, phase := Finished, ackTime := now);
    if st.phase.SentRequest? then
      t.(timers := (st.timers - {Request})[Renew := now + RenewTimeout(lease)], reports := st.reports + [Up])
    else
      t.(timers := (st.timers - {RenewRequest} - {Lease})[Renew := now + RenewTimeout(lease)])
  }

  function Receive(st: State, r: Reply, now: int): State {
    if st.phase.Resetting? || r.xid != st.xid || r.server.None? then st
    else if r.kind.Nak? then
      if st.phase.SentDiscover? || r.server.value != st.server then st else OnNak(st, now)
    else if r.yiaddr == 0 || r.lease.None? || r.mask.None? then st
    else if st.phase.SentDiscover? && r.kind.Offer? then OnOffer(st, r.yiaddr, r.server.value, now)
    else if (st.phase.SentRequest? || st.phase.Renewing?) && r.kind.Ack? then
      if r.yiaddr != st.yiaddr || r.server.value != st.server then st else OnAck(st, r.lease.value, now)
    else st
  }

  // ----- what every event keeps

  // The timers that run in each phase.
  function Running(phase: Phase): set<Timer> {
    match phase
    case Resetting => {Reset}
    case SentDiscover => {Reset}
    case SentRequest => {Request}
    case Finished => {Renew}
    case Renewing => {RenewRequest, Lease}
  }

  predicate Alternate(reports: seq<Report>) {
    forall i :: 0 <= i < |reports| ==> reports[i] == if i % 2 == 0 then Up else Down
  }

  // The deadlines that bound how long the client stays up, when timers fire at most
  // late milliseconds after their deadlines.
  predicate LeaseKept(st: State, late: nat) {
    && (st.phase.Finished? ==> Renew in st.timers && st.timers[Renew] == st.ackTime + RenewTimeout(st.lease))
    && (st.phase.Renewing? ==> Lease in st.timers && st.timers[Lease] <= st.ackTime + 1000 * (st.lease as int) + late)
  }

  predicate Exact(st: State) {
    && st.timers.Keys == Running(st.phase)
    && 1 <= st.reuse <= XID_REUSE_MAX
    && (st.phase.SentRequest? ==> 1 <= st.requestCount <= MAX_REQUESTS)
    && Alternate(st.reports) && (|st.reports| % 2 == 1 <==> IsUp(st.phase))
  }

  predicate Inv(st: State, late: nat) {
    Exact(st) && LeaseKept(st, late)
  }

  lemma StartKeeps(st: State, force: bool, rnd: U32, now: int, late: nat)
    requires st.timers.Keys == {} && Alternate(st.reports) && 1 <= st.reuse <= XID_REUSE_MAX
    ensures var t := StartProcess(st, force, rnd, now);
      t.timers.Keys == Running(t.phase) && 1 <= t.reuse <= XID_REUSE_MAX && t.reports == st.reports && t.phase.SentDiscover?
  {
  }

  lemma FireKeeps(st: State, t: Timer, rnd: U32, now: int, late: nat)
    requires Inv(st, late) && t in st.timers && st.timers[t] <= now <= st.timers[t] + late
    ensures Inv(Fire(st, t, rnd, now), late)
  {
    match t
    case Reset => StartKeeps(st.(timers := st.timers - {Reset}), st.phase.Resetting?, rnd, now, late);
    case Request =>
      if st.requestCount == MAX_REQUESTS {
        StartKeeps(st.(timers := st.timers - {Request}), false, rnd, now, late);
      }
    case Renew =>
    case RenewRequest =>
    case Lease => StartKeeps(st.(timers := st.timers - {Lease} - {RenewRequest}), true, rnd, now, late);
  }

  lemma ReceiveKeeps(st: State, r: Reply, now: int, late: nat)
    requires Inv(st, late)
    ensures Inv(Receive(st, r, now), late)
  {
    var t := Receive(st, r, now);
    if t != st {
      assert t.timers.Keys == Running(t.phase);
    }
  }

  // ----- runs

  datatype Event = Wait(until: int) | Fires(t: Timer, rnd: U32) | Gets(r: Reply)

  datatype World = World(st: State, now: int)

  function Initial(rnd: U32): State {
    StartProcess(State(Resetting, map[], 0, 0, 1, 0, 0, 0, [], 0), true, rnd, 0)
  }

  // Time does not pass a running timer's deadline by more than late.
  predicate Allowed(w: World, e: Event, late: nat) {
    match e
    case Wait(until) => until >= w.now && forall t :: t in w.st.timers ==> until <= w.st.timers[t] + late
    case Fires(t, _) => t in w.st.timers && w.st.timers[t] <= w.now
    case Gets(_) => true
  }

  function Step(w: World, e: Event): World {
    match e
    case Wait(until) => w.(now := until)
    case Fires(t, rnd) => w.(st := Fire(w.st, t, rnd, w.now))
    case Gets(r) => w.(st := Receive(w.st, r, w.now))
  }

  predicate Legal(h: seq<Event>, rnd: U32, late: nat) {
    h == [] || (Legal(h[..|h| - 1], rnd, late) && Allowed(Final(h[..|h| - 1], rnd), h[|h| - 1], late))
  }

  function Final(h: seq<Event>, rnd: U32): World {
    if h == [] then World(Initial(rnd), 0) else Step(Final(h[..|h| - 1], rnd), h[|h| - 1])
  }

  predicate OnTime(w: World, late: nat) {
    forall t :: t in w.st.timers ==> w.now <= w.st.timers[t] + late
  }

  lemma StepOnTime(w: World, e: Event, late: nat)
    requires Inv(w.st, late) && OnTime(w, late) && Allowed(w, e, late)
    ensures Inv(Step(w, e).st, late) && OnTime(Step(w, e), late)
  {
    match e
    case Wait(_) =>
    case Fires(t, rnd) => FireKeeps(w.st, t, rnd, w.now, late);
    case Gets(r) => ReceiveKeeps(w.st, r, w.now, late);
  }

  /**
    Every run keeps the invariant: the timers running are those of the phase, the user
    hears Up and Down in turn starting with Up, and is told Up exactly while the client
    has an address; requests and uses of a transaction id stay within their limits.
   */
  lemma {:induction false} RunKeeps(h: seq<Event>, rnd: U32, late: nat)
    requires Legal(h, rnd, late)
    ensures var w := Final(h, rnd); Inv(w.st, late) && OnTime(w, late)
  {
    if h == [] {
      var st := Initial(rnd);
      assert st.timers == map[Reset := RESET_TIMEOUT];
    } else {
      RunKeeps(h[..|h| - 1], rnd, late);
      StepOnTime(Final(h[..|h| - 1], rnd), h[|h| - 1], late);
    }
  }

  /**
    The client never keeps an address beyond its lease, counted from the last accepted
    acknowledgement: with timers on time not at all, and otherwise by no more than the
    two timers' lateness.
   */
  lemma NeverBeyondLease(h: seq<Event>, rnd: U32, late: nat)
    requires Legal(h, rnd, late) && IsUp(Final(h, rnd).st.phase)
    ensures var w := Final(h, rnd); w.now <= w.st.ackTime + 1000 * (w.st.lease as int) + 2 * late
  {
    RunKeeps(h, rnd, late);
  }

  // ----- the client as it runs

  class Core {
    var phase: Phase
    var timers: map<Timer, int>
    var requestCount: int
    var xid: U32
    var reuse: int
    var yiaddr: U32
    var server: U32
    var leaseTime: U32
    ghost var reports: seq<Report>
    ghost var ackTime: int

    ghost function Abs(): State
      reads this
    {
      State(phase, timers, requestCount, xid, reuse, yiaddr, server, leaseTime, reports, ackTime)
    }

    constructor (rnd: U32)
      ensures Abs() == Initial(rnd) && Exact(Abs())
    {
      timers, requestCount, xid, reuse, yiaddr, server, leaseTime := map[], 0, 0, 1, 0, 0, 0;
      phase, reports, ackTime := Resetting, [], 0;
      new;
      StartKeeps(Abs(), true, rnd, 0, 0);
      Start(true, rnd, 0);
    }

    method Report(r: Report)
      modifies this`reports
      ensures reports == old(reports) + [r]
    {
      reports := reports + [r];
    }

    method SetTimer(t: Timer, deadline: int)
      modifies this`timers
      ensures timers == old(timers)[t := deadline]
    {
      timers := timers[t := deadline];
    }

    method StopTimer(t: Timer)
      modifies this`timers
      ensures timers == old(timers) - {t}
    {
      timers := timers - {t};
    }

    method Start(force: bool, rnd: U32, now: int)
      modifies this
      ensures Abs() == old(StartProcess(Abs(), force, rnd, now))
    {
      if force || reuse == XID_REUSE_MAX {
        xid := rnd;
        reuse := 0;
      }
      reuse := reuse + 1;
      SetTimer(Reset, now + RESET_TIMEOUT);
      phase := SentDiscover;
    }

    method ResetTimerHandler(rnd: U32, now: int)
      requires Reset in timers && Exact(Abs())
      modifies this
      ensures Abs() == old(Fire(Abs(), Reset, rnd, now))
    {
      assert phase.Resetting? || phase.SentDiscover?;
      StopTimer(Reset);
      Start(phase.Resetting?, rnd, now);
    }

    method RequestTimerHandler(rnd: U32, now: int)
      requires Request in timers && Exact(Abs())
      modifies this
      ensures Abs() == old(Fire(Abs(), Request, rnd, now))
    {
      assert phase.SentRequest? && 1 <= requestCount <= MAX_REQUESTS;
      StopTimer(Request);
      if requestCount == MAX_REQUESTS {
        Start(false, rnd, now);
        return;
      }
      SetTimer(Request, now + REQUEST_TIMEOUT);
      requestCount := requestCount + 1;
    }

    method RenewTimerHandler(now: int)
      requires Renew in timers && Exact(Abs())
      modifies this
      ensures Abs() == old(Fire(Abs(), Renew, 0, now))
    {
      assert phase.Finished?;
      StopTimer(Renew);
      SetTimer(RenewRequest, now + RENEW_REQUEST_TIMEOUT);
      SetTimer(Lease, now + LeaseTimeout(leaseTime));
      phase := Renewing;
    }

    method RenewRequestTimerHandler(now: int)
      requires RenewRequest in timers && Exact(Abs())
      modifies this
      ensures Abs() == old(Fire(Abs(), RenewRequest, 0, now))
    {
      assert phase.Renewing?;
      SetTimer(RenewRequest, now + RENEW_REQUEST_TIMEOUT);
    }

    method LeaseTimerHandler(rnd: U32, now: int)
      requires Lease in timers && Exact(Abs())
      modifies this
      ensures Abs() == old(Fire(Abs(), Lease, rnd, now))
    {
      assert phase.Renewing?;
      StopTimer(Lease);
      StopTimer(RenewRequest);
      Start(true, rnd, now);
      Report(Down);
    }

    method HandleNak(r: Reply, now: int)
      requires r.kind.Nak? && r.server.Some? && !phase.Resetting? && r.xid == xid
      modifies this
      ensures Abs() == old(Receive(Abs(), r, now))
    {
      if phase.SentDiscover? || r.server.value != server {
        return;
      }
      if phase.SentRequest? {
        StopTimer(Request);
        SetTimer(Reset, now + RESET_TIMEOUT);
        phase := Resetting;
      } else if phase.Finished? {
        StopTimer(Renew);
        SetTimer(Reset, now + RESET_TIMEOUT);
        phase := Resetting;
        Report(Down);
      } else {
        StopTimer(RenewRequest);
        StopTimer(Lease);
        SetTimer(Reset, now + RESET_TIMEOUT);
        phase := Resetting;
        Report(Down);
      }
    }

    method RecvHandler(r: Reply, now: int)
      modifies this
      ensures Abs() == old(Receive(Abs(), r, now))
    {
      if phase.Resetting? || r.xid != xid || r.server.None? {
        return;
      }
      if r.kind.Nak? {
        HandleNak(r, now);
        return;
      }
      if r.yiaddr == 0 || r.lease.None? || r.mask.None? {
        return;
      }
      if phase.SentDiscover? && r.kind.Offer? {
        yiaddr, server := r.yiaddr, r.server.value;
        StopTimer(Reset);
        SetTimer(Request, now + REQUEST_TIMEOUT);
        phase, requestCount := SentRequest, 1;
      } else if (phase.SentRequest? || phase.Renewing?) && r.kind.Ack? {
        if r.yiaddr != yiaddr || r.server.value != server {
          return;
        }
        leaseTime, ackTime := r.lease.value, now;
        if phase.SentRequest? {
          StopTimer(Request);
          Report(Up);
        } else {
          StopTimer(RenewRequest);
          StopTimer(Lease);
        }
        SetTimer(Renew, now + RenewTimeout(leaseTime));
        phase := Finished;
      }
    }
  }
}
