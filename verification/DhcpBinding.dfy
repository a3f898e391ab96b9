/**
  Which replies bind the DHCP client, over its runs: what it has an address by, that a
  server's offer and acknowledgement do give it one, and which replies it ignores.
 */
module DhcpBinding {
  import opened Bytes
  import opened DhcpClient

  // ----- which replies count

  // A reply to the client's present transaction that names its server.
  predicate ToUs(st: State, r: Reply) {
    r.xid == st.xid && r.server.Some?
  }

  // It has an address and what comes with it.
  predicate Complete(r: Reply) {
    r.yiaddr != 0 && r.lease.Some? && r.mask.Some?
  }

  predicate GoodOffer(st: State, r: Reply) {
    ToUs(st, r) && r.kind.Offer? && Complete(r)
  }

  // An acknowledgement of this address by this server.
  predicate GoodAck(st: State, r: Reply, yiaddr: U32, server: U32) {
    ToUs(st, r) && r.kind.Ack? && Complete(r) && r.yiaddr == yiaddr && r.server == Some(server)
  }

  predicate GoodNak(st: State, r: Reply, server: U32) {
    ToUs(st, r) && r.kind.Nak? && r.server == Some(server)
  }

  /**
    What a reply does, phase by phase: an offer counts while discovering, an
    acknowledgement while requesting or renewing, and a refusal from then on, both only
    from the server whose offer was taken; nothing else changes anything.
   */
  lemma RepliesThatCount(st: State, r: Reply, now: int)
    ensures var t := Receive(st, r, now);
      match st.phase
      case Resetting => t == st
      case SentDiscover => if GoodOffer(st, r) then t.phase.SentRequest? && t.yiaddr == r.yiaddr && Some(t.server) == r.server else t == st
      case SentRequest =>
        if GoodAck(st, r, st.yiaddr, st.server) then t.phase.Finished? && Some(t.lease) == r.lease && t.reports == st.reports + [Up]
        else if GoodNak(st, r, st.server) then t.phase.Resetting? && t.reports == st.reports
        else t == st
      case Finished => if GoodNak(st, r, st.server) then t.phase.Resetting? && t.reports == st.reports + [Down] else t == st
      case Renewing =>
        if GoodAck(st, r, st.yiaddr, st.server) then t.phase.Finished? && Some(t.lease) == r.lease && t.reports == st.reports
        else if GoodNak(st, r, st.server) then t.phase.Resetting? && t.reports == st.reports + [Down]
        else t == st
    ensures var t := Receive(st, r, now);
      t.xid == st.xid && (!st.phase.SentDiscover? ==> t.yiaddr == st.yiaddr && t.server == st.server)
  {
  }

  // ----- what the client has its address by

  predicate Asked(phase: Phase) {
    phase.SentRequest? || phase.Finished? || phase.Renewing?
  }

  // The phase and the transaction after the first k events.
  function At(h: seq<Event>, rnd: U32, k: nat): State
    requires k <= |h|
  {
    Final(h[..k], rnd).st
  }

  /**
    Event i brought the offer the client has gone by ever since: it was discovering, has
    been asking for or using the offered address from then on, and the transaction is
    still the same.
   */
  ghost predicate OfferAt(h: seq<Event>, rnd: U32, i: nat) {
    && i < |h| && h[i].Gets? && At(h, rnd, i).phase.SentDiscover? && GoodOffer(At(h, rnd, i), h[i].r)
    && forall k {:trigger At(h, rnd, k)} :: i < k <= |h| ==>
         && Asked(At(h, rnd, k).phase) && At(h, rnd, k).xid == h[i].r.xid
         && At(h, rnd, k).yiaddr == h[i].r.yiaddr && Some(At(h, rnd, k).server) == h[i].r.server
  }

  lemma Earlier(h: seq<Event>, rnd: U32, k: nat)
    requires h != [] && k < |h|
    ensures At(h, rnd, k) == At(h[..|h| - 1], rnd, k)
  {
    assert h[..k] == h[..|h| - 1][..k];
  }

  // One more event, after which the client is asking for or using an address.
  lemma AskedBefore(st: State, e: Event, now: int)
    requires Exact(st) && Asked(Step(World(st, now), e).st.phase) && (e.Fires? ==> e.t in st.timers)
    ensures var t := Step(World(st, now), e).st;
      || (Asked(st.phase) && t.xid == st.xid && t.yiaddr == st.yiaddr && t.server == st.server)
      || (st.phase.SentDiscover? && e.Gets? && GoodOffer(st, e.r) && t.xid == e.r.xid && t.yiaddr == e.r.yiaddr && Some(t.server) == e.r.server)
  {
    if e.Gets? {
      RepliesThatCount(st, e.r, now);
    }
  }

  /** Whenever the client asks for or uses an address, some event brought the offer of it. */
  lemma {:induction false} OfferTaken(h: seq<Event>, rnd: U32, late: nat) returns (i: nat)
    requires Legal(h, rnd, late) && Asked(Final(h, rnd).st.phase)
    ensures OfferAt(h, rnd, i)
  {
    if h == [] {
      assert false;
    } else {
      var n := |h| - 1;
      var front := h[..n];
      var w := Final(front, rnd);
      RunKeeps(front, rnd, late);
      assert h[..|h|] == h;
      AskedBefore(w.st, h[n], w.now);
      if w.st.phase.SentDiscover? {
        i := n;
      } else {
        i := OfferTaken(front, rnd, late);
        OfferLasts(h, rnd, i);
      }
    }
  }

  lemma OfferLasts(h: seq<Event>, rnd: U32, i: nat)
    requires h != [] && OfferAt(h[..|h| - 1], rnd, i)
    requires var st, t := Final(h[..|h| - 1], rnd).st, Final(h, rnd).st;
      Asked(t.phase) && t.xid == st.xid && t.yiaddr == st.yiaddr && t.server == st.server
    ensures OfferAt(h, rnd, i)
  {
    var front := h[..|h| - 1];
    assert h[..|h|] == h && front[..|front|] == front;
    Earlier(h, rnd, i);
    forall k | i < k <= |h|
      ensures Asked(At(h, rnd, k).phase) && At(h, rnd, k).xid == h[i].r.xid
      ensures At(h, rnd, k).yiaddr == h[i].r.yiaddr && Some(At(h, rnd, k).server) == h[i].r.server
    {
      if k < |h| {
        Earlier(h, rnd, k);
      }
      assert At(front, rnd, |front|) == Final(front, rnd).st;
    }
  }

  /**
    Event j brought the acknowledgement the client has its address by: the client has
    been up ever since, with the lease it names, counted from then.
   */
  ghost predicate AckAt(h: seq<Event>, rnd: U32, j: nat) {
    && j < |h| && h[j].Gets? && (At(h, rnd, j).phase.SentRequest? || At(h, rnd, j).phase.Renewing?)
    && GoodAck(At(h, rnd, j), h[j].r, At(h, rnd, j).yiaddr, At(h, rnd, j).server)
    && forall k {:trigger At(h, rnd, k)} :: j < k <= |h| ==>
         IsUp(At(h, rnd, k).phase) && Some(At(h, rnd, k).lease) == h[j].r.lease && At(h, rnd, k).ackTime == Final(h[..j], rnd).now
  }

  lemma UpBefore(st: State, e: Event, now: int)
    requires Exact(st) && IsUp(Step(World(st, now), e).st.phase) && (e.Fires? ==> e.t in st.timers)
    ensures var t := Step(World(st, now), e).st;
      || (IsUp(st.phase) && t.lease == st.lease && t.ackTime == st.ackTime)
      || (e.Gets? && (st.phase.SentRequest? || st.phase.Renewing?) && GoodAck(st, e.r, st.yiaddr, st.server)
          && Some(t.lease) == e.r.lease && t.ackTime == now)
  {
    if e.Gets? {
      RepliesThatCount(st, e.r, now);
    }
  }

  lemma {:induction false} AckTaken(h: seq<Event>, rnd: U32, late: nat) returns (j: nat)
    requires Legal(h, rnd, late) && IsUp(Final(h, rnd).st.phase)
    ensures AckAt(h, rnd, j)
  {
    if h == [] {
      assert false;
    } else {
      var n := |h| - 1;
      var front := h[..n];
      var w := Final(front, rnd);
      RunKeeps(front, rnd, late);
      assert h[..|h|] == h;
      UpBefore(w.st, h[n], w.now);
      var t := Final(h, rnd).st;
      if IsUp(w.st.phase) && t.lease == w.st.lease && t.ackTime == w.st.ackTime {
        j := AckTaken(front, rnd, late);
        AckLasts(h, rnd, j);
      } else {
        j := n;
      }
    }
  }

  lemma AckLasts(h: seq<Event>, rnd: U32, j: nat)
    requires h != [] && AckAt(h[..|h| - 1], rnd, j)
    requires var st, t := Final(h[..|h| - 1], rnd).st, Final(h, rnd).st; IsUp(t.phase) && t.lease == st.lease && t.ackTime == st.ackTime
    ensures AckAt(h, rnd, j)
  {
    var front := h[..|h| - 1];
    assert h[..|h|] == h && front[..|front|] == front && h[..j] == front[..j];
    Earlier(h, rnd, j);
    forall k | j < k <= |h|
      ensures IsUp(At(h, rnd, k).phase) && Some(At(h, rnd, k).lease) == h[j].r.lease && At(h, rnd, k).ackTime == Final(h[..j], rnd).now
    {
      if k < |h| {
        Earlier(h, rnd, k);
      }
      assert At(front, rnd, |front|) == Final(front, rnd).st;
    }
  }

  /**
    Whenever the client is up, a server has offered it its address and, later, the same
    server has acknowledged that very address, both in the transaction still in use; the
    lease is that of the acknowledgement.
   */
  lemma UpByOfferAndAck(h: seq<Event>, rnd: U32, late: nat) returns (i: nat, j: nat)
    requires Legal(h, rnd, late) && IsUp(Final(h, rnd).st.phase)
    ensures OfferAt(h, rnd, i) && AckAt(h, rnd, j) && i < j
    ensures var offer, ack, st := h[i].r, h[j].r, Final(h, rnd).st;
      && offer.kind.Offer? && ack.kind.Ack? && offer.yiaddr == ack.yiaddr == st.yiaddr
      && offer.server == ack.server == Some(st.server) && offer.xid == ack.xid == st.xid && ack.lease == Some(st.lease)
  {
    i := OfferTaken(h, rnd, late);
    j := AckTaken(h, rnd, late);
    assert h[..|h|] == h;
    assert At(h, rnd, |h|) == Final(h, rnd).st;
    // From the acknowledgement on the client is up; it was discovering when the offer came.
    assert At(h, rnd, i).phase.SentDiscover?;
    assert i < j;
    assert Asked(At(h, rnd, j).phase);
  }

  // ----- a server that offers and acknowledges binds the client

  // Time passes, or replies come that do not count while requesting.
  predicate Idle(st: State, e: Event) {
    e.Wait? || (e.Gets? && !GoodAck(st, e.r, st.yiaddr, st.server) && !GoodNak(st, e.r, st.server))
  }

  function Run(w: World, es: seq<Event>): World
    decreases |es|
  {
    if es == [] then w else Run(Step(w, es[0]), es[1..])
  }

  lemma {:induction false} IdleKeeps(w: World, es: seq<Event>)
    requires w.st.phase.SentRequest? && forall i :: 0 <= i < |es| ==> Idle(w.st, es[i])
    ensures Run(w, es).st == w.st
    decreases |es|
  {
    if es != [] {
      if es[0].Gets? {
        RepliesThatCount(w.st, es[0].r, w.now);
      }
      IdleKeeps(Step(w, es[0]), es[1..]);
    }
  }

  /**
    While discovering, an offer and then the acknowledgement of it, with time passing and
    any other replies in between, give the client the address: it tells its user so, once,
    and renews after half of the lease.
   */
  lemma OfferThenAck(w: World, offer: Reply, es: seq<Event>, ack: Reply)
    requires w.st.phase.SentDiscover? && GoodOffer(w.st, offer)
    requires forall i :: 0 <= i < |es| ==> Idle(Step(w, Gets(offer)).st, es[i])
    requires ack.kind.Ack? && Complete(ack) && ack.xid == offer.xid && ack.yiaddr == offer.yiaddr && ack.server == offer.server
    ensures var v := Run(Step(w, Gets(offer)), es); var t := Step(v, Gets(ack)).st;
      && t.phase.Finished? && t.reports == w.st.reports + [Up] && t.yiaddr == offer.yiaddr && Some(t.server) == offer.server
      && Some(t.lease) == ack.lease && Renew in t.timers && t.timers[Renew] == v.now + 500 * (t.lease as int)
  {
    var u := Step(w, Gets(offer));
    RepliesThatCount(w.st, offer, w.now);
    IdleKeeps(u, es);
    var v := Run(u, es);
    RepliesThatCount(v.st, ack, v.now);
  }

  // ----- requests are repeated four times

  function Repeats(es: seq<Event>): nat {
    if es == [] then 0 else Repeats(es[..|es| - 1]) + if es[|es| - 1].Fires? && es[|es| - 1].t == Request then 1 else 0
  }

  /**
    In every run, while requesting, the request timer has fired fewer than four times
    since the offer; when it fires the fourth time the client discovers again.
   */
  lemma {:induction false} RequestsRepeated(h: seq<Event>, rnd: U32, late: nat, i: nat)
    requires Legal(h, rnd, late) && Final(h, rnd).st.phase.SentRequest? && OfferAt(h, rnd, i)
    ensures Final(h, rnd).st.requestCount == 1 + Repeats(h[i + 1..]) <= 4
  {
    var n := |h| - 1;
    var front := h[..n];
    RunKeeps(h, rnd, late);
    RunKeeps(front, rnd, late);
    assert h[..|h|] == h;
    if i == n {
      assert h[i + 1..] == [];
    } else {
      assert h[i + 1..][..|h[i + 1..]| - 1] == front[i + 1..];
      StillRequesting(h, rnd, i);
      RequestsRepeated(front, rnd, late, i);
    }
  }

  lemma StillRequesting(h: seq<Event>, rnd: U32, i: nat)
    requires h != [] && i < |h| - 1 && OfferAt(h, rnd, i) && Final(h, rnd).st.phase.SentRequest?
    ensures Final(h[..|h| - 1], rnd).st.phase.SentRequest? && OfferAt(h[..|h| - 1], rnd, i)
    ensures var e := h[|h| - 1];
      Final(h, rnd).st.requestCount ==
        Final(h[..|h| - 1], rnd).st.requestCount + if e.Fires? && e.t == Request then 1 else 0
  {
    var n := |h| - 1;
    var front := h[..n];
    assert front[..|front|] == front;
    assert Asked(At(h, rnd, n).phase);
    forall k | 0 <= k <= n ensures At(h, rnd, k) == At(front, rnd, k) {
      Earlier(h, rnd, k);
    }
    if h[n].Gets? {
      RepliesThatCount(Final(front, rnd).st, h[n].r, Final(front, rnd).now);
    }
  }

  // ----- what the timers do

  // The client discovers, in a new transaction when it must or after eight uses of the old.
  predicate Discovers(st: State, t: State, anew: bool, rnd: U32, now: int) {
    && t.phase.SentDiscover? && t.timers == map[Reset := now + 4000]
    && t.xid == (if anew || st.reuse == 8 then rnd else st.xid)
    && t.reuse == (if anew || st.reuse == 8 then 1 else st.reuse + 1)
  }

  /**
    What the firing of each timer leads to, with its times in milliseconds. The user is
    told Down when the lease runs out, and nothing otherwise.
   */
  lemma TimersAct(st: State, timer: Timer, rnd: U32, now: int)
    requires Exact(st) && timer in st.timers
    ensures var t := Fire(st, timer, rnd, now);
      match timer
      case Reset => Discovers(st, t, st.phase.Resetting?, rnd, now)
      case Request =>
        if st.requestCount == 4 then Discovers(st, t, false, rnd, now)
        else t == st.(requestCount := st.requestCount + 1, timers := map[Request := now + 3000])
      case Renew =>
        t == st.(phase := Renewing, timers := map[RenewRequest := now + 20000, Lease := now + 500 * (st.lease as int)])
      case RenewRequest => t == st.(timers := st.timers[RenewRequest := now + 20000])
      case Lease => Discovers(st, t, true, rnd, now)
    ensures Fire(st, timer, rnd, now).reports == st.reports + if timer.Lease? then [Down] else []
  {
  }

  /** In every run a timer that has fired does not fire again at the same time, so that time goes on. */
  lemma TimersMoveOn(h: seq<Event>, rnd: U32, late: nat, timer: Timer, draw: U32)
    requires Legal(h, rnd, late) && timer in Final(h, rnd).st.timers
    ensures var w := Final(h, rnd); var t := Step(w, Fires(timer, draw)).st;
      timer !in t.timers || t.timers[timer] > w.now
  {
    RunKeeps(h, rnd, late);
    MovesOn(Final(h, rnd).st, timer, draw, Final(h, rnd).now);
  }

  lemma MovesOn(st: State, timer: Timer, rnd: U32, now: int)
    requires Exact(st) && timer in st.timers
    ensures var t := Fire(st, timer, rnd, now); timer !in t.timers || t.timers[timer] > now
  {
    TimersAct(st, timer, rnd, now);
  }
}
