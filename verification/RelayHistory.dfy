/**
  How peers are reached, told from the history alone: which peers have a link of their
  own, which serve as relays and in what order they came, and which are relayed.
 */
module RelayHistory {
  import opened Bytes
  import opened Lists
  import opened RelayModel
  import opened RelayClient

  // A run: the state before and after each event.
  ghost predicate Run(h: seq<Event>, sts: seq<State>) {
    && |sts| == |h| + 1 && sts[0] == INITIAL
    && forall i :: 0 <= i < |h| ==> Next(sts[i], h[i], sts[i + 1])
  }

  // ----- from the history

  datatype Mode = Nowhere | Direct | Indirect

  function ModeAfter(m: Option<Mode>, e: Event, p: Id): Option<Mode> {
    match e
    case Added(q) => if q == p then Some(Nowhere) else m
    case Removed(q) => if q == p then None else m
    case NewLink(q, ok) => if q == p then Some(if ok then Direct else Nowhere) else m
    case Needs(q) => if q == p then Some(Indirect) else m
    case Reported(_, _, _) => m
  }

  // How a peer was last to be reached; none if there is no such peer.
  function ModeOf(h: seq<Event>, p: Id): Option<Mode> {
    if h == [] then None else ModeAfter(ModeOf(h[..|h| - 1], p), h[|h| - 1], p)
  }

  function RelaysAfter(rs: seq<Id>, e: Event): seq<Id> {
    match e
    case Added(_) => rs
    case Removed(p) => Remove(rs, p)
    case NewLink(p, _) => Remove(rs, p)
    case Needs(_) => rs
    case Reported(p, up, relayServer) => if !up then Remove(rs, p) else if relayServer && p !in rs then rs + [p] else rs
  }

  // The peers that serve as relays, in the order they came to.
  function Relays(h: seq<Event>): seq<Id> {
    if h == [] then [] else RelaysAfter(Relays(h[..|h| - 1]), h[|h| - 1])
  }

  // ----- what an event does to how peers are reached

  function ModeIn(st: State, p: Id): Option<Mode> {
    if p !in st.peers then None
    else
      var x := st.peers[p];
      Some(if x.link then Direct else if x.relay.Some? || x.waiting then Indirect else Nowhere)
  }

  // Whoever is listed as waiting waits.
  predicate Listed(st: State) {
    forall q :: q in st.waiting ==> q in st.peers && st.peers[q].waiting
  }

  // Assigning relays changes only by which relay a peer is reached.
  lemma AssignedMode(st: State, t: State, q: Id)
    requires Listed(st) && Assigned(st, t)
    ensures ModeIn(t, q) == ModeIn(st, q)
  {
    var k := if st.relays == [] then 0 else |st.waiting|;
    if q in st.peers {
      assert t.peers[q] == AssignedPeer(st, q, k);
      if q in st.waiting[..k] {
        assert q in st.waiting;
      }
    }
  }

  lemma UserRelayed(st: State, r: Id, q: Id)
    requires Inv(st) && r in st.peers && q in st.peers[r].users
    ensures q in st.peers && st.peers[q].relay == Some(r)
  {
    assert Serves(st, r, q);
    assert Uses(st, q, r);
  }

  lemma ReleasedMode(st: State, t: State, r: Id, q: Id)
    requires Inv(st) && r in st.peers && Released(st, t, r)
    ensures ModeIn(t, q) == ModeIn(st, q)
  {
    var users := st.peers[r].users;
    assert users[..|users|] == users;
    if q in st.peers {
      assert t.peers[q] == ReleasedPeer(st, q, r, |users|);
      if q in users {
        UserRelayed(st, r, q);
      }
    }
  }

  lemma ReleasedListed(st: State, t: State, r: Id)
    requires Inv(st) && r in st.peers && Released(st, t, r)
    ensures Listed(t)
  {
    var users := st.peers[r].users;
    assert users[..|users|] == users;
    forall q | q in t.waiting ensures q in t.peers && t.peers[q].waiting {
      if q in users {
        UserRelayed(st, r, q);
      }
      assert t.peers[q] == ReleasedPeer(st, q, r, |users|);
    }
  }

  lemma DissolvedMode(st: State, t: State, r: Id, q: Id)
    requires Inv(st) && r in st.peers && Dissolved(st, t, r)
    ensures ModeIn(t, q) == ModeIn(st, q)
  {
    var mid: State :| r in mid.peers && Released(st, mid, r) && Assigned(Disable(mid, r), t);
    ReleasedMode(st, mid, r, q);
    ReleasedListed(st, mid, r);
    DisabledMode(mid, r, q);
    AssignedMode(Disable(mid, r), t, q);
  }

  lemma DisabledMode(st: State, r: Id, q: Id)
    requires r in st.peers
    ensures ModeIn(Disable(st, r), q) == ModeIn(st, q)
    ensures Listed(st) ==> Listed(Disable(st, r))
  {
  }

  lemma DissolvedRelays(st: State, t: State, r: Id)
    requires r in st.peers && Dissolved(st, t, r)
    ensures t.relays == Remove(st.relays, r)
  {
    var mid: State :| r in mid.peers && Released(st, mid, r) && Assigned(Disable(mid, r), t);
  }

  // Undoing what reaches a peer does not change how the others are reached.
  lemma CleanedMode(st: State, t: State, p: Id, q: Id)
    requires Inv(st) && RelayKnown(st, p) && CleanedUp(st, t, p) && q != p
    ensures ModeIn(t, q) == ModeIn(st, q)
  {
    if st.peers[p].link && st.peers[p].isRelay {
      DroppedMode(st, t, p, q);
    } else if !st.peers[p].link && st.peers[p].relay.Some? {
      FreedMode(st, p, q);
    }
  }

  lemma DroppedMode(st: State, t: State, p: Id, q: Id)
    requires Inv(st) && p in st.peers && Dropped(st, t, p) && q != p
    ensures ModeIn(t, q) == ModeIn(st, q)
  {
    var mid: State :| p in mid.peers && Dissolved(st, mid, p) && t == FreeLink(mid, p);
    FreedLinkMode(mid, p, q);
    DissolvedMode(st, mid, p, q);
  }

  lemma FreedLinkMode(st: State, p: Id, q: Id)
    requires p in st.peers && q != p
    ensures ModeIn(FreeLink(st, p), q) == ModeIn(st, q)
  {
  }

  lemma FreedMode(st: State, p: Id, q: Id)
    requires RelayKnown(st, p) && st.peers[p].relay.Some? && q != p
    ensures ModeIn(FreeRelaying(st, p), q) == ModeIn(st, q)
  {
  }

  lemma CleanedRelays(st: State, t: State, p: Id)
    requires Inv(st) && RelayKnown(st, p) && CleanedUp(st, t, p)
    ensures t.relays == Remove(st.relays, p)
  {
    assert PeerOk(p, st.peers[p]);
    if st.peers[p].link && st.peers[p].isRelay {
      var mid: State :| p in mid.peers && Dissolved(st, mid, p) && t == FreeLink(mid, p);
      DissolvedRelays(st, mid, p);
    } else {
      assert p !in st.relays;
    }
  }

  lemma NeedsMode(st: State, p: Id, t: State, q: Id)
    requires Inv(st) && RelayKnown(st, p) && !st.peers[p].isRelay && !st.peers[p].waiting
    requires Assigned(RegisterNeed(GivenUp(st, p), p), t)
    ensures ModeIn(t, q) == if q == p then Some(Indirect) else ModeIn(st, q)
  {
    var u := RegisterNeed(GivenUp(st, p), p);
    assert PeerOk(p, st.peers[p]);
    NeedsListed(st, p);
    AssignedMode(u, t, q);
  }

  lemma NeedsListed(st: State, p: Id)
    requires Inv(st) && RelayKnown(st, p) && !st.peers[p].waiting
    ensures Listed(RegisterNeed(GivenUp(st, p), p)) && RegisterNeed(GivenUp(st, p), p).relays == st.relays
  {
  }

  lemma ReportedMode(st: State, p: Id, up: bool, relayServer: bool, t: State, q: Id)
    requires Next(st, Reported(p, up, relayServer), t)
    ensures ModeIn(t, q) == ModeIn(st, q)
  {
    if up && relayServer && !st.peers[p].isRelay {
      EnabledMode(st, p, q);
      AssignedMode(Enable(st, p), t, q);
    } else if !up && st.peers[p].isRelay {
      DissolvedMode(st, t, p, q);
    }
  }

  lemma EnabledMode(st: State, p: Id, q: Id)
    requires Inv(st) && p in st.peers
    ensures ModeIn(Enable(st, p), q) == ModeIn(st, q) && Listed(Enable(st, p))
  {
  }

  lemma NextMode(st: State, e: Event, t: State, q: Id)
    requires Next(st, e, t)
    ensures ModeIn(t, q) == ModeAfter(ModeIn(st, q), e, q)
  {
    match e
    case Added(_) =>
    case Removed(p) => RemovedMode(st, p, t, q);
    case NewLink(p, ok) => NewLinkMode(st, p, ok, t, q);
    case Needs(p) => NeededMode(st, p, t, q);
    case Reported(p, up, relayServer) => ReportedMode(st, p, up, relayServer, t, q);
  }

  lemma RemovedMode(st: State, p: Id, t: State, q: Id)
    requires Next(st, Removed(p), t)
    ensures ModeIn(t, q) == if q == p then None else ModeIn(st, q)
  {
    var mid: State :| CleanedUp(st, mid, p) && t == mid.(peers := mid.peers - {p});
    if q != p {
      CleanedMode(st, mid, p, q);
    }
  }

  lemma NewLinkMode(st: State, p: Id, ok: bool, t: State, q: Id)
    requires Inv(st) && RelayKnown(st, p) && p in t.peers
    requires t.peers[p] == if ok then UNREACHED.(link := true, flow := Some(p)) else UNREACHED
    requires exists mid: State :: p in mid.peers && CleanedUp(st, mid, p) && t == if ok then InitLink(mid, p) else mid
    ensures ModeIn(t, q) == if q == p then Some(if ok then Direct else Nowhere) else ModeIn(st, q)
  {
    if q != p {
      var mid: State :| p in mid.peers && CleanedUp(st, mid, p) && t == if ok then InitLink(mid, p) else mid;
      LinkedMode(st, mid, p, ok, q);
    }
  }

  lemma LinkedMode(st: State, mid: State, p: Id, ok: bool, q: Id)
    requires Inv(st) && RelayKnown(st, p) && p in mid.peers && CleanedUp(st, mid, p) && q != p
    ensures ModeIn(if ok then InitLink(mid, p) else mid, q) == ModeIn(st, q)
  {
    CleanedMode(st, mid, p, q);
  }

  lemma NeededMode(st: State, p: Id, t: State, q: Id)
    requires Next(st, Needs(p), t)
    ensures ModeIn(t, q) == if q == p then Some(Indirect) else ModeIn(st, q)
  {
    assert PeerOk(p, st.peers[p]);
    if !st.peers[p].waiting {
      NeedsMode(st, p, t, q);
    }
  }

  lemma NextRelays(st: State, e: Event, t: State)
    requires Next(st, e, t)
    ensures t.relays == RelaysAfter(st.relays, e)
  {
    match e
    case Added(_) =>
    case Removed(p) =>
      var mid: State :| CleanedUp(st, mid, p) && t == mid.(peers := mid.peers - {p});
      CleanedRelays(st, mid, p);
    case NewLink(p, ok) =>
      var mid: State :| p in mid.peers && CleanedUp(st, mid, p) && t == if ok then InitLink(mid, p) else mid;
      CleanedRelays(st, mid, p);
    case Needs(p) => NeedsRelays(st, p, t);
    case Reported(p, up, relayServer) =>
      assert p in st.relays <==> st.peers[p].isRelay;
      if !up && st.peers[p].isRelay {
        DissolvedRelays(st, t, p);
      }
  }

  lemma NeedsRelays(st: State, p: Id, t: State)
    requires Next(st, Needs(p), t)
    ensures t.relays == st.relays
  {
    if !st.peers[p].waiting {
      NeedsListed(st, p);
    }
  }

  lemma {:induction false} ModesExactly(h: seq<Event>, sts: seq<State>, p: Id)
    requires Run(h, sts)
    ensures sts[|h|].relays == Relays(h) && ModeIn(sts[|h|], p) == ModeOf(h, p)
  {
    if h != [] {
      var n := |h| - 1;
      ModesExactly(h[..n], sts[..n + 1], p);
      assert sts[..n + 1][n] == sts[n];
      NextMode(sts[n], h[n], sts[n + 1], p);
      NextRelays(sts[n], h[n], sts[n + 1]);
    }
  }

  /**
    In every run a peer's packets go where the history says: over its own link if it has
    one; if it needs a relay, over the link of one of the relays, and nowhere only while
    there is none; and nowhere if it is not reached.
   */
  lemma ReachedExactly(h: seq<Event>, sts: seq<State>, p: Id)
    requires Run(h, sts)
    ensures var st := sts[|h|]; var flow := if p in st.peers then st.peers[p].flow else None;
      && (p in st.peers <==> ModeOf(h, p).Some?)
      && match ModeOf(h, p)
         case None => true
         case Some(Nowhere) => flow == None
         case Some(Direct) => flow == Some(p)
         case Some(Indirect) => if Relays(h) == [] then flow == None else flow.Some? && flow.value in Relays(h)
  {
    ModesExactly(h, sts, p);
    if h != [] {
      assert Next(sts[|h| - 1], h[|h| - 1], sts[|h|]);
    }
    if p in sts[|h|].peers {
      FlowByMode(sts[|h|], p);
    }
  }

  lemma FlowByMode(st: State, p: Id)
    requires Inv(st) && AtRest(st) && p in st.peers
    ensures var flow := st.peers[p].flow;
      match ModeIn(st, p).value
      case Nowhere => flow == None
      case Direct => flow == Some(p)
      case Indirect => if st.relays == [] then flow == None else flow.Some? && flow.value in st.relays
  {
    assert PeerOk(p, st.peers[p]);
    if st.peers[p].relay.Some? {
      RelayIsLinked(st, p);
    } else if st.peers[p].waiting {
      assert p in st.waiting;
    }
  }

  /** Whoever waits when a relay comes, or loses its relay, gets the relay that has served longest. */
  lemma FirstRelayServes(st: State, e: Event, t: State, q: Id)
    requires Next(st, e, t) && (e.Reported? || e.Needs?) && t != st && q in st.peers && q in t.peers
    requires t.peers[q].relay.Some? && st.peers[q].relay != t.peers[q].relay
    ensures t.relays != [] && t.peers[q].relay == Some(t.relays[0])
  {
    match e
    case Needs(p) =>
      GivenUpRelay(st, p, q);
      AssignedFirst(RegisterNeed(GivenUp(st, p), p), t, q);
    case Reported(p, up, relayServer) =>
      if up {
        AssignedFirst(Enable(st, p), t, q);
      } else {
        DissolvedFirst(st, t, p, q);
      }
  }

  lemma GivenUpRelay(st: State, p: Id, q: Id)
    requires RelayKnown(st, p) && q in st.peers
    ensures q in GivenUp(st, p).peers && GivenUp(st, p).peers[q].relay in {None, st.peers[q].relay}
  {
  }

  lemma DissolvedFirst(st: State, t: State, p: Id, q: Id)
    requires Inv(st) && p in st.peers && Dissolved(st, t, p) && q in st.peers
    requires t.peers.Keys == st.peers.Keys && t.peers[q].relay.Some? && t.peers[q].relay != st.peers[q].relay
    ensures t.relays != [] && t.peers[q].relay == Some(t.relays[0])
  {
    var mid: State :| p in mid.peers && Released(st, mid, p) && Assigned(Disable(mid, p), t);
    assert mid.peers[q] == ReleasedPeer(st, q, p, |st.peers[p].users|);
    AssignedFirst(Disable(mid, p), t, q);
  }

  lemma AssignedFirst(st: State, t: State, q: Id)
    requires Assigned(st, t) && q in st.peers && t.peers[q].relay != st.peers[q].relay
    ensures t.relays != [] && t.peers[q].relay == Some(t.relays[0])
  {
    if st.relays != [] {
      assert t.peers[q] == AssignedPeer(st, q, |st.waiting|);
    }
  }
}
