/**
  The client's peers as it keeps them: flags on each peer, the list of relays, the list
  of peers waiting for one, and each relay's list of users, updated by event handlers.
 */
module RelayClient {
  import opened Bytes
  import opened Lists
  import opened RelayModel

  // ----- what the events do

  datatype Event =
    | Added(p: Id)
    | Removed(p: Id)
    | NewLink(p: Id, ok: bool)
    | Reported(p: Id, up: bool, relayServer: bool)
    | Needs(p: Id)

  // What the handlers of the client promise for each event.
  ghost predicate Next(st: State, e: Event, t: State) {
    && Inv(st) && AtRest(st) && Inv(t) && AtRest(t)
    && match e
       case Added(p) => p !in st.peers && t == st.(peers := st.peers[p := UNREACHED])
       case Removed(p) => RelayKnown(st, p) && exists mid: State :: CleanedUp(st, mid, p) && t == mid.(peers := mid.peers - {p})
       case NewLink(p, ok) =>
         && RelayKnown(st, p) && p in t.peers && t.peers[p] == (if ok then UNREACHED.(link := true, flow := Some(p)) else UNREACHED)
         && exists mid: State :: p in mid.peers && CleanedUp(st, mid, p) && t == if ok then InitLink(mid, p) else mid
       case Reported(p, up, relayServer) =>
         && p in st.peers && st.peers[p].link
         && if up && relayServer && !st.peers[p].isRelay then Assigned(Enable(st, p), t)
            else if !up && st.peers[p].isRelay then Dissolved(st, t, p)
            else t == st
       case Needs(p) =>
         && RelayKnown(st, p) && !st.peers[p].isRelay
         && if st.peers[p].waiting then t == st else Assigned(RegisterNeed(GivenUp(st, p), p), t)
  }

  // A relay that has lost its users, and then its link.
  lemma DroppedVia(st: State, mid: State, t: State, p: Id)
    requires p in st.peers && p in mid.peers && mid.peers.Keys == st.peers.Keys && Dissolved(st, mid, p)
    requires AtRest(mid) && PeerOk(p, mid.peers[p]) && mid.peers[p].link && t == FreeLink(mid, p)
    ensures AtRest(t) && t.peers.Keys == st.peers.Keys && Dropped(st, t, p)
    ensures !t.peers[p].link && t.peers[p].relay.None? && !t.peers[p].waiting
  {
  }

  class Client {
    var peers: map<Id, Peer>
    var relays: seq<Id>
    var waitingRelayPeers: seq<Id>

    ghost function St(): State
      reads this
    {
      State(peers, relays, waitingRelayPeers)
    }

    constructor ()
      ensures St() == INITIAL && Inv(St()) && AtRest(St())
    {
      peers, relays, waitingRelayPeers := map[], [], [];
    }

    // ----- elementary operations

    method PeerInitLink(p: Id)
      requires Inv(St()) && p in peers
      requires !peers[p].link && peers[p].relay.None? && !peers[p].waiting && !peers[p].isRelay
      modifies this`peers
      ensures St() == old(InitLink(St(), p)) && Inv(St())
    {
      InitLinkKeeps(St(), p);
      peers := peers[p := peers[p].(flow := Some(p))];
      peers := peers[p := peers[p].(link := true)];
    }

    // The link's sink can go: nobody's flow wants it any more.
    method PeerFreeLink(p: Id)
      requires Inv(St()) && p in peers && peers[p].link && !peers[p].isRelay
      modifies this`peers
      ensures St() == old(FreeLink(St(), p)) && Inv(St())
      ensures forall q :: q in peers ==> peers[q].flow != Some(p)
    {
      FreeLinkKeeps(St(), p);
      ghost var st := St();
      assert PeerOk(p, peers[p]);
      peers := peers[p := peers[p].(flow := None)];
      forall q | q in peers ensures peers[q].flow != Some(p) {
        if q != p && st.peers[q].flow == Some(p) {
          FlowsTo(st, q, p);
        }
      }
      peers := peers[p := peers[p].(link := false)];
    }

    method PeerRegisterNeedRelay(p: Id)
      requires Inv(St()) && p in peers && !peers[p].waiting && !peers[p].link && peers[p].relay.None?
      modifies this`peers, this`waitingRelayPeers
      ensures St() == old(RegisterNeed(St(), p)) && Inv(St())
    {
      RegisterKeeps(St(), p);
      waitingRelayPeers := waitingRelayPeers + [p];
      peers := peers[p := peers[p].(waiting := true)];
    }

    method PeerUnregisterNeedRelay(p: Id)
      requires Inv(St()) && p in peers && peers[p].waiting
      modifies this`peers, this`waitingRelayPeers
      ensures St() == old(UnregisterNeed(St(), p)) && Inv(St())
    {
      UnregisterKeeps(St(), p);
      waitingRelayPeers := Remove(waitingRelayPeers, p);
      peers := peers[p := peers[p].(waiting := false)];
    }

    method PeerInstallRelaying(p: Id, r: Id)
      requires Inv(St()) && p in peers && r in peers && peers[r].isRelay
      requires !peers[p].waiting && !peers[p].link && peers[p].relay.None?
      modifies this`peers
      ensures p != r && St() == old(InstallRelaying(St(), p, r)) && Inv(St())
    {
      InstallKeeps(St(), p, r);
      peers := peers[r := peers[r].(users := peers[r].users + [p])];
      peers := peers[p := peers[p].(flow := Some(r))];
      peers := peers[p := peers[p].(relay := Some(r))];
    }

    method PeerFreeRelaying(p: Id)
      requires Inv(St()) && p in peers && peers[p].relay.Some?
      modifies this`peers
      ensures old(peers[p].relay.value in peers && peers[p].relay.value != p)
      ensures St() == old(FreeRelaying(St(), p)) && Inv(St())
    {
      FreeRelayingKeeps(St(), p);
      RelayIsLinked(St(), p);
      var r := peers[p].relay.value;
      assert peers[r].isRelay && peers[r].link;
      FreedInOrder(peers, p, r);
      peers := peers[p := peers[p].(flow := None)];
      peers := peers[r := peers[r].(users := Remove(peers[r].users, p))];
      peers := peers[p := peers[p].(relay := None)];
    }

    // ----- relays

    method AssignRelays()
      requires Inv(St())
      modifies this`peers, this`waitingRelayPeers
      ensures Inv(St()) && AtRest(St()) && Assigned(old(St()), St())
    {
      ghost var st := St();
      ghost var k := 0;
      assert waitingRelayPeers == st.waiting[0..];
      if relays == [] {
        return;
      }
      AssignNone(st);
      while waitingRelayPeers != []
        invariant k <= |st.waiting| && Inv(St()) && AssignedUpTo(st, St(), k) && relays == st.relays
        decreases |waitingRelayPeers|
      {
        AssignNext(st, St(), k);
        var p := waitingRelayPeers[0];
        AssignOne(p, relays[0]);
        k := k + 1;
      }
      assert k == |st.waiting|;
    }

    method AssignOne(p: Id, r: Id)
      requires Inv(St()) && p in peers && r in peers && peers[p].waiting && peers[r].isRelay && p != r
      modifies this`peers, this`waitingRelayPeers
      ensures St() == old(InstallRelaying(UnregisterNeed(St(), p), p, r)) && Inv(St())
    {
      assert PeerOk(p, peers[p]);
      PeerUnregisterNeedRelay(p);
      PeerInstallRelaying(p, r);
    }

    method PeerEnableRelayProvider(p: Id)
      requires Inv(St()) && p in peers && peers[p].link && !peers[p].isRelay
      modifies this
      ensures Inv(St()) && AtRest(St()) && Assigned(old(Enable(St(), p)), St())
    {
      EnableKeeps(St(), p);
      relays := relays + [p];
      peers := peers[p := peers[p].(users := [])];
      peers := peers[p := peers[p].(isRelay := true)];
      assert St() == old(Enable(St(), p));
      AssignRelays();
    }

    // The users of the relay wait again.
    method ReleaseUsers(r: Id)
      requires Inv(St()) && r in peers && peers[r].isRelay
      modifies this`peers, this`waitingRelayPeers
      ensures Inv(St()) && Released(old(St()), St(), r)
    {
      ghost var st := St();
      ghost var k := 0;
      ReleaseNone(st, r);
      while peers[r].users != []
        invariant r in peers && k <= |st.peers[r].users| && Inv(St()) && ReleasedUpTo(st, St(), r, k)
        invariant peers[r].users == st.peers[r].users[k..]
        decreases |peers[r].users|
      {
        ReleaseNext(st, St(), r, k);
        var u := peers[r].users[0];
        PeerFreeRelaying(u);
        PeerRegisterNeedRelay(u);
        k := k + 1;
        NotOwnUser(st, r);
        assert peers[r] == ReleasedPeer(st, r, r, k);
      }
      assert k == |st.peers[r].users|;
    }

    method PeerDisableRelayProvider(p: Id)
      requires Inv(St()) && p in peers && peers[p].isRelay
      modifies this
      ensures Inv(St()) && AtRest(St())
      ensures Dissolved(old(St()), St(), p)
    {
      NotOwnUser(St(), p);
      ReleaseUsers(p);
      ghost var mid := St();
      assert mid.peers[p].users == [];
      DisableKeeps(mid, p);
      relays := Remove(relays, p);
      peers := peers[p := peers[p].(isRelay := false)];
      assert St() == Disable(mid, p);
      AssignRelays();
    }

    // ----- events

    // The link of a relay goes, and with it the relay.
    method DropRelayLink(p: Id)
      requires Inv(St()) && AtRest(St()) && p in peers && peers[p].isRelay
      modifies this
      ensures Inv(St()) && AtRest(St()) && peers.Keys == old(peers.Keys) && !peers[p].link
      ensures peers[p].relay.None? && !peers[p].waiting
      ensures Dropped(old(St()), St(), p)
    {
      ghost var was := St();
      StopRelaying(p);
      ghost var mid := St();
      assert PeerOk(p, mid.peers[p]);
      PeerFreeLink(p);
      ghost var t := St();
      DroppedVia(was, mid, t, p);
    }

    method StopRelaying(p: Id)
      requires Inv(St()) && p in peers && peers[p].isRelay
      modifies this
      ensures Inv(St()) && AtRest(St()) && peers.Keys == old(peers.Keys) && peers[p].link && !peers[p].isRelay
      ensures Dissolved(old(St()), St(), p)
    {
      PeerDisableRelayProvider(p);
      StillLinked(old(St()), St(), p);
    }

    method PeerCleanupConnections(p: Id)
      requires Inv(St()) && AtRest(St()) && p in peers
      modifies this
      ensures Inv(St()) && AtRest(St()) && peers.Keys == old(peers.Keys)
      ensures peers[p] == UNREACHED
      ensures forall q :: q in peers ==> peers[q].flow != Some(p)
      ensures RelayKnown(old(St()), p) && CleanedUp(old(St()), St(), p)
    {
      assert PeerOk(p, peers[p]);
      if peers[p].relay.Some? {
        RelayIsLinked(St(), p);
      }
      if peers[p].link && peers[p].isRelay {
        DropRelayLink(p);
      } else if peers[p].link {
        PeerFreeLink(p);
      } else if peers[p].relay.Some? {
        PeerFreeRelaying(p);
      } else if peers[p].waiting {
        RemoveContents(waitingRelayPeers, p);
        PeerUnregisterNeedRelay(p);
      }
      NobodyFlowsTo(St(), p);
    }

    // A new link, as for binding and connecting; if it cannot be had the peer is reset.
    method PeerNewLink(p: Id, ok: bool)
      requires Inv(St()) && AtRest(St()) && p in peers
      modifies this
      ensures Inv(St()) && AtRest(St()) && peers.Keys == old(peers.Keys)
      ensures peers[p] == if ok then UNREACHED.(link := true, flow := Some(p)) else UNREACHED
      ensures RelayKnown(old(St()), p) &&
        exists mid: State :: p in mid.peers && CleanedUp(old(St()), mid, p) && St() == if ok then InitLink(mid, p) else mid
      ensures Next(old(St()), NewLink(p, ok), St())
    {
      PeerCleanupConnections(p);
      ghost var mid := St();
      if ok {
        PeerInitLink(p);
      } else {
        PeerCleanupConnections(p);
        assert St() == mid;
      }
    }

    // The link's data protocol reports up or down.
    method PeerDataprotoHandler(p: Id, up: bool, relayServer: bool)
      requires Inv(St()) && AtRest(St()) && p in peers && peers[p].link
      modifies this
      ensures Inv(St()) && AtRest(St()) && peers.Keys == old(peers.Keys)
      ensures peers[p].link && (peers[p].isRelay <==> up && (old(peers[p].isRelay) || relayServer))
      ensures if up && relayServer && !old(peers[p].isRelay) then Assigned(old(Enable(St(), p)), St())
        else if !up && old(peers[p].isRelay) then Dissolved(old(St()), St(), p)
        else St() == old(St())
      ensures Next(old(St()), Reported(p, up, relayServer), St())
    {
      assert PeerOk(p, peers[p]);
      if up {
        if relayServer && !peers[p].isRelay {
          PeerEnableRelayProvider(p);
          EnabledStays(old(St()), St(), p);
        }
      } else if peers[p].isRelay {
        StopRelaying(p);
      }
    }

    // The peer cannot be reached directly.
    method PeerNeedRelay(p: Id)
      requires Inv(St()) && AtRest(St()) && p in peers && !peers[p].isRelay
      modifies this
      ensures Inv(St()) && AtRest(St()) && peers.Keys == old(peers.Keys)
      ensures !peers[p].link && (peers[p].waiting <==> relays == []) && (peers[p].relay.Some? <==> relays != [])
      ensures relays == old(relays)
      ensures if old(peers[p].waiting) then St() == old(St())
        else RelayKnown(old(St()), p) && Assigned(RegisterNeed(GivenUp(old(St()), p), p), St())
      ensures Next(old(St()), Needs(p), St())
    {
      assert PeerOk(p, peers[p]);
      if peers[p].waiting {
        assert p in waitingRelayPeers;
        return;
      }
      GiveUp(p);
      PeerRegisterNeedRelay(p);
      ghost var st := St();
      AssignRelays();
      NeederServed(st, St(), p);
    }

    method GiveUp(p: Id)
      requires Inv(St()) && p in peers && !peers[p].isRelay && !peers[p].waiting
      modifies this`peers
      ensures Inv(St()) && peers.Keys == old(peers.Keys)
      ensures !peers[p].link && peers[p].relay.None? && !peers[p].waiting && !peers[p].isRelay
      ensures RelayKnown(old(St()), p) && St() == GivenUp(old(St()), p)
    {
      assert PeerOk(p, peers[p]);
      if peers[p].relay.Some? {
        RelayIsLinked(St(), p);
      }
      if peers[p].link {
        PeerFreeLink(p);
      } else if peers[p].relay.Some? {
        PeerFreeRelaying(p);
      }
    }

    method PeerAdd(p: Id)
      requires Inv(St()) && AtRest(St()) && p !in peers
      modifies this`peers
      ensures Inv(St()) && AtRest(St()) && peers == old(peers)[p := UNREACHED]
      ensures Next(old(St()), Added(p), St())
    {
      ghost var st := St();
      peers := peers[p := UNREACHED];
      PeersChange(st, St(), p);
    }

    method PeerRemove(p: Id)
      requires Inv(St()) && AtRest(St()) && p in peers
      modifies this
      ensures Inv(St()) && AtRest(St()) && peers.Keys == old(peers.Keys) - {p}
      ensures RelayKnown(old(St()), p) && exists mid: State :: CleanedUp(old(St()), mid, p) && St() == mid.(peers := mid.peers - {p})
      ensures Next(old(St()), Removed(p), St())
    {
      PeerCleanupConnections(p);
      ghost var st := St();
      peers := peers - {p};
      PeersChange(st, St(), p);
    }
  }

  // The order in which the program clears the fields makes no difference.
  lemma FreedInOrder(m: map<Id, Peer>, p: Id, r: Id)
    requires p in m && r in m && p != r
    ensures var a := m[p := m[p].(flow := None)]; var b := a[r := a[r].(users := Remove(a[r].users, p))];
      b[p := b[p].(relay := None)] == m[r := m[r].(users := Remove(m[r].users, p))][p := m[p].(relay := None, flow := None)]
  {
  }

  // The peer's own link or its relaying is given up.
  function GivenUp(st: State, p: Id): (t: State)
    requires RelayKnown(st, p)
    ensures p in t.peers
  {
    if st.peers[p].link then FreeLink(st, p) else if st.peers[p].relay.Some? then FreeRelaying(st, p) else st
  }

  predicate RelayKnown(st: State, p: Id) {
    p in st.peers && (st.peers[p].relay.Some? ==> st.peers[p].relay.value in st.peers && st.peers[p].relay.value != p)
  }

  // An unreached peer's link is wanted by nobody.
  lemma NobodyFlowsTo(st: State, p: Id)
    requires Inv(st) && p in st.peers && !st.peers[p].link && st.peers[p].relay.None? && !st.peers[p].waiting
    ensures st.peers[p] == UNREACHED
    ensures forall q :: q in st.peers ==> st.peers[q].flow != Some(p)
  {
    assert PeerOk(p, st.peers[p]);
    forall q | q in st.peers ensures st.peers[q].flow != Some(p) {
      if q != p && st.peers[q].flow == Some(p) {
        FlowsTo(st, q, p);
      }
    }
  }

  lemma AssignNone(st: State)
    ensures AssignedUpTo(st, st, 0)
  {
  }

  lemma ReleaseNone(st: State, r: Id)
    requires r in st.peers
    ensures ReleasedUpTo(st, st, r, 0)
  {
  }

  lemma ReleasedSelf(st: State, mid: State, p: Id)
    requires p in st.peers && p in mid.peers && p !in st.peers[p].users && Released(st, mid, p)
    ensures mid.peers.Keys == st.peers.Keys && mid.peers[p].link == st.peers[p].link
  {
    assert mid.peers[p] == ReleasedPeer(st, p, p, |st.peers[p].users|);
  }

  lemma AssignedSelf(d: State, t: State, p: Id)
    requires p in d.peers && Assigned(d, t)
    ensures t.peers.Keys == d.peers.Keys && t.peers[p].link == d.peers[p].link && t.peers[p].isRelay == d.peers[p].isRelay
  {
    assert t.peers[p] == AssignedPeer(d, p, if d.relays == [] then 0 else |d.waiting|);
  }

  // A relay that has been disabled keeps its link and its place.
  lemma StillLinked(st: State, t: State, p: Id)
    requires Inv(st) && p in st.peers && st.peers[p].isRelay && Dissolved(st, t, p)
    ensures t.peers.Keys == st.peers.Keys && t.peers[p].link && !t.peers[p].isRelay
  {
    var mid: State :| p in mid.peers && Released(st, mid, p) && Assigned(Disable(mid, p), t);
    NotOwnUser(st, p);
    assert PeerOk(p, st.peers[p]);
    ReleasedSelf(st, mid, p);
    AssignedSelf(Disable(mid, p), t, p);
  }

  lemma EnabledStays(st: State, t: State, p: Id)
    requires Inv(st) && p in st.peers && st.peers[p].link && !st.peers[p].isRelay && Assigned(Enable(st, p), t)
    ensures t.peers.Keys == st.peers.Keys && t.peers[p].link && t.peers[p].isRelay
  {
    AssignedSelf(Enable(st, p), t, p);
  }

  lemma NeederServed(st: State, t: State, p: Id)
    requires Inv(st) && Inv(t) && p in st.peers && st.peers[p].waiting && Assigned(st, t)
    ensures t.peers.Keys == st.peers.Keys && t.relays == st.relays
    ensures !t.peers[p].link && (t.peers[p].waiting <==> t.relays == []) && (t.peers[p].relay.Some? <==> t.relays != [])
  {
    assert PeerOk(p, st.peers[p]);
    assert p in st.waiting;
    var k := if st.relays == [] then 0 else |st.waiting|;
    assert st.waiting[..|st.waiting|] == st.waiting;
    assert t.peers[p] == AssignedPeer(st, p, k);
  }

  // An unreached peer may come and go without anyone noticing.
  lemma PeersChange(st: State, t: State, p: Id)
    requires Inv(st) && t.relays == st.relays && t.waiting == st.waiting
    requires (p !in st.peers && t.peers == st.peers[p := UNREACHED]) || (p in st.peers && st.peers[p] == UNREACHED && t.peers == st.peers - {p})
    ensures Inv(t)
  {
    forall q | q in t.peers ensures PeerOk(q, t.peers[q]) {
      if q != p { assert PeerOk(q, st.peers[q]); }
    }
    forall u: Id, r: Id ensures Uses(t, u, r) <==> Serves(t, r, u) {
      assert Uses(st, u, r) <==> Serves(st, r, u);
    }
  }
}
