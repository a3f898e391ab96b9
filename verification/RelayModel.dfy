/**
  How the client reaches its peers: over a link of its own, through a relay, or not yet
  because it waits for a relay. Peers with a good link may serve as relays for others.
 */
module RelayModel {
  import opened Bytes
  import opened Lists

  type Id = nat

  // relay is the peer this one is relayed through; flow is the peer whose link the
  // local flow wants to send to.
  datatype Peer = Peer(link: bool, relay: Option<Id>, waiting: bool, isRelay: bool, users: seq<Id>, flow: Option<Id>)

  // The relays and the waiting peers are in the order in which they came.
  datatype State = State(peers: map<Id, Peer>, relays: seq<Id>, waiting: seq<Id>)

  const INITIAL := State(map[], [], [])

  const UNREACHED := Peer(false, None, false, false, [], None)

  // One way of being reached at most; relays have links; the local flow goes where
  // the peer is reached.
  predicate PeerOk(p: Id, x: Peer) {
    && !(x.link && x.waiting) && !(x.link && x.relay.Some?) && !(x.waiting && x.relay.Some?)
    && (x.isRelay ==> x.link) && (!x.isRelay ==> x.users == []) && NoDup(x.users)
    && x.flow == if x.link then Some(p) else x.relay
  }

  predicate Uses(st: State, u: Id, r: Id) {
    u in st.peers && st.peers[u].relay == Some(r)
  }

  predicate Serves(st: State, r: Id, u: Id) {
    r in st.peers && u in st.peers[r].users
  }

  /** The lists mirror the flags, and users and relays know each other. */
  ghost predicate Inv(st: State) {
    && (forall p {:trigger PeerOk(p, st.peers[p])} :: p in st.peers ==> PeerOk(p, st.peers[p]))
    && NoDup(st.relays) && (forall p :: p in st.relays <==> p in st.peers && st.peers[p].isRelay)
    && NoDup(st.waiting) && (forall p :: p in st.waiting <==> p in st.peers && st.peers[p].waiting)
    && (forall u: Id, r: Id {:trigger Uses(st, u, r)} {:trigger Serves(st, r, u)} :: Uses(st, u, r) <==> Serves(st, r, u))
  }

  // Nobody waits while there is a relay.
  predicate AtRest(st: State) {
    st.relays == [] || st.waiting == []
  }

  // ----- elementary changes

  function Set(st: State, p: Id, x: Peer): State {
    st.(peers := st.peers[p := x])
  }

  function InitLink(st: State, p: Id): State
    requires p in st.peers
  {
    Set(st, p, st.peers[p].(link := true, flow := Some(p)))
  }

  function FreeLink(st: State, p: Id): State
    requires p in st.peers
  {
    Set(st, p, st.peers[p].(link := false, flow := None))
  }

  function RegisterNeed(st: State, p: Id): State
    requires p in st.peers
  {
    Set(st, p, st.peers[p].(waiting := true)).(waiting := st.waiting + [p])
  }

  function UnregisterNeed(st: State, p: Id): State
    requires p in st.peers
  {
    Set(st, p, st.peers[p].(waiting := false)).(waiting := Remove(st.waiting, p))
  }

  function InstallRelaying(st: State, p: Id, r: Id): State
    requires p in st.peers && r in st.peers && p != r
  {
    var t := Set(st, r, st.peers[r].(users := st.peers[r].users + [p]));
    Set(t, p, t.peers[p].(relay := Some(r), flow := Some(r)))
  }

  function FreeRelaying(st: State, p: Id): State
    requires p in st.peers && st.peers[p].relay.Some? && st.peers[p].relay.value in st.peers && st.peers[p].relay.value != p
  {
    var r := st.peers[p].relay.value;
    var t := Set(st, r, st.peers[r].(users := Remove(st.peers[r].users, p)));
    Set(t, p, t.peers[p].(relay := None, flow := None))
  }

  lemma RelayIsLinked(st: State, p: Id)
    requires Inv(st) && p in st.peers && st.peers[p].relay.Some?
    ensures var r := st.peers[p].relay.value;
      r in st.peers && r != p && st.peers[r].isRelay && st.peers[r].link && p in st.peers[r].users
  {
    var r := st.peers[p].relay.value;
    assert Uses(st, p, r);
    assert Serves(st, r, p);
    assert PeerOk(r, st.peers[r]);
    assert PeerOk(p, st.peers[p]);
  }

  // Only the flows of a relay's users and its own go to its link.
  lemma FlowsTo(st: State, p: Id, r: Id)
    requires Inv(st) && p in st.peers && p != r && st.peers[p].flow == Some(r)
    ensures r in st.peers && p in st.peers[r].users && st.peers[r].isRelay
  {
    assert PeerOk(p, st.peers[p]);
    RelayIsLinked(st, p);
  }

  // Changing one peer without touching relations or lists.
  lemma SetKeeps(st: State, p: Id, x: Peer)
    requires Inv(st) && p in st.peers && PeerOk(p, x)
    requires x.relay == st.peers[p].relay && x.waiting == st.peers[p].waiting && x.isRelay == st.peers[p].isRelay && x.users == st.peers[p].users
    ensures Inv(Set(st, p, x))
  {
    var t := Set(st, p, x);
    forall q | q in t.peers ensures PeerOk(q, t.peers[q]) {
      if q != p { assert PeerOk(q, st.peers[q]); }
    }
    forall u: Id, r: Id ensures Uses(t, u, r) <==> Serves(t, r, u) {
      assert Uses(st, u, r) <==> Serves(st, r, u);
    }
  }

  lemma InitLinkKeeps(st: State, p: Id)
    requires Inv(st) && p in st.peers && st.peers[p].relay.None? && !st.peers[p].waiting
    ensures Inv(InitLink(st, p))
  {
    assert PeerOk(p, st.peers[p]);
    SetKeeps(st, p, st.peers[p].(link := true, flow := Some(p)));
  }

  lemma FreeLinkKeeps(st: State, p: Id)
    requires Inv(st) && p in st.peers && st.peers[p].link && !st.peers[p].isRelay
    ensures Inv(FreeLink(st, p))
  {
    assert PeerOk(p, st.peers[p]);
    SetKeeps(st, p, st.peers[p].(link := false, flow := None));
  }

  lemma RegisterKeeps(st: State, p: Id)
    requires Inv(st) && p in st.peers && !st.peers[p].waiting && !st.peers[p].link && st.peers[p].relay.None?
    ensures Inv(RegisterNeed(st, p))
  {
    var t := RegisterNeed(st, p);
    forall q | q in t.peers ensures PeerOk(q, t.peers[q]) { assert PeerOk(q, st.peers[q]); }
    forall u: Id, r: Id ensures Uses(t, u, r) <==> Serves(t, r, u) { assert Uses(st, u, r) <==> Serves(st, r, u); }
  }

  lemma UnregisterKeeps(st: State, p: Id)
    requires Inv(st) && p in st.peers && st.peers[p].waiting
    ensures Inv(UnregisterNeed(st, p))
  {
    var t := UnregisterNeed(st, p);
    RemoveContents(st.waiting, p);
    forall q | q in t.peers ensures PeerOk(q, t.peers[q]) { assert PeerOk(q, st.peers[q]); }
    forall u: Id, r: Id ensures Uses(t, u, r) <==> Serves(t, r, u) { assert Uses(st, u, r) <==> Serves(st, r, u); }
  }

  lemma InstallKeeps(st: State, p: Id, r: Id)
    requires Inv(st) && p in st.peers && r in st.peers && st.peers[r].isRelay
    requires !st.peers[p].waiting && !st.peers[p].link && st.peers[p].relay.None?
    ensures p != r && Inv(InstallRelaying(st, p, r))
  {
    assert PeerOk(r, st.peers[r]);
    assert PeerOk(p, st.peers[p]);
    assert Uses(st, p, r) <==> Serves(st, r, p);
    var t := InstallRelaying(st, p, r);
    forall q | q in t.peers ensures PeerOk(q, t.peers[q]) { assert PeerOk(q, st.peers[q]); }
    forall u: Id, s: Id ensures Uses(t, u, s) <==> Serves(t, s, u) { assert Uses(st, u, s) <==> Serves(st, s, u); }
  }

  lemma FreeRelayingKeeps(st: State, p: Id)
    requires Inv(st) && p in st.peers && st.peers[p].relay.Some?
    ensures st.peers[p].relay.value in st.peers && st.peers[p].relay.value != p
    ensures Inv(FreeRelaying(st, p))
  {
    RelayIsLinked(st, p);
    var r := st.peers[p].relay.value;
    assert PeerOk(r, st.peers[r]);
    assert PeerOk(p, st.peers[p]);
    RemoveContents(st.peers[r].users, p);
    var t := FreeRelaying(st, p);
    forall q | q in t.peers ensures PeerOk(q, t.peers[q]) { assert PeerOk(q, st.peers[q]); }
    forall u: Id, s: Id ensures Uses(t, u, s) <==> Serves(t, s, u) { assert Uses(st, u, s) <==> Serves(st, s, u); }
  }

  // ----- relays come and go

  function Enable(st: State, p: Id): State
    requires p in st.peers
  {
    Set(st, p, st.peers[p].(isRelay := true, users := [])).(relays := st.relays + [p])
  }

  // A relay that serves nobody any more.
  function Disable(st: State, p: Id): State
    requires p in st.peers
  {
    Set(st, p, st.peers[p].(isRelay := false, users := [])).(relays := Remove(st.relays, p))
  }

  lemma EnableKeeps(st: State, p: Id)
    requires Inv(st) && p in st.peers && st.peers[p].link && !st.peers[p].isRelay
    ensures Inv(Enable(st, p))
  {
    var t := Enable(st, p);
    forall q | q in t.peers ensures PeerOk(q, t.peers[q]) { assert PeerOk(q, st.peers[q]); }
    assert PeerOk(p, st.peers[p]);
    forall u: Id, r: Id ensures Uses(t, u, r) <==> Serves(t, r, u) { assert Uses(st, u, r) <==> Serves(st, r, u); }
  }

  lemma DisableKeeps(st: State, p: Id)
    requires Inv(st) && p in st.peers && st.peers[p].isRelay && st.peers[p].users == []
    ensures Inv(Disable(st, p))
  {
    var t := Disable(st, p);
    RemoveContents(st.relays, p);
    forall q | q in t.peers ensures PeerOk(q, t.peers[q]) { assert PeerOk(q, st.peers[q]); }
    forall u: Id, r: Id ensures Uses(t, u, r) <==> Serves(t, r, u) { assert Uses(st, u, r) <==> Serves(st, r, u); }
  }

  // ----- what becomes of everyone

  // The first k waiting peers have been given to the first relay.
  ghost predicate AssignedUpTo(st: State, t: State, k: nat)
    requires k <= |st.waiting|
  {
    && t.relays == st.relays && t.peers.Keys == st.peers.Keys && t.waiting == st.waiting[k..]
    && forall p {:trigger t.peers[p]} :: p in st.peers ==> t.peers[p] == AssignedPeer(st, p, k)
  }

  function AssignedPeer(st: State, p: Id, k: nat): Peer
    requires p in st.peers && k <= |st.waiting|
  {
    var x := st.peers[p];
    if st.relays == [] then x
    else if p in st.waiting[..k] then x.(waiting := false, relay := Some(st.relays[0]), flow := Some(st.relays[0]))
    else if p == st.relays[0] then x.(users := x.users + st.waiting[..k])
    else x
  }

  /** Everyone who waits gets the first relay, if there is one; nobody else is touched. */
  ghost predicate Assigned(st: State, t: State) {
    AssignedUpTo(st, t, if st.relays == [] then 0 else |st.waiting|)
  }

  lemma AssignNext(st: State, t: State, k: nat)
    requires Inv(st) && Inv(t) && k < |st.waiting| && AssignedUpTo(st, t, k) && st.relays != []
    ensures var p, r := st.waiting[k], st.relays[0];
      && t.waiting[0] == p && p in t.peers && r in t.peers && t.peers[p].waiting && t.peers[r].isRelay && p != r
      && AssignedUpTo(st, InstallRelaying(UnregisterNeed(t, p), p, r), k + 1)
  {
    var p, r := st.waiting[k], st.relays[0];
    AssignHead(st, t, k);
    var u := InstallRelaying(UnregisterNeed(t, p), p, r);
    assert st.waiting[..k + 1] == st.waiting[..k] + [p];
    forall q | q in st.peers ensures u.peers[q] == AssignedPeer(st, q, k + 1) {
      AssignPeer(st, t, k, q);
    }
  }

  lemma AssignPeer(st: State, t: State, k: nat, q: Id)
    requires Inv(st) && Inv(t) && k < |st.waiting| && AssignedUpTo(st, t, k) && st.relays != [] && q in st.peers
    ensures var p, r := st.waiting[k], st.relays[0];
      && p in t.peers && r in t.peers && t.peers[p].waiting && t.peers[r].isRelay && p != r
      && InstallRelaying(UnregisterNeed(t, p), p, r).peers[q] == AssignedPeer(st, q, k + 1)
  {
    var p, r := st.waiting[k], st.relays[0];
    AssignHead(st, t, k);
    assert t.peers[q] == AssignedPeer(st, q, k);
    AssignedNext(st, q, k);
  }

  // One more assigned changes that one and the relay.
  lemma AssignedNext(st: State, q: Id, k: nat)
    requires q in st.peers && k < |st.waiting| && st.relays != [] && st.waiting[k] != st.relays[0]
    requires st.waiting[k] !in st.waiting[..k] && st.relays[0] !in st.waiting[..k + 1]
    ensures var x, p, r := AssignedPeer(st, q, k), st.waiting[k], st.relays[0];
      AssignedPeer(st, q, k + 1) ==
        if q == p then x.(waiting := false, relay := Some(r), flow := Some(r)) else if q == r then x.(users := x.users + [p]) else x
  {
    var p, r := st.waiting[k], st.relays[0];
    assert st.waiting[..k + 1] == st.waiting[..k] + [p];
    if q == r {
      Assoc(st.peers[r].users, st.waiting[..k], [p]);
    }
  }

  // The next to be assigned, and the relay.
  lemma AssignHead(st: State, t: State, k: nat)
    requires Inv(st) && Inv(t) && k < |st.waiting| && AssignedUpTo(st, t, k) && st.relays != []
    ensures var p, r := st.waiting[k], st.relays[0];
      && t.waiting[0] == p && p in t.peers && r in t.peers && t.peers[p].waiting && t.peers[r].isRelay && p != r
      && p !in st.waiting[..k] && r !in st.waiting[..k + 1] && Remove(t.waiting, p) == st.waiting[k + 1..]
  {
    var p, r := st.waiting[k], st.relays[0];
    assert t.waiting[0] == p && p in t.waiting;
    assert r in t.relays && r in st.relays;
    assert PeerOk(p, t.peers[p]) && PeerOk(r, t.peers[r]) && PeerOk(r, st.peers[r]);
    assert t.waiting == [p] + st.waiting[k + 1..];
    assert forall x :: x in st.waiting[..k + 1] ==> x in st.waiting;
  }

  // The first k users of a relay have been sent to wait.
  ghost predicate ReleasedUpTo(st: State, t: State, r: Id, k: nat)
    requires r in st.peers && k <= |st.peers[r].users|
  {
    && t.relays == st.relays && t.peers.Keys == st.peers.Keys && t.waiting == st.waiting + st.peers[r].users[..k]
    && forall p {:trigger t.peers[p]} :: p in st.peers ==> t.peers[p] == ReleasedPeer(st, p, r, k)
  }

  function ReleasedPeer(st: State, p: Id, r: Id, k: nat): Peer
    requires p in st.peers && r in st.peers && k <= |st.peers[r].users|
  {
    var x := st.peers[p];
    if p in st.peers[r].users[..k] then x.(waiting := true, relay := None, flow := None)
    else if p == r then x.(users := x.users[k..])
    else x
  }

  ghost predicate Released(st: State, t: State, r: Id)
    requires r in st.peers
  {
    ReleasedUpTo(st, t, r, |st.peers[r].users|)
  }

  /** A relay stops: its users wait, and are assigned to another relay if there is one. */
  ghost predicate Dissolved(st: State, t: State, r: Id)
    requires r in st.peers
  {
    exists mid: State :: r in mid.peers && Released(st, mid, r) && Assigned(Disable(mid, r), t)
  }

  // A relay's users have moved on, and then its link is gone.
  ghost predicate Dropped(st: State, t: State, p: Id)
    requires p in st.peers
  {
    exists mid: State :: p in mid.peers && Dissolved(st, mid, p) && t == FreeLink(mid, p)
  }

  /** Everything that reaches the peer is undone, and with a relay its users move on. */
  ghost predicate CleanedUp(st: State, t: State, p: Id)
    requires p in st.peers && (st.peers[p].relay.Some? ==> st.peers[p].relay.value in st.peers && st.peers[p].relay.value != p)
  {
    var x := st.peers[p];
    if x.link then
      if x.isRelay then Dropped(st, t, p)
      else t == FreeLink(st, p)
    else if x.relay.Some? then t == FreeRelaying(st, p)
    else if x.waiting then t == UnregisterNeed(st, p)
    else t == st
  }

  lemma ReleaseNext(st: State, t: State, r: Id, k: nat)
    requires Inv(st) && Inv(t) && r in st.peers && k < |st.peers[r].users| && ReleasedUpTo(st, t, r, k)
    ensures var u := st.peers[r].users[k];
      && r in t.peers && t.peers[r].users != [] && t.peers[r].users[0] == u && u in t.peers && t.peers[u].relay == Some(r) && u != r
      && !t.peers[u].link && !t.peers[u].waiting
      && ReleasedUpTo(st, RegisterNeed(FreeRelaying(t, u), u), r, k + 1)
  {
    var users := st.peers[r].users;
    var u := users[k];
    assert PeerOk(r, st.peers[r]) && PeerOk(r, t.peers[r]);
    NotOwnUser(st, r);
    assert t.peers[r] == ReleasedPeer(st, r, r, k);
    assert users[k..][0] == u && u in t.peers[r].users;
    assert Serves(t, r, u);
    assert Uses(t, u, r);
    RelayIsLinked(t, u);
    assert PeerOk(u, t.peers[u]);
    var v := RegisterNeed(FreeRelaying(t, u), u);
    assert users[..k + 1] == users[..k] + [u];
    assert users[k..] == [u] + users[k + 1..];
    assert Remove(users[k..], u) == users[k + 1..];
    Assoc(st.waiting, users[..k], [u]);
    forall q | q in st.peers ensures v.peers[q] == ReleasedPeer(st, q, r, k + 1) {
      assert t.peers[q] == ReleasedPeer(st, q, r, k);
    }
  }

  // No relay serves itself.
  lemma NotOwnUser(st: State, r: Id)
    requires Inv(st) && r in st.peers
    ensures r !in st.peers[r].users
  {
    if r in st.peers[r].users {
      assert Serves(st, r, r);
      assert Uses(st, r, r);
      RelayIsLinked(st, r);
    }
  }
}
