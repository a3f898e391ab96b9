/**
  The learning switch with IGMP snooping as it should behave, without indexes: each
  peer has the addresses it was last seen to use and the groups it has joined, oldest
  first and at most so many.
 */
module FrameSwitch {
  import opened Bytes
  import opened Lists
  import opened Frames
  import opened Recency

  type PeerId = nat

  datatype Config = Config(maxMacs: nat, maxGroups: nat, membership: int, lastMember: int) {
    predicate Valid() {
      maxMacs > 0 && maxGroups > 0
    }
  }

  datatype Member = Member(group: Group, deadline: int)

  datatype Peer = Peer(macs: seq<Mac>, groups: seq<Member>)

  // order is the order in which the peers came.
  datatype Switch = Switch(order: seq<PeerId>, tab: map<PeerId, Peer>)

  const EMPTY := Switch([], map[])

  // A group membership of a peer.
  datatype Key = Key(peer: PeerId, group: Group)

  function Find(ms: seq<Member>, g: Group): (i: nat)
    ensures i <= |ms| && (i < |ms| ==> ms[i].group == g)
    ensures forall k :: 0 <= k < i ==> ms[k].group != g
  {
    if ms == [] || ms[0].group == g then 0 else 1 + Find(ms[1..], g)
  }

  predicate Has(ms: seq<Member>, g: Group) {
    Find(ms, g) < |ms|
  }

  predicate Joined(sw: Switch, k: Key) {
    k.peer in sw.tab && Has(sw.tab[k.peer].groups, k.group)
  }

  predicate DistinctGroups(ms: seq<Member>) {
    forall i, j :: 0 <= i < j < |ms| ==> ms[i].group != ms[j].group
  }

  /**
    What every run keeps: peers are listed once; an address belongs to one peer at
    most; a peer holds no address and no group twice, and not too many of either.
   */
  ghost predicate Inv(cfg: Config, sw: Switch) {
    && NoDup(sw.order) && (forall p :: p in sw.order <==> p in sw.tab)
    && (forall p {:trigger PeerOk(cfg, sw.tab[p])} :: p in sw.tab ==> PeerOk(cfg, sw.tab[p]))
    && (forall p: PeerId, q: PeerId, m: Mac {:trigger Owns(sw, p, m), Owns(sw, q, m)} :: Owns(sw, p, m) && Owns(sw, q, m) ==> p == q)
  }

  predicate PeerOk(cfg: Config, peer: Peer) {
    && NoDup(peer.macs) && |peer.macs| <= cfg.maxMacs
    && DistinctGroups(peer.groups) && |peer.groups| <= cfg.maxGroups
  }

  // ----- steps

  function LearnIn(macs: seq<Mac>, m: Mac, max: nat): seq<Mac>
    requires max > 0
  {
    Renewed(macs, m, max)
  }

  // A peer was seen to use an address: it is the newest of that peer's, and no other
  // peer's any more.
  function Learn(cfg: Config, sw: Switch, p: PeerId, m: Mac): Switch
    requires cfg.Valid()
  {
    sw.(tab := map q | q in sw.tab :: sw.tab[q].(macs :=
      if q == p then LearnIn(sw.tab[q].macs, m, cfg.maxMacs) else Remove(sw.tab[q].macs, m)))
  }

  function Without(ms: seq<Member>, g: Group): seq<Member> {
    if Has(ms, g) then RemoveAt(ms, Find(ms, g)) else ms
  }

  function JoinIn(ms: seq<Member>, g: Group, deadline: int, max: nat): seq<Member>
    requires max > 0
  {
    (if Has(ms, g) then Without(ms, g) else Room(ms, max)) + [Member(g, deadline)]
  }

  function Join(cfg: Config, sw: Switch, p: PeerId, g: Group, deadline: int): Switch
    requires cfg.Valid() && p in sw.tab
  {
    sw.(tab := sw.tab[p := sw.tab[p].(groups := JoinIn(sw.tab[p].groups, g, deadline, cfg.maxGroups))])
  }

  function Leave(sw: Switch, p: PeerId, g: Group): Switch
    requires p in sw.tab
  {
    sw.(tab := sw.tab[p := sw.tab[p].(groups := Without(sw.tab[p].groups, g))])
  }

  function LowerIn(ms: seq<Member>, g: Group, limit: int): (r: seq<Member>)
    ensures |r| == |ms|
    ensures forall i :: 0 <= i < |ms| ==>
      r[i] == if ms[i].group == g && ms[i].deadline > limit then Member(g, limit) else ms[i]
  {
    seq(|ms|, i requires 0 <= i < |ms| => if ms[i].group == g && ms[i].deadline > limit then Member(g, limit) else ms[i])
  }

  // The deadlines of one group come down to the limit, in every peer.
  function Lower(sw: Switch, g: Group, limit: int): Switch {
    sw.(tab := map q | q in sw.tab :: sw.tab[q].(groups := LowerIn(sw.tab[q].groups, g, limit)))
  }

  // A frame from a peer tells where it comes from and then which groups it joins; one
  // from the device may ask after a group.
  datatype Event =
    | AddPeer(p: PeerId)
    | FreePeer(p: PeerId)
    | Sees(p: PeerId, m: Mac)
    | Joins(p: PeerId, g: Group, now: int)
    | Asks(g: Group, now: int)
    | Expires(p: PeerId, g: Group)

  predicate Allowed(sw: Switch, e: Event) {
    match e
    case AddPeer(p) => p !in sw.tab
    case FreePeer(p) => p in sw.tab
    case Sees(p, _) => p in sw.tab
    case Joins(p, _, _) => p in sw.tab
    case Asks(_, _) => true
    case Expires(p, g) => Joined(sw, Key(p, g))
  }

  function Step(cfg: Config, sw: Switch, e: Event): Switch
    requires cfg.Valid() && Allowed(sw, e)
  {
    match e
    case AddPeer(p) => Switch(sw.order + [p], sw.tab[p := Peer([], [])])
    case FreePeer(p) => Switch(Remove(sw.order, p), sw.tab - {p})
    case Sees(p, m) => Learn(cfg, sw, p, m)
    case Joins(p, g, now) => Join(cfg, sw, p, g, now + cfg.membership)
    case Asks(g, now) => Lower(sw, g, now + cfg.lastMember)
    case Expires(p, g) => Leave(sw, p, g)
  }

  // What a frame from a peer makes happen.
  function JoinEvents(p: PeerId, gs: seq<Group>, now: int): (es: seq<Event>)
    ensures |es| == |gs| && forall i :: 0 <= i < |es| ==> es[i] == Joins(p, gs[i], now)
  {
    seq(|gs|, i requires 0 <= i < |gs| => Joins(p, gs[i], now))
  }

  function Heard(p: PeerId, f: seq<Byte>, now: int): seq<Event> {
    if |f| < ETHERNET_HEADER then [] else [Sees(p, Source(f))] + JoinEvents(p, JoinedGroups(f), now)
  }

  // Events one after another; those that cannot happen do not.
  function Apply(cfg: Config, sw: Switch, es: seq<Event>): Switch
    requires cfg.Valid()
  {
    if es == [] then sw
    else
      var t := Apply(cfg, sw, es[..|es| - 1]);
      if Allowed(t, es[|es| - 1]) then Step(cfg, t, es[|es| - 1]) else t
  }

  // ----- where a frame from the device goes

  predicate Owns(sw: Switch, p: PeerId, m: Mac) {
    p in sw.tab && m in sw.tab[p].macs
  }

  // These are the peers of the memberships with a signature, each membership once.
  ghost predicate Memberships(sw: Switch, s: Sig, keys: seq<Key>) {
    NoDup(keys) && forall k :: k in keys <==> Joined(sw, k) && SigOfGroup(k.group) == s
  }

  function PeersOf(keys: seq<Key>): (ps: seq<PeerId>)
    ensures |ps| == |keys| && forall i :: 0 <= i < |keys| ==> ps[i] == keys[i].peer
  {
    seq(|keys|, i requires 0 <= i < |keys| => keys[i].peer)
  }

  /**
    The destinations of a frame: every peer once for broadcasts and for IGMP; for a
    multicast address the owner of each membership with its signature; for the address
    of a known peer that peer; and every peer once when the address is not known.
   */
  ghost predicate Destined(sw: Switch, f: seq<Byte>, to: seq<PeerId>) {
    if |f| < ETHERNET_HEADER then to == [] else Addressed(sw, Igmp(f).Some?, Dest(f), to)
  }

  ghost predicate Addressed(sw: Switch, igmp: bool, dest: Mac, to: seq<PeerId>) {
    if igmp || dest == BROADCAST then to == sw.order
    else if IsMulticast(dest) then exists keys :: Memberships(sw, SigOfMac(dest), keys) && to == PeersOf(keys)
    else if exists p: PeerId :: Owns(sw, p, dest) then exists p: PeerId :: Owns(sw, p, dest) && to == [p]
    else to == sw.order
  }

  // ----- every step keeps the invariant

  lemma LearnInIs(macs: seq<Mac>, m: Mac, max: nat)
    requires NoDup(macs) && |macs| <= max && max > 0
    ensures NoDup(LearnIn(macs, m, max)) && |LearnIn(macs, m, max)| <= max
    ensures forall n :: n in LearnIn(macs, m, max) ==> n == m || n in macs
  {
    RemoveContents(macs, m);
  }

  lemma LearnPeers(cfg: Config, sw: Switch, p: PeerId, m: Mac, q: PeerId)
    requires cfg.Valid() && q in sw.tab && PeerOk(cfg, sw.tab[q])
    ensures var t := Learn(cfg, sw, p, m);
      && q in t.tab && PeerOk(cfg, t.tab[q])
      && (forall n :: n in t.tab[q].macs ==> n in sw.tab[q].macs || (q == p && n == m))
      && (q != p ==> m !in t.tab[q].macs)
  {
    LearnInIs(sw.tab[q].macs, m, cfg.maxMacs);
    RemoveContents(sw.tab[q].macs, m);
  }

  lemma LearnKeeps(cfg: Config, sw: Switch, p: PeerId, m: Mac)
    requires cfg.Valid() && Inv(cfg, sw) && p in sw.tab
    ensures Inv(cfg, Learn(cfg, sw, p, m))
  {
    var t := Learn(cfg, sw, p, m);
    forall q | q in t.tab ensures PeerOk(cfg, t.tab[q]) {
      assert PeerOk(cfg, sw.tab[q]);
      LearnPeers(cfg, sw, p, m, q);
    }
    forall q: PeerId, r: PeerId, n: Mac | Owns(t, q, n) && Owns(t, r, n) ensures q == r {
      assert PeerOk(cfg, sw.tab[q]) && PeerOk(cfg, sw.tab[r]);
      LearnPeers(cfg, sw, p, m, q);
      LearnPeers(cfg, sw, p, m, r);
      if n != m {
        assert Owns(sw, q, n) && Owns(sw, r, n);
      }
    }
  }

  lemma {:induction false} FindIs(ms: seq<Member>, g: Group, i: nat)
    requires DistinctGroups(ms) && i < |ms| && ms[i].group == g
    ensures Find(ms, g) == i
  {
  }

  lemma WithoutIs(ms: seq<Member>, g: Group)
    requires DistinctGroups(ms)
    ensures DistinctGroups(Without(ms, g)) && |Without(ms, g)| == |ms| - (if Has(ms, g) then 1 else 0)
    ensures forall x :: x in Without(ms, g) <==> x in ms && x.group != g
  {
    var i := Find(ms, g);
    if i < |ms| {
      var r := RemoveAt(ms, i);
      forall x | x in ms && x.group != g ensures x in r {
        var k :| 0 <= k < |ms| && ms[k] == x;
        if k < i { assert r[k] == x; } else { assert r[k - 1] == x; }
      }
    }
  }

  lemma JoinInOk(ms: seq<Member>, g: Group, deadline: int, max: nat)
    requires DistinctGroups(ms) && |ms| <= max && max > 0
    ensures DistinctGroups(JoinIn(ms, g, deadline, max)) && |JoinIn(ms, g, deadline, max)| <= max
  {
    WithoutIs(ms, g);
  }

  lemma JoinKeeps(cfg: Config, sw: Switch, p: PeerId, g: Group, deadline: int)
    requires cfg.Valid() && Inv(cfg, sw) && p in sw.tab
    ensures Inv(cfg, Join(cfg, sw, p, g, deadline))
  {
    var t := Join(cfg, sw, p, g, deadline);
    assert PeerOk(cfg, sw.tab[p]);
    JoinInOk(sw.tab[p].groups, g, deadline, cfg.maxGroups);
    SameMacs(cfg, sw, t);
    forall q | q in t.tab ensures PeerOk(cfg, t.tab[q]) {
      assert PeerOk(cfg, sw.tab[q]);
    }
  }

  lemma LowerKeeps(cfg: Config, sw: Switch, g: Group, limit: int)
    requires Inv(cfg, sw)
    ensures Inv(cfg, Lower(sw, g, limit))
  {
    var t := Lower(sw, g, limit);
    SameMacs(cfg, sw, t);
    forall q | q in t.tab ensures PeerOk(cfg, t.tab[q]) {
      assert PeerOk(cfg, sw.tab[q]);
    }
  }

  lemma SameMacs(cfg: Config, sw: Switch, t: Switch)
    requires Inv(cfg, sw) && t.tab.Keys == sw.tab.Keys && forall q :: q in sw.tab ==> t.tab[q].macs == sw.tab[q].macs
    ensures forall p: PeerId, q: PeerId, m: Mac {:trigger Owns(t, p, m), Owns(t, q, m)} ::
      Owns(t, p, m) && Owns(t, q, m) ==> p == q
  {
    forall p: PeerId, q: PeerId, m: Mac | Owns(t, p, m) && Owns(t, q, m) ensures p == q {
      assert Owns(sw, p, m) && Owns(sw, q, m);
    }
  }

  lemma StepKeeps(cfg: Config, sw: Switch, e: Event)
    requires cfg.Valid() && Inv(cfg, sw) && Allowed(sw, e)
    ensures Inv(cfg, Step(cfg, sw, e))
  {
    match e
    case AddPeer(p) => PeersKeep(cfg, sw, Step(cfg, sw, e));
    case FreePeer(p) =>
      RemoveContents(sw.order, p);
      PeersKeep(cfg, sw, Step(cfg, sw, e));
    case Sees(p, m) => LearnKeeps(cfg, sw, p, m);
    case Joins(p, g, now) => JoinKeeps(cfg, sw, p, g, now + cfg.membership);
    case Asks(g, now) => LowerKeeps(cfg, sw, g, now + cfg.lastMember);
    case Expires(p, g) => LeaveKeeps(cfg, sw, p, g);
  }

  // Adding a peer that has nothing, or removing one.
  lemma PeersKeep(cfg: Config, sw: Switch, t: Switch)
    requires Inv(cfg, sw) && NoDup(t.order) && forall p :: p in t.order <==> p in t.tab
    requires forall p :: p in t.tab ==> (p in sw.tab && t.tab[p] == sw.tab[p]) || t.tab[p] == Peer([], [])
    ensures Inv(cfg, t)
  {
    forall q | q in t.tab ensures PeerOk(cfg, t.tab[q]) {
      if q in sw.tab { assert PeerOk(cfg, sw.tab[q]); }
    }
    forall p: PeerId, q: PeerId, m: Mac | Owns(t, p, m) && Owns(t, q, m) ensures p == q {
      assert Owns(sw, p, m) && Owns(sw, q, m);
    }
  }

  lemma LeaveKeeps(cfg: Config, sw: Switch, p: PeerId, g: Group)
    requires Inv(cfg, sw) && p in sw.tab
    ensures Inv(cfg, Leave(sw, p, g))
  {
    var t := Leave(sw, p, g);
    SameMacs(cfg, sw, t);
    assert PeerOk(cfg, sw.tab[p]);
    WithoutIs(sw.tab[p].groups, g);
    forall q | q in t.tab ensures PeerOk(cfg, t.tab[q]) {
      assert PeerOk(cfg, sw.tab[q]);
    }
  }

  // ----- runs

  predicate Legal(cfg: Config, h: seq<Event>)
    requires cfg.Valid()
    decreases h, 0
  {
    h == [] || (Legal(cfg, h[..|h| - 1]) && Allowed(Final(cfg, h[..|h| - 1]), h[|h| - 1]))
  }

  function Final(cfg: Config, h: seq<Event>): Switch
    requires cfg.Valid() && Legal(cfg, h)
    decreases h, 1
  {
    if h == [] then EMPTY else Step(cfg, Final(cfg, h[..|h| - 1]), h[|h| - 1])
  }

  lemma {:induction false} RunKeeps(cfg: Config, h: seq<Event>)
    requires cfg.Valid() && Legal(cfg, h)
    ensures Inv(cfg, Final(cfg, h))
  {
    if h != [] {
      RunKeeps(cfg, h[..|h| - 1]);
      StepKeeps(cfg, Final(cfg, h[..|h| - 1]), h[|h| - 1]);
    }
  }

  // The peer whose frame was the last to come from an address.
  function LastSender(h: seq<Event>, m: Mac): Option<PeerId> {
    if h == [] then None
    else
      var e := h[|h| - 1];
      if e.Sees? && e.m == m then Some(e.p)
      else LastSender(h[..|h| - 1], m)
  }

  /**
    A peer is only ever taken for the owner of an address if the last frame from that
    address came from it.
   */
  lemma {:induction false} OwnerSentLast(cfg: Config, h: seq<Event>, p: PeerId, m: Mac)
    requires cfg.Valid() && Legal(cfg, h) && Owns(Final(cfg, h), p, m)
    ensures LastSender(h, m) == Some(p)
  {
    if h != [] {
      var front, e := h[..|h| - 1], h[|h| - 1];
      var sw := Final(cfg, front);
      RunKeeps(cfg, front);
      OwnedBefore(cfg, sw, e, p, m);
      if Owns(sw, p, m) {
        OwnerSentLast(cfg, front, p, m);
      }
    }
  }

  // An address is owned because it was before, by the same peer and without another
  // sending from it now, or because its owner has just sent from it.
  lemma OwnedBefore(cfg: Config, sw: Switch, e: Event, p: PeerId, m: Mac)
    requires cfg.Valid() && Inv(cfg, sw) && Allowed(sw, e) && Owns(Step(cfg, sw, e), p, m)
    ensures
      if e.Sees? && e.m == m then e.p == p
      else Owns(sw, p, m)
  {
    if e.Sees? {
      assert PeerOk(cfg, sw.tab[p]);
      LearnPeers(cfg, sw, e.p, e.m, p);
    }
  }

  // ----- the pools are in order of last use

  // When a peer last sent from an address or joined a group: the number of events up
  // to then, or zero.
  function SeenAt(h: seq<Event>, p: PeerId, m: Mac): (n: nat)
    ensures n <= |h|
  {
    if h == [] then 0
    else if h[|h| - 1] == Sees(p, m) then |h|
    else SeenAt(h[..|h| - 1], p, m)
  }

  function JoinedAt(h: seq<Event>, p: PeerId, g: Group): (n: nat)
    ensures n <= |h|
  {
    if h == [] then 0
    else
      var e := h[|h| - 1];
      if e.Joins? && e.p == p && e.g == g then |h| else JoinedAt(h[..|h| - 1], p, g)
  }

  predicate Ascending(ages: seq<nat>) {
    forall i, j :: 0 <= i < j < |ages| ==> ages[i] < ages[j]
  }

  function MacAges(h: seq<Event>, p: PeerId, macs: seq<Mac>): (ages: seq<nat>)
    ensures |ages| == |macs| && forall i :: 0 <= i < |ages| ==> ages[i] == SeenAt(h, p, macs[i])
  {
    seq(|macs|, i requires 0 <= i < |macs| => SeenAt(h, p, macs[i]))
  }

  function GroupAges(h: seq<Event>, p: PeerId, ms: seq<Member>): (ages: seq<nat>)
    ensures |ages| == |ms| && forall i :: 0 <= i < |ages| ==> ages[i] == JoinedAt(h, p, ms[i].group)
  {
    seq(|ms|, i requires 0 <= i < |ms| => JoinedAt(h, p, ms[i].group))
  }

  /**
    In every run each peer's addresses and groups are listed by when they were last
    used, the oldest first: what is evicted is what has gone unused the longest.
   */
  lemma {:induction false} PoolsByAge(cfg: Config, h: seq<Event>, p: PeerId)
    requires cfg.Valid() && Legal(cfg, h) && p in Final(cfg, h).tab
    ensures Ascending(MacAges(h, p, Final(cfg, h).tab[p].macs)) && Ascending(GroupAges(h, p, Final(cfg, h).tab[p].groups))
  {
    if h != [] {
      var front, e := h[..|h| - 1], h[|h| - 1];
      var sw := Final(cfg, front);
      if p in sw.tab {
        PoolsByAge(cfg, front, p);
        RunKeeps(cfg, front);
        assert PeerOk(cfg, sw.tab[p]);
        MacsStep(cfg, h, sw, e, p);
        GroupsAfterIs(cfg, sw, e, p);
        GroupsStep(cfg, h, sw.tab[p].groups, e, p);
      }
    }
  }

  lemma AscendingWithout(ages: seq<nat>, k: nat)
    requires Ascending(ages) && k < |ages|
    ensures Ascending(RemoveAt(ages, k))
  {
    var r := RemoveAt(ages, k);
    forall i, j | 0 <= i < j < |r| ensures r[i] < r[j] {
      assert r[i] == ages[if i < k then i else i + 1] && r[j] == ages[if j < k then j else j + 1];
    }
  }

  lemma AscendingThen(ages: seq<nat>, n: nat)
    requires Ascending(ages) && forall i :: 0 <= i < |ages| ==> ages[i] < n
    ensures Ascending(ages + [n])
  {
  }

  // An address other than the one just seen is as old as it was.
  lemma MacAgesSame(h: seq<Event>, p: PeerId, macs: seq<Mac>)
    requires h != [] && forall i :: 0 <= i < |macs| ==> h[|h| - 1] != Sees(p, macs[i])
    ensures MacAges(h, p, macs) == MacAges(h[..|h| - 1], p, macs)
  {
  }

  lemma MacsSeen(h: seq<Event>, p: PeerId, macs: seq<Mac>, m: Mac, max: nat)
    requires h != [] && h[|h| - 1] == Sees(p, m) && NoDup(macs) && max > 0
    requires Ascending(MacAges(h[..|h| - 1], p, macs))
    ensures Ascending(MacAges(h, p, LearnIn(macs, m, max)))
  {
    var rest := if m in macs then Remove(macs, m) else Room(macs, max);
    MacsShorter(h[..|h| - 1], p, macs, m, max);
    RemoveContents(macs, m);
    assert m !in rest;
    forall i | 0 <= i < |rest| ensures rest[i] != m { assert rest[i] in rest; }
    MacAgesSame(h, p, rest);
    AscendingThen(MacAges(h, p, rest), |h|);
    assert MacAges(h, p, rest + [m]) == MacAges(h, p, rest) + [|h|];
  }

  lemma MacsShorter(h: seq<Event>, p: PeerId, macs: seq<Mac>, m: Mac, max: nat)
    requires max > 0 && Ascending(MacAges(h, p, macs))
    ensures Ascending(MacAges(h, p, Remove(macs, m))) && Ascending(MacAges(h, p, Room(macs, max)))
  {
    var k := IndexOf(macs, m);
    if k < |macs| {
      MacsButOne(h, p, macs, k);
    }
    if macs != [] {
      MacsButOne(h, p, macs, 0);
      assert RemoveAt(macs, 0) == macs[1..];
    }
  }

  lemma MacsButOne(h: seq<Event>, p: PeerId, macs: seq<Mac>, k: nat)
    requires k < |macs| && Ascending(MacAges(h, p, macs))
    ensures Ascending(MacAges(h, p, RemoveAt(macs, k)))
  {
    AscendingWithout(MacAges(h, p, macs), k);
    assert MacAges(h, p, RemoveAt(macs, k)) == RemoveAt(MacAges(h, p, macs), k);
  }

  lemma MacsStep(cfg: Config, h: seq<Event>, sw: Switch, e: Event, p: PeerId)
    requires cfg.Valid() && h != [] && e == h[|h| - 1] && Allowed(sw, e) && p in sw.tab && p in Step(cfg, sw, e).tab
    requires NoDup(sw.tab[p].macs) && Ascending(MacAges(h[..|h| - 1], p, sw.tab[p].macs))
    ensures Ascending(MacAges(h, p, Step(cfg, sw, e).tab[p].macs))
  {
    var macs := sw.tab[p].macs;
    if e.Sees? && e.p == p {
      MacsSeen(h, p, macs, e.m, cfg.maxMacs);
    } else if e.Sees? {
      MacsShorter(h[..|h| - 1], p, macs, e.m, 1);
      MacAgesSame(h, p, Remove(macs, e.m));
    } else {
      MacAgesSame(h, p, macs);
    }
  }

  lemma GroupAgesSame(h: seq<Event>, p: PeerId, ms: seq<Member>)
    requires h != []
    requires var e := h[|h| - 1]; e.Joins? && e.p == p ==> forall i :: 0 <= i < |ms| ==> ms[i].group != e.g
    ensures GroupAges(h, p, ms) == GroupAges(h[..|h| - 1], p, ms)
  {
  }

  lemma GroupsLeft(h: seq<Event>, p: PeerId, ms: seq<Member>, g: Group)
    requires Ascending(GroupAges(h, p, ms))
    ensures Ascending(GroupAges(h, p, Without(ms, g)))
  {
    if Has(ms, g) {
      GroupsButOne(h, p, ms, Find(ms, g));
    }
  }

  lemma GroupsRoom(h: seq<Event>, p: PeerId, ms: seq<Member>, max: nat)
    requires max > 0 && Ascending(GroupAges(h, p, ms))
    ensures Ascending(GroupAges(h, p, Room(ms, max)))
  {
    if ms != [] {
      GroupsButOne(h, p, ms, 0);
      assert RemoveAt(ms, 0) == ms[1..];
    }
  }

  lemma GroupsButOne(h: seq<Event>, p: PeerId, ms: seq<Member>, k: nat)
    requires k < |ms| && Ascending(GroupAges(h, p, ms))
    ensures Ascending(GroupAges(h, p, RemoveAt(ms, k)))
  {
    AscendingWithout(GroupAges(h, p, ms), k);
    assert GroupAges(h, p, RemoveAt(ms, k)) == RemoveAt(GroupAges(h, p, ms), k);
  }

  // What an event does to the groups of a peer.
  function GroupsAfter(cfg: Config, ms: seq<Member>, e: Event, p: PeerId): seq<Member>
    requires cfg.Valid()
  {
    match e
    case Joins(q, g, now) => if q == p then JoinIn(ms, g, now + cfg.membership, cfg.maxGroups) else ms
    case Expires(q, g) => if q == p then Without(ms, g) else ms
    case Asks(g, now) => LowerIn(ms, g, now + cfg.lastMember)
    case _ => ms
  }

  lemma GroupsAfterIs(cfg: Config, sw: Switch, e: Event, p: PeerId)
    requires cfg.Valid() && Allowed(sw, e) && p in sw.tab && p in Step(cfg, sw, e).tab
    ensures Step(cfg, sw, e).tab[p].groups == GroupsAfter(cfg, sw.tab[p].groups, e, p)
  {
  }

  lemma GroupsJoined(h: seq<Event>, p: PeerId, ms: seq<Member>, g: Group, deadline: int, max: nat, t: seq<Member>)
    requires h != [] && DistinctGroups(ms) && max > 0 && Ascending(GroupAges(h[..|h| - 1], p, ms))
    requires var e := h[|h| - 1]; e.Joins? && e.p == p && e.g == g
    requires t == JoinIn(ms, g, deadline, max)
    ensures Ascending(GroupAges(h, p, t))
  {
    var rest := if Has(ms, g) then Without(ms, g) else Room(ms, max);
    GroupsLeft(h[..|h| - 1], p, ms, g);
    GroupsRoom(h[..|h| - 1], p, ms, max);
    WithoutIs(ms, g);
    forall i | 0 <= i < |rest| ensures rest[i].group != g { assert rest[i] in rest; }
    GroupAgesSame(h, p, rest);
    AscendingThen(GroupAges(h, p, rest), |h|);
    assert GroupAges(h, p, rest + [Member(g, deadline)]) == GroupAges(h, p, rest) + [|h|];
  }

  lemma GroupsStep(cfg: Config, h: seq<Event>, ms: seq<Member>, e: Event, p: PeerId)
    requires cfg.Valid() && h != [] && e == h[|h| - 1]
    requires DistinctGroups(ms) && Ascending(GroupAges(h[..|h| - 1], p, ms))
    ensures Ascending(GroupAges(h, p, GroupsAfter(cfg, ms, e, p)))
  {
    if e.Joins? && e.p == p {
      GroupsJoinStep(cfg, h, ms, e, p);
    } else if e.Expires? && e.p == p {
      GroupsAfterOwn(cfg, ms, e, p);
      GroupsExpired(h, p, ms, e.g);
    } else {
      GroupsOtherwise(cfg, h, ms, e, p);
    }
  }

  lemma GroupsJoinStep(cfg: Config, h: seq<Event>, ms: seq<Member>, e: Event, p: PeerId)
    requires cfg.Valid() && h != [] && e == h[|h| - 1] && e.Joins? && e.p == p
    requires DistinctGroups(ms) && Ascending(GroupAges(h[..|h| - 1], p, ms))
    ensures Ascending(GroupAges(h, p, GroupsAfter(cfg, ms, e, p)))
  {
    GroupsAfterOwn(cfg, ms, e, p);
    GroupsJoined(h, p, ms, e.g, e.now + cfg.membership, cfg.maxGroups, GroupsAfter(cfg, ms, e, p));
  }

  lemma GroupsAfterOwn(cfg: Config, ms: seq<Member>, e: Event, p: PeerId)
    requires cfg.Valid()
    ensures e.Joins? && e.p == p ==> GroupsAfter(cfg, ms, e, p) == JoinIn(ms, e.g, e.now + cfg.membership, cfg.maxGroups)
    ensures e.Expires? && e.p == p ==> GroupsAfter(cfg, ms, e, p) == Without(ms, e.g)
  {
  }

  lemma GroupsOtherwise(cfg: Config, h: seq<Event>, ms: seq<Member>, e: Event, p: PeerId)
    requires cfg.Valid() && h != [] && e == h[|h| - 1] && Ascending(GroupAges(h[..|h| - 1], p, ms))
    requires !(e.Joins? && e.p == p) && !(e.Expires? && e.p == p)
    ensures Ascending(GroupAges(h, p, GroupsAfter(cfg, ms, e, p)))
  {
    GroupAgesSame(h, p, ms);
    if e.Asks? {
      LoweringKeepsAges(h, p, ms, e.g, e.now + cfg.lastMember);
      assert GroupsAfter(cfg, ms, e, p) == LowerIn(ms, e.g, e.now + cfg.lastMember);
    } else {
      assert GroupsAfter(cfg, ms, e, p) == ms;
    }
  }

  lemma GroupsExpired(h: seq<Event>, p: PeerId, ms: seq<Member>, g: Group)
    requires h != [] && h[|h| - 1].Expires? && Ascending(GroupAges(h[..|h| - 1], p, ms))
    ensures Ascending(GroupAges(h, p, Without(ms, g)))
  {
    GroupsLeft(h[..|h| - 1], p, ms, g);
    GroupAgesSame(h, p, Without(ms, g));
  }

  lemma LoweringKeepsAges(h: seq<Event>, p: PeerId, ms: seq<Member>, g: Group, limit: int)
    ensures GroupAges(h, p, LowerIn(ms, g, limit)) == GroupAges(h, p, ms)
  {
  }

  // ----- deadlines

  function Min(a: int, b: int): int {
    if a < b then a else b
  }

  /**
    When a membership should end: an interval after the last join, or earlier if the
    group has been asked after since.
   */
  function Expected(cfg: Config, h: seq<Event>, k: Key): int {
    if h == [] then 0
    else
      var front, e := h[..|h| - 1], h[|h| - 1];
      if e.Joins? && Key(e.p, e.g) == k then e.now + cfg.membership
      else if e.Asks? && e.g == k.group then Min(Expected(cfg, front, k), e.now + cfg.lastMember)
      else Expected(cfg, front, k)
  }

  // The deadline of each membership is the one its own history gives it: no other
  // group, no other peer and no eviction has a say in it.
  lemma {:induction false} DeadlinesExact(cfg: Config, h: seq<Event>, p: PeerId, x: Member)
    requires cfg.Valid() && Legal(cfg, h) && p in Final(cfg, h).tab && x in Final(cfg, h).tab[p].groups
    ensures x.deadline == Expected(cfg, h, Key(p, x.group))
  {
    if h != [] {
      var front, e := h[..|h| - 1], h[|h| - 1];
      var sw := Final(cfg, front);
      RunKeeps(cfg, front);
      var y := MemberBefore(cfg, sw, e, p, x);
      if y.Some? {
        DeadlinesExact(cfg, front, p, y.value);
      }
    }
  }

  // Where a membership comes from: it has just been joined, or it was there before
  // with a deadline that a query for its group may have lowered.
  lemma MemberBefore(cfg: Config, sw: Switch, e: Event, p: PeerId, x: Member) returns (y: Option<Member>)
    requires cfg.Valid() && Inv(cfg, sw) && Allowed(sw, e)
    requires p in Step(cfg, sw, e).tab && x in Step(cfg, sw, e).tab[p].groups
    ensures y.None? <==> e.Joins? && Key(e.p, e.g) == Key(p, x.group)
    ensures y.None? ==> x.deadline == e.now + cfg.membership
    ensures y.Some? ==> p in sw.tab && y.value in sw.tab[p].groups && y.value.group == x.group
    ensures y.Some? ==> x.deadline == if e.Asks? && e.g == x.group then Min(y.value.deadline, e.now + cfg.lastMember) else y.value.deadline
  {
    y := Some(x);
    match e
    case AddPeer(_) =>
    case FreePeer(_) =>
    case Sees(_, _) =>
    case Joins(q, g, now) =>
      if q == p {
        assert PeerOk(cfg, sw.tab[p]);
        JoinMember(sw.tab[p].groups, g, now + cfg.membership, cfg.maxGroups, x);
        y := if g == x.group then None else Some(x);
      }
    case Asks(g, now) =>
      var ms := sw.tab[p].groups;
      var i :| 0 <= i < |ms| && LowerIn(ms, g, now + cfg.lastMember)[i] == x;
      y := Some(ms[i]);
    case Expires(q, g) =>
      assert PeerOk(cfg, sw.tab[q]);
      WithoutIs(sw.tab[q].groups, g);
  }

  lemma JoinMember(ms: seq<Member>, g: Group, deadline: int, max: nat, x: Member)
    requires DistinctGroups(ms) && max > 0
    ensures x in JoinIn(ms, g, deadline, max) ==> if x.group == g then x.deadline == deadline else x in ms
  {
    WithoutIs(ms, g);
    if x in ms && x.group == g {
      var i :| 0 <= i < |ms| && ms[i] == x;
      FindIs(ms, g, i);
    }
  }
}
