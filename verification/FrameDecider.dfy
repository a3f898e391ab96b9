/**
  The frame decider as it runs: lists of used and free entries per peer, a tree of
  addresses, a tree of signatures with chains of memberships, and the state of a
  decision being read out. Its observable behaviour is that of the switch.
 */
module FrameDecider {
  import opened Bytes
  import opened Lists
  import opened Frames
  import opened FrameSwitch
  import opened Recency
  import opened FrameIndex

  /**
    What is left of the current decision. The iterator over a chain is linked to the
    entry it will visit next, so that it moves on when that entry is removed.
   */
  datatype Decide =
    | Idle
    | Unicast(to: PeerId)
    | Flooding(next: Option<PeerId>)
    | Multicasting(it: Option<Key>, linked: bool)

  // A decision never refers to a peer or a membership that is gone.
  ghost predicate DecideOk(decide: Decide, tab: map<PeerId, Peer>, live: iset<Key>) {
    match decide
    case Idle => true
    case Unicast(p) => p in tab
    case Flooding(next) => next.Some? ==> next.value in tab
    case Multicasting(it, linked) => linked && it.Some? ==> it.value in live
  }

  /** Everything the decider keeps beside the switch agrees with it. */
  ghost predicate Consistent(cfg: Config, sw: Switch, macFree: map<PeerId, nat>, groupFree: map<PeerId, nat>,
                             macsTree: map<Mac, PeerId>, ix: Index, decide: Decide)
  {
    && cfg.Valid() && Inv(cfg, sw)
    && PoolsExact(cfg, sw.tab, macFree, groupFree)
    && MacsExact(sw.tab, macsTree)
    && Exact(Live(sw.tab), ix)
    && DecideOk(decide, sw.tab, Live(sw.tab))
  }

  // The destinations of a decision that have not been read out yet.
  ghost function PendingOf(decide: Decide, order: seq<PeerId>, chains: map<Sig, seq<Key>>): seq<PeerId> {
    match decide
    case Idle => []
    case Unicast(p) => [p]
    case Flooding(next) => if next.Some? then order[IndexOf(order, next.value)..] else []
    case Multicasting(it, _) =>
      if it.None? || SigOf(it.value) !in chains then []
      else
        var chain := chains[SigOf(it.value)];
        PeersOf(chain[IndexOf(chain, it.value)..])
  }

  // A decision can be read out: its references are good and its iterator is linked.
  ghost predicate Readable(decide: Decide, order: seq<PeerId>, chains: map<Sig, seq<Key>>) {
    match decide
    case Idle => true
    case Unicast(p) => p in order
    case Flooding(next) => NoDup(order) && (next.Some? ==> next.value in order)
    case Multicasting(it, linked) => linked && (it.Some? ==> ReadableChain(SigOf(it.value), chains) && it.value in chains[SigOf(it.value)])
  }

  ghost predicate ReadableChain(s: Sig, chains: map<Sig, seq<Key>>) {
    s in chains && NoDup(chains[s]) && forall k :: k in chains[s] ==> SigOf(k) == s
  }

  // A consistent decider's decision can be read out, unless its iterator was given up.
  lemma ConsistentReadable(cfg: Config, sw: Switch, macFree: map<PeerId, nat>, groupFree: map<PeerId, nat>,
                           macsTree: map<Mac, PeerId>, ix: Index, decide: Decide)
    requires Consistent(cfg, sw, macFree, groupFree, macsTree, ix, decide) && (decide.Multicasting? ==> decide.linked)
    ensures Readable(decide, sw.order, ix.chains)
  {
    if decide.Multicasting? && decide.it.Some? {
      var k := decide.it.value;
      assert InChain(ix, SigOf(k), k);
      assert ChainOk(ix, SigOf(k));
      forall j | j in ix.chains[SigOf(k)] ensures SigOf(j) == SigOf(k) {
        assert InChain(ix, SigOf(k), j);
      }
    }
  }

  // And what can be read out leaves a decider consistent.
  lemma ReadableConsistent(cfg: Config, sw: Switch, macFree: map<PeerId, nat>, groupFree: map<PeerId, nat>,
                           macsTree: map<Mac, PeerId>, ix: Index, decide: Decide, decide': Decide)
    requires Consistent(cfg, sw, macFree, groupFree, macsTree, ix, decide) && Readable(decide', sw.order, ix.chains)
    ensures Consistent(cfg, sw, macFree, groupFree, macsTree, ix, decide')
  {
    if decide'.Multicasting? && decide'.it.Some? {
      var k := decide'.it.value;
      assert InChain(ix, SigOf(k), k);
    }
  }

  // ----- groups of one peer

  lemma HasMember(ms: seq<Member>, g: Group)
    ensures Has(ms, g) <==> exists i :: 0 <= i < |ms| && ms[i].group == g
  {
  }

  lemma HasAfter(ms: seq<Member>, x: Group)
    requires DistinctGroups(ms)
    ensures ms != [] ==> (Has(ms[1..], x) <==> Has(ms, x) && x != ms[0].group)
    ensures forall g, d :: Has(ms + [Member(g, d)], x) <==> Has(ms, x) || x == g
  {
    HasMember(ms, x);
    if ms != [] {
      HasMember(ms[1..], x);
      assert forall i :: 0 <= i < |ms[1..]| ==> ms[1..][i] == ms[i + 1];
      assert forall i :: 1 <= i < |ms| ==> ms[i] == ms[1..][i - 1];
    }
    forall g, d ensures Has(ms + [Member(g, d)], x) <==> Has(ms, x) || x == g {
      var t := ms + [Member(g, d)];
      HasMember(t, x);
      assert t[|ms|].group == g;
      if Has(ms, x) { assert t[Find(ms, x)].group == x; }
    }
  }

  lemma HasWithout(ms: seq<Member>, g: Group, x: Group)
    requires DistinctGroups(ms)
    ensures Has(Without(ms, g), x) <==> Has(ms, x) && x != g
  {
    WithoutIs(ms, g);
    HasMember(ms, x);
    HasMember(Without(ms, g), x);
    var r := Without(ms, g);
    if Has(r, x) { assert r[Find(r, x)] in ms; }
    if Has(ms, x) && x != g { assert ms[Find(ms, x)] in r; }
  }

  function WithGroups(tab: map<PeerId, Peer>, p: PeerId, ms: seq<Member>): map<PeerId, Peer>
    requires p in tab
  {
    tab[p := tab[p].(groups := ms)]
  }

  lemma LiveWithout(tab: map<PeerId, Peer>, p: PeerId, g: Group)
    requires p in tab && DistinctGroups(tab[p].groups)
    ensures Live(WithGroups(tab, p, Without(tab[p].groups, g))) == Live(tab) - iset{Key(p, g)}
  {
    forall x: Group ensures Has(Without(tab[p].groups, g), x) <==> Has(tab[p].groups, x) && x != g {
      HasWithout(tab[p].groups, g, x);
    }
  }

  lemma LiveWith(tab: map<PeerId, Peer>, p: PeerId, g: Group, deadline: int)
    requires p in tab && DistinctGroups(tab[p].groups)
    ensures Live(WithGroups(tab, p, tab[p].groups + [Member(g, deadline)])) == Live(tab) + iset{Key(p, g)}
  {
    forall x: Group ensures Has(tab[p].groups + [Member(g, deadline)], x) <==> Has(tab[p].groups, x) || x == g {
      HasAfter(tab[p].groups, x);
    }
  }

  // Everything but the groups of a peer is as it was.
  lemma GroupsConsistent(cfg: Config, sw: Switch, macFree: map<PeerId, nat>, groupFree: map<PeerId, nat>,
                         macsTree: map<Mac, PeerId>, ix: Index, decide: Decide,
                         p: PeerId, ms: seq<Member>, groupFree': map<PeerId, nat>, ix': Index, decide': Decide)
    requires Consistent(cfg, sw, macFree, groupFree, macsTree, ix, decide) && p in sw.tab
    requires var t := WithGroups(sw.tab, p, ms);
      Inv(cfg, Switch(sw.order, t)) && Exact(Live(t), ix') && DecideOk(decide', sw.tab, Live(t))
    requires groupFree'.Keys == groupFree.Keys && |ms| + groupFree'[p] == cfg.maxGroups
    requires forall q :: q in groupFree && q != p ==> groupFree'[q] == groupFree[q]
    ensures Consistent(cfg, Switch(sw.order, WithGroups(sw.tab, p, ms)), macFree, groupFree', macsTree, ix', decide')
  {
    var t := WithGroups(sw.tab, p, ms);
    forall q: PeerId, m: Mac ensures Uses(t, q, m) <==> m in macsTree && macsTree[m] == q {
      assert Uses(sw.tab, q, m) <==> m in macsTree && macsTree[m] == q;
    }
  }

  lemma JoinConsistent(cfg: Config, sw: Switch, macFree: map<PeerId, nat>, groupFree: map<PeerId, nat>,
                       macsTree: map<Mac, PeerId>, ix: Index, decide: Decide,
                       p: PeerId, g: Group, deadline: int, t: map<PeerId, Peer>,
                       groupFree': map<PeerId, nat>, ix': Index, decide': Decide)
    requires Consistent(cfg, sw, macFree, groupFree, macsTree, ix, decide) && p in sw.tab
    requires t == WithGroups(sw.tab, p, JoinIn(sw.tab[p].groups, g, deadline, cfg.maxGroups))
    requires Exact(Live(t), ix') && DecideOk(decide', t, Live(t))
    requires groupFree'.Keys == groupFree.Keys && |t[p].groups| + groupFree'[p] == cfg.maxGroups
    requires forall q :: q in groupFree && q != p ==> groupFree'[q] == groupFree[q]
    ensures Consistent(cfg, Switch(sw.order, t), macFree, groupFree', macsTree, ix', decide')
    ensures Switch(sw.order, t) == Join(cfg, sw, p, g, deadline)
  {
    JoinKeeps(cfg, sw, p, g, deadline);
    GroupsConsistent(cfg, sw, macFree, groupFree, macsTree, ix, decide, p, t[p].groups, groupFree', ix', decide');
  }

  lemma LeftConsistent(cfg: Config, sw: Switch, macFree: map<PeerId, nat>, groupFree: map<PeerId, nat>,
                       macsTree: map<Mac, PeerId>, ix: Index, decide: Decide, p: PeerId, g: Group, t: map<PeerId, Peer>,
                       groupFree': map<PeerId, nat>, ix': Index, decide': Decide)
    requires Consistent(cfg, sw, macFree, groupFree, macsTree, ix, decide) && Joined(sw, Key(p, g))
    requires t == WithGroups(sw.tab, p, Without(sw.tab[p].groups, g)) && Exact(Live(t), ix') && DecideOk(decide', t, Live(t))
    requires p in groupFree && groupFree' == groupFree[p := groupFree[p] + 1]
    ensures Consistent(cfg, Switch(sw.order, t), macFree, groupFree', macsTree, ix', decide')
    ensures Switch(sw.order, t) == Leave(sw, p, g)
  {
    assert PeerOk(cfg, sw.tab[p]);
    LeaveKeeps(cfg, sw, p, g);
    WithoutIs(sw.tab[p].groups, g);
    GroupsConsistent(cfg, sw, macFree, groupFree, macsTree, ix, decide, p, t[p].groups, groupFree', ix', decide');
  }

  lemma LiveRejoined(tab: map<PeerId, Peer>, p: PeerId, g: Group, deadline: int, t: map<PeerId, Peer>)
    requires p in tab && DistinctGroups(tab[p].groups) && Has(tab[p].groups, g)
    requires t == WithGroups(tab, p, Without(tab[p].groups, g) + [Member(g, deadline)])
    ensures Live(t) == Live(tab)
  {
    var u := WithGroups(tab, p, Without(tab[p].groups, g));
    LiveWithout(tab, p, g);
    WithoutIs(tab[p].groups, g);
    LiveWith(u, p, g, deadline);
    assert t == WithGroups(u, p, u[p].groups + [Member(g, deadline)]);
    assert Key(p, g) in Live(tab);
  }

  lemma RoomFor(ms: seq<Member>, max: nat, g: Group)
    requires DistinctGroups(ms) && max > 0 && !Has(ms, g)
    ensures DistinctGroups(Room(ms, max)) && !Has(Room(ms, max), g)
  {
    HasAfter(ms, g);
  }

  // Making room and then entering the group is joining it.
  lemma JoinedTab(tab: map<PeerId, Peer>, p: PeerId, g: Group, deadline: int, max: nat, t: map<PeerId, Peer>)
    requires p in tab && !Has(tab[p].groups, g) && max > 0
    requires var u := WithGroups(tab, p, Room(tab[p].groups, max)); t == WithGroups(u, p, u[p].groups + [Member(g, deadline)])
    ensures t == WithGroups(tab, p, JoinIn(tab[p].groups, g, deadline, max)) && |t[p].groups| == |Room(tab[p].groups, max)| + 1
  {
  }

  // The oldest membership is the first of the list.
  lemma OldestFirst(ms: seq<Member>)
    requires ms != []
    ensures Without(ms, ms[0].group) == ms[1..]
  {
  }

  // ----- addresses

  // Learning an address: the tree loses the evicted address, if any, and gains this one.
  lemma LearnTree(cfg: Config, sw: Switch, macs: map<Mac, PeerId>, p: PeerId, m: Mac)
    requires cfg.Valid() && Inv(cfg, sw) && MacsExact(sw.tab, macs) && p in sw.tab
    ensures var own := sw.tab[p].macs;
      var evicted := if m in own || |own| < cfg.maxMacs then {} else {own[0]};
      MacsExact(Learn(cfg, sw, p, m).tab, (macs - evicted)[m := p])
  {
    var own := sw.tab[p].macs;
    var evicted := if m in own || |own| < cfg.maxMacs then {} else {own[0]};
    var t := Learn(cfg, sw, p, m).tab;
    var macs' := (macs - evicted)[m := p];
    assert PeerOk(cfg, sw.tab[p]);
    LearnInContents(own, m, cfg.maxMacs);
    forall q: PeerId, n: Mac ensures Uses(t, q, n) <==> n in macs' && macs'[n] == q {
      assert Uses(sw.tab, q, n) <==> n in macs && macs[n] == q;
      if q in sw.tab && q != p {
        assert PeerOk(cfg, sw.tab[q]);
        RemoveContents(sw.tab[q].macs, m);
        if n in evicted { assert Uses(sw.tab, p, n); }
      }
    }
  }

  lemma LiveSame(tab: map<PeerId, Peer>, t: map<PeerId, Peer>)
    requires t.Keys == tab.Keys && forall q :: q in tab ==> t[q].groups == tab[q].groups
    ensures Live(t) == Live(tab)
  {
    forall k: Key ensures k in Live(t) <==> k in Live(tab) {
    }
  }

  // Taking the address from its owner and then giving it to the peer is learning it.
  lemma LearnTaken(cfg: Config, sw: Switch, tree: map<Mac, PeerId>, p: PeerId, m: Mac, t: map<PeerId, Peer>)
    requires cfg.Valid() && Inv(cfg, sw) && MacsExact(sw.tab, tree) && p in sw.tab && !(m in tree && tree[m] == p)
    requires m in tree ==> tree[m] in sw.tab
    requires var tab := if m in tree then sw.tab[tree[m] := sw.tab[tree[m]].(macs := Remove(sw.tab[tree[m]].macs, m))] else sw.tab;
      t == tab[p := tab[p].(macs := Room(tab[p].macs, cfg.maxMacs) + [m])]
    ensures t == Learn(cfg, sw, p, m).tab && m !in sw.tab[p].macs
  {
    assert !Uses(sw.tab, p, m);
    forall q | q in sw.tab && !(m in tree && tree[m] == q) ensures m !in sw.tab[q].macs {
      assert !Uses(sw.tab, q, m);
    }
    LearnLists(cfg, sw, p, m, t);
  }

  // An address the peer has already only becomes its newest.
  lemma LearnOwned(cfg: Config, sw: Switch, tree: map<Mac, PeerId>, p: PeerId, m: Mac, t: map<PeerId, Peer>)
    requires cfg.Valid() && MacsExact(sw.tab, tree) && p in sw.tab && m in tree && tree[m] == p
    requires t == sw.tab[p := sw.tab[p].(macs := Remove(sw.tab[p].macs, m) + [m])]
    ensures t == Learn(cfg, sw, p, m).tab && m in sw.tab[p].macs && (tree - {})[m := p] == tree
  {
    assert Uses(sw.tab, p, m);
    forall q | q in sw.tab && q != p ensures m !in sw.tab[q].macs {
      assert !Uses(sw.tab, q, m);
    }
    LearnLists(cfg, sw, p, m, t);
  }

  // What the program has done to the lists is what learning the address means.
  lemma LearnLists(cfg: Config, sw: Switch, p: PeerId, m: Mac, t: map<PeerId, Peer>)
    requires cfg.Valid() && p in sw.tab && t.Keys == sw.tab.Keys
    requires forall q :: q in sw.tab && q != p ==> t[q] == sw.tab[q].(macs := Remove(sw.tab[q].macs, m))
    requires t[p] == sw.tab[p].(macs := LearnIn(sw.tab[p].macs, m, cfg.maxMacs))
    ensures t == Learn(cfg, sw, p, m).tab
  {
  }

  lemma LearnConsistent(cfg: Config, sw: Switch, macFree: map<PeerId, nat>, groupFree: map<PeerId, nat>,
                        macsTree: map<Mac, PeerId>, ix: Index, decide: Decide, p: PeerId, m: Mac,
                        t: map<PeerId, Peer>, macFree': map<PeerId, nat>, macsTree': map<Mac, PeerId>)
    requires Consistent(cfg, sw, macFree, groupFree, macsTree, ix, decide) && p in sw.tab
    requires t == Learn(cfg, sw, p, m).tab && PoolsExact(cfg, t, macFree', groupFree)
    requires var own := sw.tab[p].macs;
      macsTree' == (macsTree - (if m in own || |own| < cfg.maxMacs then {} else {own[0]}))[m := p]
    ensures Consistent(cfg, Switch(sw.order, t), macFree', groupFree, macsTree', ix, decide)
    ensures Switch(sw.order, t) == Learn(cfg, sw, p, m)
  {
    LearnKeeps(cfg, sw, p, m);
    LearnTree(cfg, sw, macsTree, p, m);
    LiveSame(sw.tab, t);
  }

  // An address that is new to the peer, once its entry has been taken.
  lemma LearnedConsistent(cfg: Config, sw: Switch, macFree: map<PeerId, nat>, groupFree: map<PeerId, nat>,
                          macsTree: map<Mac, PeerId>, ix: Index, decide: Decide, p: PeerId, m: Mac,
                          t: map<PeerId, Peer>, macFree': map<PeerId, nat>, macsTree': map<Mac, PeerId>)
    requires Consistent(cfg, sw, macFree, groupFree, macsTree, ix, decide) && p in sw.tab
    requires !(m in macsTree && macsTree[m] == p) && (m in macsTree ==> macsTree[m] in sw.tab)
    requires var q := if m in macsTree then macsTree[m] else p;
      var tab := if m in macsTree then sw.tab[q := sw.tab[q].(macs := Remove(sw.tab[q].macs, m))] else sw.tab;
      t == tab[p := tab[p].(macs := Room(tab[p].macs, cfg.maxMacs) + [m])]
    requires PoolsExact(cfg, t, macFree', groupFree)
    requires var own := sw.tab[p].macs; var evicted := if |own| < cfg.maxMacs then {} else {own[0]};
      macsTree' == ((if m in macsTree then macsTree - {m} else macsTree) - evicted)[m := p]
    ensures Consistent(cfg, Switch(sw.order, t), macFree', groupFree, macsTree', ix, decide)
    ensures Switch(sw.order, t) == Learn(cfg, sw, p, m)
  {
    var own := sw.tab[p].macs;
    LearnTaken(cfg, sw, macsTree, p, m, t);
    TreeAfter(macsTree, m, p, if |own| < cfg.maxMacs then {} else {own[0]}, macsTree');
    LearnConsistent(cfg, sw, macFree, groupFree, macsTree, ix, decide, p, m, t, macFree', macsTree');
  }

  lemma RefreshConsistent(cfg: Config, sw: Switch, macFree: map<PeerId, nat>, groupFree: map<PeerId, nat>,
                          macsTree: map<Mac, PeerId>, ix: Index, decide: Decide, p: PeerId, m: Mac, t: map<PeerId, Peer>)
    requires Consistent(cfg, sw, macFree, groupFree, macsTree, ix, decide)
    requires p in sw.tab && m in macsTree && macsTree[m] == p
    requires t == sw.tab[p := sw.tab[p].(macs := Remove(sw.tab[p].macs, m) + [m])]
    ensures Consistent(cfg, Switch(sw.order, t), macFree, groupFree, macsTree, ix, decide)
    ensures Switch(sw.order, t) == Learn(cfg, sw, p, m)
  {
    LearnOwned(cfg, sw, macsTree, p, m, t);
    assert PeerOk(cfg, sw.tab[p]);
    PoolsRefreshed(cfg, sw.tab, macFree, groupFree, p, m, t);
    LearnConsistent(cfg, sw, macFree, groupFree, macsTree, ix, decide, p, m, t, macFree, macsTree);
  }

  lemma PoolsRefreshed(cfg: Config, tab: map<PeerId, Peer>, macFree: map<PeerId, nat>, groupFree: map<PeerId, nat>,
                       p: PeerId, m: Mac, t: map<PeerId, Peer>)
    requires PoolsExact(cfg, tab, macFree, groupFree) && p in tab && NoDup(tab[p].macs) && m in tab[p].macs
    requires t == tab[p := tab[p].(macs := Remove(tab[p].macs, m) + [m])]
    ensures PoolsExact(cfg, t, macFree, groupFree)
  {
    RemoveContents(tab[p].macs, m);
  }

  lemma LearnInContents(own: seq<Mac>, m: Mac, max: nat)
    requires NoDup(own) && |own| <= max && max > 0
    ensures forall n :: n in LearnIn(own, m, max) <==>
      n == m || (n in own && !(m !in own && |own| == max && n == own[0]))
  {
    RemoveContents(own, m);
    if m !in own && |own| == max {
      forall n | n in own && n != own[0] ensures n in own[1..] {
        var i :| 0 <= i < |own| && own[i] == n;
        assert own[1..][i - 1] == n;
      }
    }
  }

  // ----- deadlines

  // The deadlines of a group come down one membership at a time.
  function LowerSome(tab: map<PeerId, Peer>, g: Group, limit: int, done: set<PeerId>): (t: map<PeerId, Peer>)
    ensures t.Keys == tab.Keys
  {
    map q | q in tab :: if q in done then tab[q].(groups := LowerIn(tab[q].groups, g, limit)) else tab[q]
  }

  lemma LowerAbsent(ms: seq<Member>, g: Group, limit: int)
    requires !Has(ms, g)
    ensures LowerIn(ms, g, limit) == ms
  {
    HasMember(ms, g);
  }

  lemma LowerOne(ms: seq<Member>, g: Group, limit: int)
    requires DistinctGroups(ms) && Has(ms, g)
    ensures var i := Find(ms, g);
      LowerIn(ms, g, limit) == if ms[i].deadline > limit then ms[i := Member(g, limit)] else ms
  {
    var i := Find(ms, g);
    assert forall j :: 0 <= j < |ms| && j != i ==> ms[j].group != g;
  }

  // Lowering again changes nothing.
  lemma LowerTwice(ms: seq<Member>, g: Group, limit: int)
    requires DistinctGroups(ms) && Has(ms, g)
    ensures var t := LowerIn(ms, g, limit);
      Has(t, g) && Find(t, g) == Find(ms, g) && t[Find(ms, g)].deadline <= limit
  {
    var t := LowerIn(ms, g, limit);
    HasMember(t, g);
    assert t[Find(ms, g)].group == g;
    assert forall i :: 0 <= i < |ms| ==> t[i].group == ms[i].group;
  }

  // Peers that are not members have nothing to lower.
  lemma LowerDone(cfg: Config, sw: Switch, g: Group, limit: int, done: set<PeerId>, t: map<PeerId, Peer>)
    requires t == LowerSome(sw.tab, g, limit, done)
    requires forall q: PeerId :: q in done <==> Joined(sw, Key(q, g))
    ensures t == Lower(sw, g, limit).tab
  {
    forall q | q in sw.tab && q !in done ensures LowerIn(sw.tab[q].groups, g, limit) == sw.tab[q].groups {
      assert !Joined(sw, Key(q, g));
      LowerAbsent(sw.tab[q].groups, g, limit);
    }
  }

  lemma ConsistentLowered(cfg: Config, sw: Switch, macFree: map<PeerId, nat>, groupFree: map<PeerId, nat>,
                          macsTree: map<Mac, PeerId>, ix: Index, decide: Decide, g: Group, limit: int, t: map<PeerId, Peer>)
    requires Consistent(cfg, sw, macFree, groupFree, macsTree, ix, decide) && t == Lower(sw, g, limit).tab
    ensures Consistent(cfg, Switch(sw.order, t), macFree, groupFree, macsTree, ix, decide)
    ensures Switch(sw.order, t) == Lower(sw, g, limit)
  {
    LowerKeeps(cfg, sw, g, limit);
    assert t == LowerSome(sw.tab, g, limit, sw.tab.Keys);
    LowerLive(sw.tab, g, limit, sw.tab.Keys);
    forall q: PeerId, m: Mac ensures Uses(t, q, m) <==> m in macsTree && macsTree[m] == q {
      assert Uses(sw.tab, q, m) <==> m in macsTree && macsTree[m] == q;
    }
  }

  lemma LowerLive(tab: map<PeerId, Peer>, g: Group, limit: int, done: set<PeerId>)
    ensures Live(LowerSome(tab, g, limit, done)) == Live(tab)
  {
    var t := LowerSome(tab, g, limit, done);
    forall k: Key ensures k in Live(t) <==> k in Live(tab) {
      if k.peer in tab {
        var ms, ms' := tab[k.peer].groups, t[k.peer].groups;
        HasMember(ms, k.group);
        HasMember(ms', k.group);
        assert |ms| == |ms'| && forall i :: 0 <= i < |ms| ==> ms'[i].group == ms[i].group;
      }
    }
  }

  // The memberships that are left when the first i of a peer's have been removed.
  ghost function LiveBut(tab: map<PeerId, Peer>, p: PeerId, i: nat): iset<Key>
    requires p in tab && i <= |tab[p].groups|
  {
    iset k: Key | k in Live(tab) && !(k.peer == p && Has(tab[p].groups[..i], k.group))
  }

  lemma LiveButNext(tab: map<PeerId, Peer>, p: PeerId, i: nat)
    requires p in tab && DistinctGroups(tab[p].groups) && i < |tab[p].groups|
    ensures var k := Key(p, tab[p].groups[i].group);
      k in LiveBut(tab, p, i) && LiveBut(tab, p, i + 1) == LiveBut(tab, p, i) - iset{k}
  {
    var ms := tab[p].groups;
    var g := ms[i].group;
    HasMember(ms, g);
    HasMember(ms[..i], g);
    forall x: Group ensures Has(ms[..i + 1], x) <==> Has(ms[..i], x) || x == g {
      HasMember(ms[..i], x);
      HasMember(ms[..i + 1], x);
      assert ms[..i + 1] == ms[..i] + [ms[i]];
      HasAfter(ms[..i], x);
    }
  }

  lemma LiveButAll(tab: map<PeerId, Peer>, p: PeerId)
    requires p in tab
    ensures LiveBut(tab, p, 0) == Live(tab)
    ensures LiveBut(tab, p, |tab[p].groups|) == Live(tab - {p})
  {
    var ms := tab[p].groups;
    assert ms[..|ms|] == ms && ms[..0] == [];
  }

  // The tree without the first i addresses of a peer.
  ghost predicate MacsBut(tab: map<PeerId, Peer>, macs: map<Mac, PeerId>, p: PeerId, i: nat)
    requires p in tab && i <= |tab[p].macs|
  {
    forall q: PeerId, m: Mac {:trigger Uses(tab, q, m)} ::
      Uses(tab, q, m) && !(q == p && m in tab[p].macs[..i]) <==> m in macs && macs[m] == q
  }

  lemma MacsButNext(tab: map<PeerId, Peer>, macs: map<Mac, PeerId>, p: PeerId, i: nat)
    requires p in tab && NoDup(tab[p].macs) && i < |tab[p].macs| && MacsBut(tab, macs, p, i)
    ensures MacsBut(tab, macs - {tab[p].macs[i]}, p, i + 1)
  {
    var own := tab[p].macs;
    var m := own[i];
    var t := macs - {m};
    assert Uses(tab, p, m);
    assert m !in own[..i];
    assert own[..i + 1] == own[..i] + [m];
    forall q: PeerId, n: Mac ensures Uses(tab, q, n) && !(q == p && n in own[..i + 1]) <==> n in t && t[n] == q {
      assert Uses(tab, q, n) && !(q == p && n in own[..i]) <==> n in macs && macs[n] == q;
    }
  }

  lemma MacsButAll(tab: map<PeerId, Peer>, macs: map<Mac, PeerId>, p: PeerId)
    requires p in tab
    ensures MacsExact(tab, macs) ==> MacsBut(tab, macs, p, 0)
    ensures MacsBut(tab, macs, p, |tab[p].macs|) ==> MacsExact(tab - {p}, macs)
  {
    var own := tab[p].macs;
    assert own[..|own|] == own && own[..0] == [];
    if MacsBut(tab, macs, p, |own|) {
      forall q: PeerId, m: Mac ensures Uses(tab - {p}, q, m) <==> m in macs && macs[m] == q {
        assert Uses(tab, q, m) && !(q == p && m in own) <==> m in macs && macs[m] == q;
      }
    }
  }

  lemma AddedConsistent(cfg: Config, sw: Switch, macFree: map<PeerId, nat>, groupFree: map<PeerId, nat>,
                        macsTree: map<Mac, PeerId>, ix: Index, decide: Decide, p: PeerId)
    requires Consistent(cfg, sw, macFree, groupFree, macsTree, ix, decide) && p !in sw.tab
    ensures Consistent(cfg, Switch(sw.order + [p], sw.tab[p := Peer([], [])]), macFree[p := cfg.maxMacs],
                       groupFree[p := cfg.maxGroups], macsTree, ix, decide)
  {
    StepKeeps(cfg, sw, AddPeer(p));
    var t := sw.tab[p := Peer([], [])];
    forall q: PeerId, m: Mac ensures Uses(t, q, m) <==> m in macsTree && macsTree[m] == q {
      assert Uses(sw.tab, q, m) <==> m in macsTree && macsTree[m] == q;
    }
    assert Live(t) == Live(sw.tab);
  }

  // A decision in progress survives the loss of a peer.
  lemma FreedDecision(sw: Switch, p: PeerId, decide: Decide, decide': Decide)
    requires p in sw.tab && NoDup(sw.order) && (forall q :: q in sw.order <==> q in sw.tab)
    requires DecideOk(decide, sw.tab, Live(sw.tab - {p})) && decide != Unicast(p)
    requires var i := IndexOf(sw.order, p);
      decide' == if decide == Flooding(Some(p)) then Flooding(if i + 1 < |sw.order| then Some(sw.order[i + 1]) else None) else decide
    ensures DecideOk(decide', sw.tab - {p}, Live(sw.tab - {p}))
  {
    if decide == Flooding(Some(p)) {
      var i := IndexOf(sw.order, p);
      if i + 1 < |sw.order| {
        assert sw.order[i + 1] in sw.order && sw.order[i + 1] != sw.order[i];
      }
    }
  }

  lemma FreedConsistent(cfg: Config, sw: Switch, macFree: map<PeerId, nat>, groupFree: map<PeerId, nat>,
                        macsTree: map<Mac, PeerId>, ix: Index, decide: Decide, p: PeerId)
    requires cfg.Valid() && Inv(cfg, sw) && p in sw.tab && PoolsExact(cfg, sw.tab, macFree, groupFree)
    requires MacsExact(sw.tab - {p}, macsTree) && Exact(Live(sw.tab - {p}), ix)
    requires DecideOk(decide, sw.tab - {p}, Live(sw.tab - {p}))
    ensures Consistent(cfg, Switch(Remove(sw.order, p), sw.tab - {p}), macFree - {p}, groupFree - {p}, macsTree, ix, decide)
  {
    StepKeeps(cfg, sw, FreePeer(p));
  }

  // ----- a decision being read out when entries go

  // What an iterator has still to visit, and where it goes from an entry.
  function Rest<T(==)>(s: seq<T>, at: Option<T>): seq<T> {
    if at.Some? then s[IndexOf(s, at.value)..] else []
  }

  function Following<T(==)>(s: seq<T>, x: T): Option<T> {
    var i := IndexOf(s, x);
    if i + 1 < |s| then Some(s[i + 1]) else None
  }

  lemma RestAt<T>(s: seq<T>, i: nat)
    requires NoDup(s) && i < |s|
    ensures Rest(s, Some(s[i])) == s[i..]
  {
    IndexOfAt(s, i);
  }

  // An iterator that steps past an entry that goes misses nothing else.
  lemma RestWithout<T>(s: seq<T>, at: Option<T>, x: T)
    requires NoDup(s) && x in s && (at.Some? ==> at.value in s)
    ensures Rest(Remove(s, x), if at == Some(x) then Following(s, x) else at) == Remove(Rest(s, at), x)
  {
    if at.Some? {
      var i, j := IndexOf(s, at.value), IndexOf(s, x);
      RemoveContents(s, x);
      RemoveInRest(s, i, j);
      RestRemoved(s, i, j);
    }
  }

  lemma RestRemoved<T>(s: seq<T>, i: nat, j: nat)
    requires i < |s| && j < |s| && NoDup(RemoveAt(s, j))
    ensures Rest(RemoveAt(s, j), if i != j then Some(s[i]) else if i + 1 < |s| then Some(s[i + 1]) else None)
      == if j < i then s[i..] else RemoveAt(s[i..], j - i)
  {
    if j < i {
      RestAfter(s, i, j);
    } else if i < j {
      RestBefore(s, i, j);
    } else {
      RestFrom(s, i);
    }
  }

  lemma RemoveInRest<T>(s: seq<T>, i: nat, j: nat)
    requires NoDup(s) && i < |s| && j < |s|
    ensures Remove(s[i..], s[j]) == if j < i then s[i..] else RemoveAt(s[i..], j - i)
  {
    if j < i {
      RemoveMissing(s[i..], s[j]);
    } else {
      RemoveFound(s[i..], s[j], j - i);
    }
  }

  lemma RemoveMissing<T>(r: seq<T>, x: T)
    requires x !in r
    ensures Remove(r, x) == r
  {
  }

  lemma RemoveFound<T>(r: seq<T>, x: T, k: nat)
    requires NoDup(r) && k < |r| && r[k] == x
    ensures Remove(r, x) == RemoveAt(r, k)
  {
  }

  lemma RestAfter<T>(s: seq<T>, i: nat, j: nat)
    requires j < i < |s| && NoDup(RemoveAt(s, j))
    ensures Rest(RemoveAt(s, j), Some(s[i])) == s[i..]
  {
    assert RemoveAt(s, j)[i - 1] == s[i];
    RestAt(RemoveAt(s, j), i - 1);
    assert RemoveAt(s, j)[i - 1..] == s[i..];
  }

  lemma RestBefore<T>(s: seq<T>, i: nat, j: nat)
    requires i < j < |s| && NoDup(RemoveAt(s, j))
    ensures Rest(RemoveAt(s, j), Some(s[i])) == RemoveAt(s[i..], j - i)
  {
    assert RemoveAt(s, j)[i] == s[i];
    RestAt(RemoveAt(s, j), i);
    assert RemoveAt(s, j)[i..] == RemoveAt(s[i..], j - i);
  }

  lemma RestFrom<T>(s: seq<T>, i: nat)
    requires i < |s| && NoDup(RemoveAt(s, i))
    ensures Rest(RemoveAt(s, i), if i + 1 < |s| then Some(s[i + 1]) else None) == RemoveAt(s[i..], 0)
  {
    assert RemoveAt(s, i)[i..] == s[i + 1..] == RemoveAt(s[i..], 0);
    if i + 1 < |s| {
      assert RemoveAt(s, i)[i] == s[i + 1];
      RestAt(RemoveAt(s, i), i);
    }
  }

  // The memberships a multicast decision has still to visit.
  ghost function QueueOf(decide: Decide, chains: map<Sig, seq<Key>>): seq<Key> {
    if decide.Multicasting? && decide.it.Some? && SigOf(decide.it.value) in chains
    then Rest(chains[SigOf(decide.it.value)], decide.it) else []
  }

  // The iterator, if there is one, has not been given up.
  predicate Linked(decide: Decide) {
    decide.Multicasting? ==> decide.linked
  }

  function Jumped(decide: Decide, k: Key, chain: seq<Key>): Decide {
    if decide == Multicasting(Some(k), true) then Multicasting(Following(chain, k), true) else decide
  }

  lemma QueueWithout(live: iset<Key>, ix: Index, tab: map<PeerId, Peer>, decide: Decide, k: Key)
    requires Exact(live, ix) && k in live && Linked(decide) && DecideOk(decide, tab, live)
    ensures InChain(ix, SigOf(k), k)
    ensures QueueOf(Jumped(decide, k, ix.chains[SigOf(k)]), Exit(ix, k).chains) == Remove(QueueOf(decide, ix.chains), k)
  {
    var s := SigOf(k);
    assert InChain(ix, s, k) && ChainOk(ix, s);
    var chain := ix.chains[s];
    if decide.Multicasting? && decide.it.Some? {
      var at := decide.it.value;
      assert InChain(ix, SigOf(at), at);
      if SigOf(at) == s {
        RestWithout(chain, decide.it, k);
        ChainWithout(live, ix, chain, k, at);
      } else {
        assert InChain(ix, SigOf(at), k) <==> k in live && SigOf(k) == SigOf(at);
        NotInRest(ix.chains[SigOf(at)], decide.it, k);
      }
    }
  }

  lemma NotInRest<T>(s: seq<T>, at: Option<T>, x: T)
    requires x !in s
    ensures Remove(Rest(s, at), x) == Rest(s, at)
  {
    assert x !in Rest(s, at);
  }

  // What follows an entry in its chain has the same signature.
  lemma ChainWithout(live: iset<Key>, ix: Index, chain: seq<Key>, k: Key, at: Key)
    requires Exact(live, ix) && InChain(ix, SigOf(k), k) && chain == ix.chains[SigOf(k)]
    ensures Following(chain, k).Some? ==> SigOf(Following(chain, k).value) == SigOf(k)
    ensures |chain| == 1 ==> chain == [k]
    ensures SigOf(k) in Exit(ix, k).chains <==> |chain| != 1
    ensures |chain| != 1 ==> Exit(ix, k).chains[SigOf(k)] == Remove(chain, k)
  {
    if Following(chain, k).Some? {
      assert InChain(ix, SigOf(k), Following(chain, k).value);
    }
  }

  // All there is to know about an entry that leaves.
  lemma Leaving(live: iset<Key>, ix: Index, tab: map<PeerId, Peer>, decide: Decide, k: Key)
    requires Exact(live, ix) && k in live && DecideOk(decide, tab, live)
    ensures InChain(ix, SigOf(k), k) && (|ix.chains[SigOf(k)]| == 1 ==> k in ix.flags)
    ensures Exact(live - iset{k}, Exit(ix, k))
    ensures DecideOk(Jumped(decide, k, ix.chains[SigOf(k)]), tab, live - iset{k})
    ensures Linked(decide) ==>
      QueueOf(Jumped(decide, k, ix.chains[SigOf(k)]), Exit(ix, k).chains) == Remove(QueueOf(decide, ix.chains), k)
  {
    ExitExact(live, ix, k);
    OnlyEntry(live, ix, k);
    NextLives(live, ix, k);
    if Linked(decide) {
      QueueWithout(live, ix, tab, decide, k);
    }
  }

  lemma OnlyEntry(live: iset<Key>, ix: Index, k: Key)
    requires Exact(live, ix) && InChain(ix, SigOf(k), k)
    ensures |ix.chains[SigOf(k)]| == 1 ==> k in ix.flags
  {
    assert ChainOk(ix, SigOf(k));
    assert k in ix.flags <==> ix.masters[SigOf(k)] == k;
  }

  lemma NextLives(live: iset<Key>, ix: Index, k: Key)
    requires Exact(live, ix) && InChain(ix, SigOf(k), k)
    ensures var next := Following(ix.chains[SigOf(k)], k); next.Some? ==> next.value in live && next.value != k
  {
    var chain := ix.chains[SigOf(k)];
    assert ChainOk(ix, SigOf(k));
    if Following(chain, k).Some? {
      assert InChain(ix, SigOf(k), Following(chain, k).value);
    }
  }

  function ExceptPeer(ks: seq<Key>, p: PeerId): seq<Key> {
    if ks == [] then [] else (if ks[0].peer == p then [] else [ks[0]]) + ExceptPeer(ks[1..], p)
  }

  function Except(ps: seq<PeerId>, p: PeerId): seq<PeerId> {
    if ps == [] then [] else (if ps[0] == p then [] else [ps[0]]) + Except(ps[1..], p)
  }

  lemma {:induction false} ExceptRemoved(ks: seq<Key>, k: Key, p: PeerId)
    requires k.peer == p
    ensures ExceptPeer(Remove(ks, k), p) == ExceptPeer(ks, p)
  {
    if ks != [] {
      if ks[0] == k {
        assert Remove(ks, k) == ks[1..];
      } else {
        ExceptRemoved(ks[1..], k, p);
        assert Remove(ks, k) == [ks[0]] + Remove(ks[1..], k);
      }
    }
  }

  lemma {:induction false} ExceptNone(ks: seq<Key>, p: PeerId)
    requires forall k :: k in ks ==> k.peer != p
    ensures ExceptPeer(ks, p) == ks
  {
    if ks != [] {
      assert ks[0] in ks;
      ExceptNone(ks[1..], p);
    }
  }

  lemma {:induction false} PeersExcept(ks: seq<Key>, p: PeerId)
    ensures PeersOf(ExceptPeer(ks, p)) == Except(PeersOf(ks), p)
  {
    if ks != [] {
      PeersExcept(ks[1..], p);
      assert PeersOf(ks)[1..] == PeersOf(ks[1..]);
      assert PeersOf(ExceptPeer(ks, p)) == (if ks[0].peer == p then [] else [ks[0].peer]) + PeersOf(ExceptPeer(ks[1..], p));
    }
  }

  lemma {:induction false} ExceptDistinct(ps: seq<PeerId>, p: PeerId)
    requires NoDup(ps)
    ensures Except(ps, p) == Remove(ps, p)
  {
    if ps != [] {
      ExceptDistinct(ps[1..], p);
      if ps[0] == p {
        assert p !in ps[1..];
        assert Remove(ps[1..], p) == ps[1..];
      } else {
        assert Remove(ps, p) == [ps[0]] + Remove(ps[1..], p);
      }
    }
  }

  // Nobody is waited for who is not there.
  lemma QueueLives(tab: map<PeerId, Peer>, ix: Index, decide: Decide, p: PeerId)
    requires Exact(Live(tab), ix) && p !in tab
    ensures ExceptPeer(QueueOf(decide, ix.chains), p) == QueueOf(decide, ix.chains)
  {
    var q := QueueOf(decide, ix.chains);
    forall k | k in q ensures k.peer != p {
      assert InChain(ix, SigOf(decide.it.value), k);
    }
    ExceptNone(q, p);
  }

  lemma FloodFreed(order: seq<PeerId>, chains: map<Sig, seq<Key>>, next: Option<PeerId>, p: PeerId, chains': map<Sig, seq<Key>>)
    requires NoDup(order) && p in order && (next.Some? ==> next.value in order)
    ensures PendingOf(Flooding(if next == Some(p) then Following(order, p) else next), Remove(order, p), chains')
      == Except(PendingOf(Flooding(next), order, chains), p)
  {
    RestWithout(order, next, p);
    ExceptDistinct(Rest(order, next), p);
  }

  // The decision while a peer goes, from that before to that after.
  ghost predicate Forgets(order: seq<PeerId>, decide: Decide, chains: map<Sig, seq<Key>>, p: PeerId, decide': Decide, chains': map<Sig, seq<Key>>) {
    match decide
    case Idle => decide' == Idle
    case Unicast(q) => decide' == if q == p then Idle else decide
    case Flooding(next) => decide' == Flooding(if next == Some(p) then Following(order, p) else next)
    case Multicasting(_, _) => decide'.Multicasting? && QueueOf(decide', chains') == ExceptPeer(QueueOf(decide, chains), p)
  }

  lemma PendingFreed(order: seq<PeerId>, decide: Decide, chains: map<Sig, seq<Key>>, p: PeerId, decide': Decide, chains': map<Sig, seq<Key>>)
    requires NoDup(order) && p in order && Forgets(order, decide, chains, p, decide', chains')
    requires decide.Flooding? && decide.next.Some? ==> decide.next.value in order
    ensures PendingOf(decide', Remove(order, p), chains') == Except(PendingOf(decide, order, chains), p)
  {
    match decide
    case Idle =>
    case Unicast(q) =>
    case Flooding(next) => FloodFreed(order, chains, next, p, chains');
    case Multicasting(_, _) =>
      PendingQueue(decide, order, chains);
      PendingQueue(decide', Remove(order, p), chains');
      PeersExcept(QueueOf(decide, chains), p);
  }

  lemma PendingQueue(decide: Decide, order: seq<PeerId>, chains: map<Sig, seq<Key>>)
    requires decide.Multicasting?
    ensures PendingOf(decide, order, chains) == PeersOf(QueueOf(decide, chains))
  {
  }

  class Decider {
    const cfg: Config
    var order: seq<PeerId>
    var tab: map<PeerId, Peer>
    var macFree: map<PeerId, nat>
    var groupFree: map<PeerId, nat>
    var macsTree: map<Mac, PeerId>
    var masters: map<Sig, Key>
    var flags: set<Key>
    var chains: map<Sig, seq<Key>>
    var decide: Decide

    ghost function Abs(): Switch
      reads this
    {
      Switch(order, tab)
    }

    ghost function Ix(): Index
      reads this
    {
      Index(masters, flags, chains)
    }

    ghost function Queue(): seq<Key>
      reads this
    {
      QueueOf(decide, chains)
    }

    ghost predicate Valid()
      reads this
    {
      Consistent(cfg, Abs(), macFree, groupFree, macsTree, Ix(), decide)
    }

    constructor (cfg: Config)
      requires cfg.Valid()
      ensures this.cfg == cfg && Valid() && Abs() == EMPTY && decide == Idle
    {
      this.cfg := cfg;
      order, tab, macFree, groupFree := [], map[], map[], map[];
      macsTree, masters, flags, chains, decide := map[], map[], {}, map[], Idle;
    }

    // ----- addresses

    // Another peer's address is taken away from it.
    method Disassociate(q: PeerId, m: Mac)
      requires Valid() && q in tab && m in macsTree && macsTree[m] == q
      modifies this`tab, this`macsTree, this`macFree
      ensures tab == old(tab[q := tab[q].(macs := Remove(tab[q].macs, m))]) && macsTree == old(macsTree) - {m}
      ensures PoolsExact(cfg, tab, macFree, groupFree)
    {
      assert Uses(tab, q, m);
      assert PeerOk(cfg, tab[q]);
      RemoveContents(tab[q].macs, m);
      macsTree := macsTree - {m};
      tab := tab[q := tab[q].(macs := Remove(tab[q].macs, m))];
      macFree := macFree[q := macFree[q] + 1];
    }

    // An entry for a new address: a free one, or the oldest used one.
    method TakeMacEntry(p: PeerId, m: Mac)
      requires cfg.Valid() && PoolsExact(cfg, tab, macFree, groupFree) && p in tab && |tab[p].macs| <= cfg.maxMacs
      modifies this`tab, this`macsTree, this`macFree
      ensures tab == old(tab[p := tab[p].(macs := Room(tab[p].macs, cfg.maxMacs) + [m])])
      ensures macsTree == (old(macsTree) - old(if |tab[p].macs| < cfg.maxMacs then {} else {tab[p].macs[0]}))[m := p]
      ensures PoolsExact(cfg, tab, macFree, groupFree)
    {
      if macFree[p] > 0 {
        macFree := macFree[p := macFree[p] - 1];
      } else {
        var oldest := tab[p].macs[0];
        macsTree := macsTree - {oldest};
        tab := tab[p := tab[p].(macs := tab[p].macs[1..])];
      }
      tab := tab[p := tab[p].(macs := tab[p].macs + [m])];
      macsTree := macsTree[m := p];
    }

    method RefreshMac(p: PeerId, m: Mac)
      requires Valid() && m in macsTree && macsTree[m] == p && p in tab
      modifies this`tab
      ensures Valid() && Abs() == old(Learn(cfg, Abs(), p, m))
    {
      ghost var sw := Abs();
      tab := tab[p := tab[p].(macs := Remove(tab[p].macs, m) + [m])];
      RefreshConsistent(cfg, sw, macFree, groupFree, macsTree, Ix(), decide, p, m, tab);
    }

    method AddMacToPeer(p: PeerId, m: Mac)
      requires Valid() && p in tab
      modifies this`tab, this`macsTree, this`macFree
      ensures Valid() && Abs() == old(Learn(cfg, Abs(), p, m))
    {
      if m in macsTree && macsTree[m] == p {
        RefreshMac(p, m);
      } else {
        LearnMac(p, m);
      }
    }

    method LearnMac(p: PeerId, m: Mac)
      requires Valid() && p in tab && !(m in macsTree && macsTree[m] == p)
      modifies this`tab, this`macsTree, this`macFree
      ensures Valid() && Abs() == old(Learn(cfg, Abs(), p, m))
    {
      ghost var sw, free, tree := Abs(), macFree, macsTree;
      assert PeerOk(cfg, tab[p]);
      if m in macsTree {
        assert Uses(tab, macsTree[m], m);
        Disassociate(macsTree[m], m);
      }
      TakeMacEntry(p, m);
      LearnedConsistent(cfg, sw, free, groupFree, tree, Ix(), decide, p, m, tab, macFree, macsTree);
    }

    // ----- peers

    method PeerInit(p: PeerId)
      requires Valid() && p !in tab
      modifies this`order, this`tab, this`macFree, this`groupFree
      ensures Valid() && Abs() == old(Switch(order + [p], tab[p := Peer([], [])]))
    {
      AddedConsistent(cfg, Abs(), macFree, groupFree, macsTree, Ix(), decide, p);
      order := order + [p];
      tab := tab[p := Peer([], [])];
      macFree := macFree[p := cfg.maxMacs];
      groupFree := groupFree[p := cfg.maxGroups];
    }

    // The peer's memberships leave the index one by one.
    method ForgetGroups(p: PeerId)
      requires p in tab && DistinctGroups(tab[p].groups) && Exact(Live(tab), Ix()) && DecideOk(decide, tab, Live(tab))
      modifies this`masters, this`flags, this`chains, this`decide
      ensures Exact(Live(tab - {p}), Ix()) && DecideOk(decide, tab, Live(tab - {p}))
      ensures decide == old(decide) || (old(decide).Multicasting? && decide.Multicasting?)
      ensures Linked(old(decide)) ==> Linked(decide) && ExceptPeer(Queue(), p) == ExceptPeer(old(Queue()), p)
    {
      LiveButAll(tab, p);
      for i := 0 to |tab[p].groups|
        invariant Exact(LiveBut(tab, p, i), Ix()) && DecideOk(decide, tab, LiveBut(tab, p, i))
        invariant decide == old(decide) || (old(decide).Multicasting? && decide.Multicasting?)
        invariant Linked(old(decide)) ==> Linked(decide) && ExceptPeer(Queue(), p) == ExceptPeer(old(Queue()), p)
      {
        ForgetGroup(p, i);
      }
    }

    method ForgetGroup(p: PeerId, i: nat)
      requires p in tab && DistinctGroups(tab[p].groups) && i < |tab[p].groups|
      requires Exact(LiveBut(tab, p, i), Ix()) && DecideOk(decide, tab, LiveBut(tab, p, i))
      modifies this`masters, this`flags, this`chains, this`decide
      ensures Exact(LiveBut(tab, p, i + 1), Ix()) && DecideOk(decide, tab, LiveBut(tab, p, i + 1))
      ensures decide == old(decide) || (old(decide).Multicasting? && decide.Multicasting?)
      ensures Linked(old(decide)) ==> Linked(decide) && ExceptPeer(Queue(), p) == ExceptPeer(old(Queue()), p)
    {
      LiveButNext(tab, p, i);
      ExceptRemoved(Queue(), Key(p, tab[p].groups[i].group), p);
      RemoveFromMulticast(Key(p, tab[p].groups[i].group), LiveBut(tab, p, i));
    }

    method ForgetMacs(p: PeerId)
      requires p in tab && NoDup(tab[p].macs) && MacsExact(tab, macsTree)
      modifies this`macsTree
      ensures MacsExact(tab - {p}, macsTree)
    {
      MacsButAll(tab, macsTree, p);
      for i := 0 to |tab[p].macs|
        invariant MacsBut(tab, macsTree, p, i)
      {
        MacsButNext(tab, macsTree, p, i);
        macsTree := macsTree - {tab[p].macs[i]};
      }
      MacsButAll(tab, macsTree, p);
    }

    // No reference to the peer is left in the indexes or in the decision.
    method Unlink(p: PeerId)
      requires Valid() && p in tab
      modifies this`masters, this`flags, this`chains, this`decide, this`macsTree
      ensures MacsExact(tab - {p}, macsTree) && Exact(Live(tab - {p}), Ix())
      ensures DecideOk(decide, tab - {p}, Live(tab - {p}))
      ensures Linked(old(decide)) ==> Forgets(order, old(decide), old(chains), p, decide, chains)
    {
      if decide == Unicast(p) {
        decide := Idle;
      }
      assert PeerOk(cfg, tab[p]);
      ForgetGroups(p);
      QueueLives(tab - {p}, Ix(), decide, p);
      ForgetMacs(p);
      ghost var was := decide;
      if decide == Flooding(Some(p)) {
        var i := IndexOf(order, p);
        decide := Flooding(if i + 1 < |order| then Some(order[i + 1]) else None);
      }
      FreedDecision(Abs(), p, was, decide);
    }

    method PeerFree(p: PeerId)
      requires Valid() && p in tab
      modifies this
      ensures Valid() && Abs() == old(Switch(Remove(order, p), tab - {p}))
      ensures Linked(old(decide)) ==> Pending() == Except(old(Pending()), p)
    {
      ghost var was, lists := decide, chains;
      Unlink(p);
      FreedConsistent(cfg, Abs(), macFree, groupFree, macsTree, Ix(), decide, p);
      if Linked(was) {
        PendingFreed(order, was, lists, p, decide, chains);
      }
      order := Remove(order, p);
      tab := tab - {p};
      macFree := macFree - {p};
      groupFree := groupFree - {p};
    }

    // ----- groups

    method AddToMulticast(k: Key, ghost live: iset<Key>)
      requires Exact(live, Ix()) && k !in live
      modifies this`masters, this`flags, this`chains
      ensures Exact(live + iset{k}, Ix())
    {
      EnterExact(live, Ix(), k);
      var s := SigOf(k);
      if s in masters {
        assert ChainOk(Ix(), s);
        assert InChain(Ix(), s, masters[s]);
        assert masters[s] in flags;
        chains := chains[s := InsertAfter(chains[s], masters[s], k)];
      } else {
        flags := flags + {k};
        masters := masters[s := k];
        chains := chains[s := [k]];
      }
    }

    method RemoveFromMulticast(k: Key, ghost live: iset<Key>)
      requires Exact(live, Ix()) && k in live && DecideOk(decide, tab, live)
      modifies this`masters, this`flags, this`chains, this`decide
      ensures Exact(live - iset{k}, Ix()) && DecideOk(decide, tab, live - iset{k})
      ensures decide == old(decide) || (old(decide).Multicasting? && decide.Multicasting?)
      ensures Linked(old(decide)) ==> Linked(decide) && Queue() == Remove(old(Queue()), k)
    {
      ghost var ix, was := Ix(), decide;
      Leaving(live, ix, tab, was, k);
      PassMark(k);
      JumpIterator(k, chains[SigOf(k)]);
      UnlinkNode(k);
      assert Ix() == Exit(ix, k);
    }

    // The mark goes to a neighbour, if the entry has it and there is one.
    method PassMark(k: Key)
      requires SigOf(k) in chains && k in chains[SigOf(k)] && (|chains[SigOf(k)]| == 1 ==> k in flags)
      modifies this`masters, this`flags
      ensures masters == Exit(old(Ix()), k).masters && flags == Exit(old(Ix()), k).flags
    {
      var s := SigOf(k);
      if k in flags {
        masters := masters - {s};
        flags := flags - {k};
        if |chains[s]| > 1 {
          var heir := Neighbour(chains[s], k);
          flags := flags + {heir};
          masters := masters[s := heir];
        }
      }
    }

    method UnlinkNode(k: Key)
      requires SigOf(k) in chains && k in chains[SigOf(k)]
      modifies this`chains
      ensures chains == Exit(old(Ix()), k).chains
    {
      var s := SigOf(k);
      if |chains[s]| == 1 {
        chains := chains - {s};
      } else {
        chains := chains[s := Remove(chains[s], k)];
      }
    }

    // A membership leaves the used list and the index.
    method DropGroup(p: PeerId, g: Group)
      requires Valid() && p in tab && Has(tab[p].groups, g)
      modifies this`tab, this`masters, this`flags, this`chains, this`decide
      ensures tab == old(WithGroups(tab, p, Without(tab[p].groups, g)))
      ensures Exact(Live(tab), Ix()) && DecideOk(decide, tab, Live(tab))
      ensures decide == old(decide) || (old(decide).Multicasting? && decide.Multicasting?)
      ensures Linked(old(decide)) ==> Linked(decide) && Queue() == Remove(old(Queue()), Key(p, g))
    {
      assert PeerOk(cfg, tab[p]);
      RemoveFromMulticast(Key(p, g), Live(tab));
      LiveWithout(tab, p, g);
      tab := WithGroups(tab, p, Without(tab[p].groups, g));
    }

    // A new membership enters the used list and the index.
    method EnterGroup(p: PeerId, g: Group, deadline: int)
      requires p in tab && DistinctGroups(tab[p].groups) && !Has(tab[p].groups, g)
      requires Exact(Live(tab), Ix()) && DecideOk(decide, tab, Live(tab))
      modifies this`tab, this`masters, this`flags, this`chains
      ensures tab == old(WithGroups(tab, p, tab[p].groups + [Member(g, deadline)]))
      ensures Exact(Live(tab), Ix()) && DecideOk(decide, tab, Live(tab))
    {
      ghost var live := Live(tab);
      LiveWith(tab, p, g, deadline);
      tab := WithGroups(tab, p, tab[p].groups + [Member(g, deadline)]);
      AddToMulticast(Key(p, g), live);
    }

    // A membership the peer has already becomes the newest and gets a new deadline.
    method RejoinGroup(p: PeerId, g: Group, deadline: int)
      requires Valid() && p in tab && Has(tab[p].groups, g)
      modifies this`tab
      ensures Valid() && Abs() == old(Join(cfg, Abs(), p, g, deadline))
    {
      ghost var sw, ms := Abs(), tab[p].groups;
      assert PeerOk(cfg, tab[p]);
      WithoutIs(ms, g);
      tab := WithGroups(tab, p, Without(tab[p].groups, g) + [Member(g, deadline)]);
      LiveRejoined(sw.tab, p, g, deadline, tab);
      JoinConsistent(cfg, sw, macFree, groupFree, macsTree, Ix(), decide, p, g, deadline, tab, groupFree, Ix(), decide);
    }

    // An entry for a new membership: a free one, or that of the oldest.
    method TakeGroupEntry(p: PeerId)
      requires Valid() && p in tab
      modifies this`tab, this`masters, this`flags, this`chains, this`decide, this`groupFree
      ensures tab == old(WithGroups(tab, p, Room(tab[p].groups, cfg.maxGroups)))
      ensures Exact(Live(tab), Ix()) && DecideOk(decide, tab, Live(tab))
      ensures groupFree.Keys == old(groupFree.Keys) && |tab[p].groups| + 1 + groupFree[p] == cfg.maxGroups
      ensures forall q :: q in groupFree && q != p ==> groupFree[q] == old(groupFree[q])
      ensures decide == old(decide) || (old(decide).Multicasting? && decide.Multicasting?)
    {
      assert PeerOk(cfg, tab[p]);
      if groupFree[p] > 0 {
        groupFree := groupFree[p := groupFree[p] - 1];
        assert tab == WithGroups(tab, p, tab[p].groups);
      } else {
        OldestFirst(tab[p].groups);
        DropGroup(p, tab[p].groups[0].group);
      }
    }

    method TakeAndEnter(p: PeerId, g: Group, deadline: int)
      requires Valid() && p in tab && !Has(tab[p].groups, g)
      modifies this`tab, this`masters, this`flags, this`chains, this`decide, this`groupFree
      ensures tab == old(WithGroups(tab, p, JoinIn(tab[p].groups, g, deadline, cfg.maxGroups)))
      ensures Exact(Live(tab), Ix()) && DecideOk(decide, tab, Live(tab))
      ensures groupFree.Keys == old(groupFree.Keys) && |tab[p].groups| + groupFree[p] == cfg.maxGroups
      ensures forall q :: q in groupFree && q != p ==> groupFree[q] == old(groupFree[q])
      ensures decide == old(decide) || (old(decide).Multicasting? && decide.Multicasting?)
    {
      ghost var was := tab;
      assert PeerOk(cfg, tab[p]);
      RoomFor(tab[p].groups, cfg.maxGroups, g);
      TakeGroupEntry(p);
      EnterGroup(p, g, deadline);
      JoinedTab(was, p, g, deadline, cfg.maxGroups, tab);
    }

    method JoinGroup(p: PeerId, g: Group, deadline: int)
      requires Valid() && p in tab && !Has(tab[p].groups, g)
      modifies this`tab, this`masters, this`flags, this`chains, this`decide, this`groupFree
      ensures Valid() && Abs() == old(Join(cfg, Abs(), p, g, deadline))
      ensures decide == old(decide) || (old(decide).Multicasting? && decide.Multicasting?)
    {
      ghost var sw, free, ix, was := Abs(), groupFree, Ix(), decide;
      TakeAndEnter(p, g, deadline);
      JoinConsistent(cfg, sw, macFree, free, macsTree, ix, was, p, g, deadline, tab, groupFree, Ix(), decide);
    }

    method AddGroupToPeer(p: PeerId, g: Group, now: int)
      requires Valid() && p in tab
      modifies this`tab, this`masters, this`flags, this`chains, this`decide, this`groupFree
      ensures Valid() && Abs() == old(Join(cfg, Abs(), p, g, now + cfg.membership))
      ensures decide == old(decide) || (old(decide).Multicasting? && decide.Multicasting?)
    {
      var deadline := now + cfg.membership;
      if Has(tab[p].groups, g) {
        RejoinGroup(p, g, deadline);
      } else {
        JoinGroup(p, g, deadline);
      }
    }

    // A membership's timer has run out.
    method RemoveGroupEntry(p: PeerId, g: Group)
      requires Valid() && Joined(Abs(), Key(p, g))
      modifies this`tab, this`masters, this`flags, this`chains, this`decide, this`groupFree
      ensures Valid() && Abs() == old(Leave(Abs(), p, g))
      ensures decide == old(decide) || (old(decide).Multicasting? && decide.Multicasting?)
      ensures Linked(old(decide)) ==> Linked(decide) && Queue() == Remove(old(Queue()), Key(p, g))
    {
      ghost var sw, ix, was := Abs(), Ix(), decide;
      DropGroup(p, g);
      FreeGroupEntry(p, g, sw, ix, was);
    }

    // The entry goes to the free list.
    method FreeGroupEntry(p: PeerId, g: Group, ghost sw: Switch, ghost ix: Index, ghost was: Decide)
      requires Consistent(cfg, sw, macFree, groupFree, macsTree, ix, was) && Joined(sw, Key(p, g)) && order == sw.order
      requires tab == WithGroups(sw.tab, p, Without(sw.tab[p].groups, g)) && Exact(Live(tab), Ix()) && DecideOk(decide, tab, Live(tab))
      modifies this`groupFree
      ensures Valid() && Abs() == Leave(sw, p, g)
    {
      ghost var free := groupFree;
      groupFree := groupFree[p := groupFree[p] + 1];
      LeftConsistent(cfg, sw, macFree, free, macsTree, ix, was, p, g, tab, groupFree, Ix(), decide);
    }

    // A Group-Specific Query: the members of the group have to answer soon.
    method LowerGroupTimers(g: Group, now: int)
      requires Valid()
      modifies this`tab
      ensures Valid() && Abs() == old(Lower(Abs(), g, now + cfg.lastMember))
    {
      ghost var sw := Abs();
      var s, limit := SigOfGroup(g), now + cfg.lastMember;
      ChainIsMemberships(sw, Ix(), s);
      if s in masters {
        assert ChainOk(Ix(), s);
        LowerChain(chains[s], s, g, limit);
      } else {
        LowerDone(cfg, sw, g, limit, {}, tab);
      }
      ConsistentLowered(cfg, sw, macFree, groupFree, macsTree, Ix(), decide, g, limit, tab);
    }

    // The chain may hold other groups with the same signature.
    method LowerChain(chain: seq<Key>, s: Sig, g: Group, limit: int)
      requires cfg.Valid() && Inv(cfg, Abs()) && s == SigOfGroup(g) && Memberships(Abs(), s, chain)
      modifies this`tab
      ensures tab == old(Lower(Abs(), g, limit).tab)
    {
      ghost var sw := Abs();
      ghost var done: set<PeerId> := {};
      for j := 0 to |chain|
        invariant tab == LowerSome(sw.tab, g, limit, done)
        invariant forall q :: q in done <==> Key(q, g) in chain[..j]
      {
        var k := chain[j];
        assert k in chain && Joined(sw, k);
        assert chain[..j + 1] == chain[..j] + [k];
        if k.group == g {
          LowerEntry(k.peer, g, limit, sw, done);
          done := done + {k.peer};
        }
      }
      assert chain[..|chain|] == chain;
      LowerDone(cfg, sw, g, limit, done, tab);
    }

    method LowerEntry(p: PeerId, g: Group, limit: int, ghost sw: Switch, ghost done: set<PeerId>)
      requires cfg.Valid() && Inv(cfg, sw) && Joined(sw, Key(p, g)) && tab == LowerSome(sw.tab, g, limit, done)
      modifies this`tab
      ensures tab == LowerSome(sw.tab, g, limit, done + {p})
    {
      assert PeerOk(cfg, sw.tab[p]);
      LowerOne(sw.tab[p].groups, g, limit);
      LowerTwice(sw.tab[p].groups, g, limit);
      var ms := tab[p].groups;
      var i := Find(ms, g);
      if ms[i].deadline > limit {
        tab := WithGroups(tab, p, ms[i := Member(g, limit)]);
      }
    }

    // An iterator about to visit an entry that goes away moves to the next one.
    method JumpIterator(k: Key, chain: seq<Key>)
      modifies this`decide
      ensures decide == Jumped(old(decide), k, chain)
    {
      if decide == Multicasting(Some(k), true) {
        var i := IndexOf(chain, k);
        decide := Multicasting(if i + 1 < |chain| then Some(chain[i + 1]) else None, true);
      }
    }

    // ----- frames from peers

    method JoinGroups(p: PeerId, gs: seq<Group>, now: int)
      requires Valid() && p in tab
      modifies this`tab, this`masters, this`flags, this`chains, this`decide, this`groupFree
      ensures Valid() && Abs() == old(Apply(cfg, Abs(), JoinEvents(p, gs, now)))
      ensures decide == old(decide) || (old(decide).Multicasting? && decide.Multicasting?)
    {
      ghost var es, sw := JoinEvents(p, gs, now), Abs();
      for i := 0 to |gs|
        invariant Valid() && p in tab && Abs() == Apply(cfg, sw, es[..i])
        invariant decide == old(decide) || (old(decide).Multicasting? && decide.Multicasting?)
      {
        JoinNext(p, gs, now, i, sw);
      }
      assert es[..|gs|] == es;
    }

    method JoinNext(p: PeerId, gs: seq<Group>, now: int, i: nat, ghost sw: Switch)
      requires Valid() && p in tab && i < |gs| && Abs() == Apply(cfg, sw, JoinEvents(p, gs, now)[..i])
      modifies this`tab, this`masters, this`flags, this`chains, this`decide, this`groupFree
      ensures Valid() && p in tab && Abs() == Apply(cfg, sw, JoinEvents(p, gs, now)[..i + 1])
      ensures decide == old(decide) || (old(decide).Multicasting? && decide.Multicasting?)
    {
      ApplyJoin(cfg, sw, p, gs, now, i, Abs());
      AddGroupToPeer(p, gs[i], now);
    }

    // FrameDeciderPeer_Analyze
    method Analyze(p: PeerId, f: seq<Byte>, now: int)
      requires Valid() && p in tab
      modifies this
      ensures Valid() && Abs() == old(Apply(cfg, Abs(), Heard(p, f, now)))
      ensures decide == old(decide) || (old(decide).Multicasting? && decide.Multicasting?)
    {
      if |f| < ETHERNET_HEADER {
        return;
      }
      AddMacToPeer(p, Source(f));
      JoinGroups(p, JoinedGroups(f), now);
      AfterSeeing(cfg, old(Abs()), p, Source(f), JoinEvents(p, JoinedGroups(f), now));
    }

    // ----- frames from the device

    ghost function Pending(): seq<PeerId>
      reads this
    {
      PendingOf(decide, order, chains)
    }

    method StartFlood()
      requires Valid()
      modifies this`decide
      ensures Valid() && decide.Flooding? && Pending() == order
    {
      decide := Flooding(if order == [] then None else Some(order[0]));
    }

    method StartMulticast(s: Sig)
      requires Valid()
      modifies this`decide
      ensures Valid() && decide.Multicasting? ==> decide.linked
      ensures Valid() && exists keys :: Memberships(Abs(), s, keys) && Pending() == PeersOf(keys)
    {
      ChainIsMemberships(Abs(), Ix(), s);
      decide := Idle;
      if s in masters {
        assert ChainOk(Ix(), s);
        var first := chains[s][0];
        assert InChain(Ix(), s, first);
        decide := Multicasting(Some(first), true);
        assert chains[s][0..] == chains[s];
        assert Memberships(Abs(), s, chains[s]);
      } else {
        assert Memberships(Abs(), s, []);
      }
    }

    /**
      A new frame from the device: it is looked at for a query, and its destinations
      are decided. Callers read out one decision before they ask for another. If they
      do not, and the decision is a multicast one, the new frame is not looked at: the
      program only gives up the iterator, and what is left of the old decision stays.
     */
    method AnalyzeAndDecide(f: seq<Byte>, now: int)
      requires Valid()
      modifies this
      ensures Valid()
      ensures old(decide).Multicasting? ==> Abs() == old(Abs()) && decide == old(decide.(linked := false))
      ensures !old(decide).Multicasting? ==>
        Abs() == old(if QueriedGroup(f).Some? then Lower(Abs(), QueriedGroup(f).value, now + cfg.lastMember) else Abs())
      ensures !old(decide).Multicasting? ==> Destined(Abs(), f, Pending()) && (decide.Multicasting? ==> decide.linked)
    {
      if decide.Multicasting? {
        decide := decide.(linked := false);
        return;
      }
      decide := Idle;
      if |f| < ETHERNET_HEADER {
        return;
      }
      if QueriedGroup(f).Some? {
        LowerGroupTimers(QueriedGroup(f).value, now);
      }
      Choose(Igmp(f).Some?, Dest(f));
    }

    method Choose(igmp: bool, dest: Mac)
      requires Valid() && decide == Idle
      modifies this`decide
      ensures Valid() && Addressed(Abs(), igmp, dest, Pending()) && (decide.Multicasting? ==> decide.linked)
    {
      if igmp || dest == BROADCAST {
        StartFlood();
      } else if IsMulticast(dest) {
        StartMulticast(SigOfMac(dest));
      } else if dest in macsTree {
        assert Uses(tab, macsTree[dest], dest);
        decide := Unicast(macsTree[dest]);
        assert Owns(Abs(), macsTree[dest], dest);
      } else {
        forall p: PeerId ensures !Owns(Abs(), p, dest) {
          assert !Uses(tab, p, dest);
        }
        StartFlood();
      }
    }

    /** The next destination of the current decision, if there is one left. */
    method NextDestination() returns (to: Option<PeerId>)
      requires Readable(decide, order, chains)
      modifies this`decide
      ensures Readable(decide, order, chains)
      ensures to.None? ==> old(Pending()) == [] && decide == Idle
      ensures to.Some? ==> old(Pending()) == [to.value] + Pending()
    {
      match decide
      case Idle => to := None;
      case Unicast(p) =>
        to := Some(p);
        decide := Idle;
      case Flooding(next) =>
        to := next;
        if next.None? {
          decide := Idle;
        } else {
          var i := IndexOf(order, next.value);
          FloodTail(order, chains, i);
          decide := Flooding(if i + 1 < |order| then Some(order[i + 1]) else None);
        }
      case Multicasting(it, _) =>
        if it.None? {
          to := None;
          decide := Idle;
        } else {
          to := Some(it.value.peer);
          var chain := chains[SigOf(it.value)];
          var i := IndexOf(chain, it.value);
          ChainTail(order, chains, SigOf(it.value), i);
          decide := Multicasting(if i + 1 < |chain| then Some(chain[i + 1]) else None, true);
        }
    }

    // The client's loop over the destinations.
    method Drain() returns (sent: seq<PeerId>)
      requires Readable(decide, order, chains)
      modifies this`decide
      ensures sent == old(Pending()) && decide == Idle
    {
      ghost var all := Pending();
      sent := [];
      var next := NextDestination();
      while next.Some?
        invariant Readable(decide, order, chains)
        invariant next.None? ==> sent == all && decide == Idle
        invariant next.Some? ==> (sent + [next.value]) + Pending() == all
        decreases |Pending()|, next.Some?
      {
        sent := sent + [next.value];
        next := NextDestination();
        if next.Some? {
          Assoc(sent, [next.value], Pending());
        }
      }
    }

    /**
      A frame from the device is decided and the decision is read out: the peers it is
      sent to are precisely its destinations.
     */
    method Forward(f: seq<Byte>, now: int) returns (sent: seq<PeerId>)
      requires Valid() && !decide.Multicasting?
      modifies this
      ensures Valid() && decide == Idle && Destined(Abs(), f, sent)
      ensures Abs() == old(if QueriedGroup(f).Some? then Lower(Abs(), QueriedGroup(f).value, now + cfg.lastMember) else Abs())
    {
      AnalyzeAndDecide(f, now);
      ghost var was := decide;
      ConsistentReadable(cfg, Abs(), macFree, groupFree, macsTree, Ix(), decide);
      sent := Drain();
      ReadableConsistent(cfg, Abs(), macFree, groupFree, macsTree, Ix(), was, decide);
    }
  }

  lemma FloodTail(order: seq<PeerId>, chains: map<Sig, seq<Key>>, i: nat)
    requires NoDup(order) && i < |order|
    ensures var next := if i + 1 < |order| then Some(order[i + 1]) else None;
      && PendingOf(Flooding(Some(order[i])), order, chains) == [order[i]] + PendingOf(Flooding(next), order, chains)
      && Readable(Flooding(next), order, chains)
  {
    IndexOfAt(order, i);
    if i + 1 < |order| {
      IndexOfAt(order, i + 1);
    }
    assert order[i..] == [order[i]] + order[i + 1..];
  }

  lemma PendingAt(order: seq<PeerId>, chains: map<Sig, seq<Key>>, s: Sig, i: nat)
    requires ReadableChain(s, chains) && i < |chains[s]|
    ensures PendingOf(Multicasting(Some(chains[s][i]), true), order, chains) == PeersOf(chains[s][i..])
    ensures Readable(Multicasting(Some(chains[s][i]), true), order, chains)
  {
    var k := chains[s][i];
    assert k in chains[s];
    assert SigOf(k) == s;
    IndexOfAt(chains[s], i);
  }

  lemma PeersTail(keys: seq<Key>, i: nat)
    requires i < |keys|
    ensures PeersOf(keys[i..]) == [keys[i].peer] + PeersOf(keys[i + 1..])
  {
  }

  lemma ChainTail(order: seq<PeerId>, chains: map<Sig, seq<Key>>, s: Sig, i: nat)
    requires ReadableChain(s, chains) && i < |chains[s]|
    ensures var chain := chains[s];
      var next := if i + 1 < |chain| then Some(chain[i + 1]) else None;
      && PendingOf(Multicasting(Some(chain[i]), true), order, chains) == [chain[i].peer] + PendingOf(Multicasting(next, true), order, chains)
      && Readable(Multicasting(next, true), order, chains)
  {
    var chain := chains[s];
    PendingAt(order, chains, s, i);
    PeersTail(chain, i);
    if i + 1 < |chain| {
      PendingAt(order, chains, s, i + 1);
    } else {
      assert chain[i + 1..] == [];
    }
  }

  lemma ApplyJoin(cfg: Config, sw: Switch, p: PeerId, gs: seq<Group>, now: int, i: nat, t: Switch)
    requires cfg.Valid() && i < |gs| && p in t.tab && t == Apply(cfg, sw, JoinEvents(p, gs, now)[..i])
    ensures Apply(cfg, sw, JoinEvents(p, gs, now)[..i + 1]) == Join(cfg, t, p, gs[i], now + cfg.membership)
  {
    var es := JoinEvents(p, gs, now)[..i + 1];
    assert es[..i] == JoinEvents(p, gs, now)[..i] && es[i] == Joins(p, gs[i], now);
  }

  lemma IndexOfAt<T>(s: seq<T>, i: nat)
    requires NoDup(s) && i < |s|
    ensures IndexOf(s, s[i]) == i
  {
  }

  lemma {:induction false} AfterSeeing(cfg: Config, sw: Switch, p: PeerId, m: Mac, es: seq<Event>)
    requires cfg.Valid() && p in sw.tab
    ensures Apply(cfg, sw, [Sees(p, m)] + es) == Apply(cfg, Learn(cfg, sw, p, m), es)
  {
    var all := [Sees(p, m)] + es;
    if es == [] {
      assert all[..0] == [];
    } else {
      AfterSeeing(cfg, sw, p, m, es[..|es| - 1]);
      assert all[..|all| - 1] == [Sees(p, m)] + es[..|es| - 1];
    }
  }

  // Removing an address before it is stored again makes no difference.
  lemma TreeAfter(tree: map<Mac, PeerId>, m: Mac, p: PeerId, evicted: set<Mac>, t: map<Mac, PeerId>)
    requires t == ((tree - {m}) - evicted)[m := p] || t == (tree - evicted)[m := p]
    ensures t == (tree - evicted)[m := p]
  {
  }
}
