/**
  The decider's indexes: which peer uses an address, and which memberships share a
  signature. The entries of a signature form a chain; one of them, the master, stands
  for the chain in the tree.
 */
module FrameIndex {
  import opened Bytes
  import opened Lists
  import opened Frames
  import opened FrameSwitch

  // ----- addresses

  predicate Uses(tab: map<PeerId, Peer>, p: PeerId, m: Mac) {
    p in tab && m in tab[p].macs
  }

  // The tree of addresses is the union of what the peers use, each under one peer.
  ghost predicate MacsExact(tab: map<PeerId, Peer>, macs: map<Mac, PeerId>) {
    forall p: PeerId, m: Mac {:trigger Uses(tab, p, m)} :: Uses(tab, p, m) <==> m in macs && macs[m] == p
  }

  // The entries of a peer's pools are used or free.
  ghost predicate PoolsExact(cfg: Config, tab: map<PeerId, Peer>, macFree: map<PeerId, nat>, groupFree: map<PeerId, nat>) {
    && macFree.Keys == groupFree.Keys == tab.Keys
    && forall p {:trigger macFree[p]} {:trigger groupFree[p]} :: p in tab ==>
      |tab[p].macs| + macFree[p] == cfg.maxMacs && |tab[p].groups| + groupFree[p] == cfg.maxGroups
  }

  // ----- memberships

  datatype Index = Index(masters: map<Sig, Key>, flags: set<Key>, chains: map<Sig, seq<Key>>)

  function SigOf(k: Key): Sig {
    SigOfGroup(k.group)
  }

  ghost function Live(tab: map<PeerId, Peer>): iset<Key> {
    iset k: Key | k.peer in tab && Has(tab[k.peer].groups, k.group)
  }

  predicate InChain(ix: Index, s: Sig, k: Key) {
    s in ix.chains && k in ix.chains[s]
  }

  predicate ChainOk(ix: Index, s: Sig)
    requires s in ix.chains
  {
    NoDup(ix.chains[s]) && s in ix.masters && ix.masters[s] in ix.chains[s]
  }

  /**
    The index is exact: the signatures in the tree are those of the live memberships;
    each has a chain of precisely its memberships, each once, and precisely one of
    them is marked as the master, which is the one in the tree.
   */
  ghost predicate Exact(live: iset<Key>, ix: Index) {
    && ix.masters.Keys == ix.chains.Keys
    && (forall s: Sig {:trigger ChainOk(ix, s)} :: s in ix.chains ==> ChainOk(ix, s))
    && (forall s: Sig, k: Key {:trigger InChain(ix, s, k)} :: InChain(ix, s, k) <==> k in live && SigOf(k) == s)
    && (forall k: Key {:trigger k in ix.flags} :: k in ix.flags <==> SigOf(k) in ix.masters && ix.masters[SigOf(k)] == k)
  }

  // After the master, as the program does it.
  function InsertAfter(chain: seq<Key>, master: Key, k: Key): seq<Key> {
    var i := IndexOf(chain, master);
    if i < |chain| then chain[..i + 1] + [k] + chain[i + 1..] else chain + [k]
  }

  function Enter(ix: Index, k: Key): Index {
    var s := SigOf(k);
    if s in ix.masters && s in ix.chains then ix.(chains := ix.chains[s := InsertAfter(ix.chains[s], ix.masters[s], k)])
    else Index(ix.masters[s := k], ix.flags + {k}, ix.chains[s := [k]])
  }

  // The next entry of the chain, or the one before if there is none.
  function Neighbour(chain: seq<Key>, k: Key): (n: Key)
    requires k in chain && |chain| > 1
    ensures n in chain && (NoDup(chain) ==> n != k)
  {
    var i := IndexOf(chain, k);
    if i + 1 < |chain| then chain[i + 1] else chain[i - 1]
  }

  function Exit(ix: Index, k: Key): Index
    requires SigOf(k) in ix.chains && k in ix.chains[SigOf(k)]
  {
    var s := SigOf(k);
    var chain := ix.chains[s];
    if |chain| == 1 then Index(ix.masters - {s}, ix.flags - {k}, ix.chains - {s})
    else if k in ix.flags then
      var n := Neighbour(chain, k);
      Index(ix.masters[s := n], ix.flags - {k} + {n}, ix.chains[s := Remove(chain, k)])
    else ix.(chains := ix.chains[s := Remove(chain, k)])
  }

  lemma InsertAfterContents(chain: seq<Key>, master: Key, k: Key)
    requires NoDup(chain) && k !in chain
    ensures NoDup(InsertAfter(chain, master, k))
    ensures forall j :: j in InsertAfter(chain, master, k) <==> j in chain || j == k
  {
    var r := InsertAfter(chain, master, k);
    var i := IndexOf(chain, master);
    if i < |chain| {
      forall j | j in chain ensures j in r {
        var a :| 0 <= a < |chain| && chain[a] == j;
        if a <= i { assert r[a] == j; } else { assert r[a + 1] == j; }
      }
      assert r[i + 1] == k;
    }
  }

  lemma EnterExact(live: iset<Key>, ix: Index, k: Key)
    requires Exact(live, ix) && k !in live
    ensures Exact(live + iset{k}, Enter(ix, k))
  {
    var s := SigOf(k);
    var t := Enter(ix, k);
    assert !InChain(ix, s, k);
    if s in ix.chains {
      assert ChainOk(ix, s);
      InsertAfterContents(ix.chains[s], ix.masters[s], k);
    }
    forall r: Sig | r in t.chains ensures ChainOk(t, r) {
      if r != s { assert ChainOk(ix, r); }
    }
    forall r: Sig, j: Key ensures InChain(t, r, j) <==> j in live + iset{k} && SigOf(j) == r {
      assert InChain(ix, r, j) <==> j in live && SigOf(j) == r;
    }
    forall j: Key ensures j in t.flags <==> SigOf(j) in t.masters && t.masters[SigOf(j)] == j {
      assert j in ix.flags <==> SigOf(j) in ix.masters && ix.masters[SigOf(j)] == j;
    }
  }

  lemma ExitExact(live: iset<Key>, ix: Index, k: Key)
    requires Exact(live, ix) && k in live
    ensures InChain(ix, SigOf(k), k)
    ensures Exact(live - iset{k}, Exit(ix, k))
  {
    var s := SigOf(k);
    assert InChain(ix, s, k);
    assert ChainOk(ix, s);
    var chain := ix.chains[s];
    var t := Exit(ix, k);
    RemoveContents(chain, k);
    if |chain| == 1 {
      assert chain == [k];
      assert ix.masters[s] == k;
    }
    forall r: Sig | r in t.chains ensures ChainOk(t, r) {
      assert ChainOk(ix, r);
      assert k in ix.flags <==> ix.masters[s] == k;
    }
    forall r: Sig, j: Key ensures InChain(t, r, j) <==> j in live - iset{k} && SigOf(j) == r {
      assert InChain(ix, r, j) <==> j in live && SigOf(j) == r;
    }
    ExitFlags(live, ix, k);
  }

  // The mark moves with the master.
  lemma ExitFlags(live: iset<Key>, ix: Index, k: Key)
    requires Exact(live, ix) && InChain(ix, SigOf(k), k)
    ensures var t := Exit(ix, k);
      forall j: Key {:trigger j in t.flags} :: j in t.flags <==> SigOf(j) in t.masters && t.masters[SigOf(j)] == j
  {
    var s := SigOf(k);
    assert ChainOk(ix, s);
    var chain := ix.chains[s];
    var t := Exit(ix, k);
    assert |chain| == 1 ==> chain == [k];
    if |chain| > 1 {
      assert InChain(ix, s, Neighbour(chain, k));
    }
    forall j: Key ensures j in t.flags <==> SigOf(j) in t.masters && t.masters[SigOf(j)] == j {
      assert j in ix.flags <==> SigOf(j) in ix.masters && ix.masters[SigOf(j)] == j;
      assert k in ix.flags <==> ix.masters[s] == k;
    }
  }

  // A chain lists the memberships of its signature.
  lemma ChainIsMemberships(sw: Switch, ix: Index, s: Sig)
    requires Exact(Live(sw.tab), ix)
    ensures s in ix.chains ==> Memberships(sw, s, ix.chains[s])
    ensures s !in ix.chains ==> Memberships(sw, s, [])
  {
    if s in ix.chains {
      assert ChainOk(ix, s);
    }
    forall k: Key ensures InChain(ix, s, k) <==> Joined(sw, k) && SigOfGroup(k.group) == s {
      assert k in Live(sw.tab) <==> Joined(sw, k);
    }
  }
}
