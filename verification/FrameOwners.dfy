/** Who owns an Ethernet address, told from the history of the address alone. */
module FrameOwners {
  import opened Bytes
  import opened Lists
  import opened Frames
  import opened FrameSwitch
  import opened Recency

  // What an event makes of them.
  function After(max: nat, s: Option<set<Mac>>, e: Event, p: PeerId, m: Mac): Option<set<Mac>> {
    if e == Sees(p, m) then Some({})
    else if (e.Sees? && e.m == m) || e == FreePeer(p) then None
    else if e.Sees? && s.Some? then
      if e.p != p then Some(s.value - {e.m})
      else if |s.value + {e.m}| < max then Some(s.value + {e.m}) else None
    else s
  }

  /**
    What a peer has sent from since it last sent from an address, and still owns: none
    if it has never sent from that address, if another peer has since, if it has been
    removed since, or once there were as many of them as its pool has entries.
   */
  function Newer(max: nat, h: seq<Event>, p: PeerId, m: Mac): Option<set<Mac>> {
    if h == [] then None
    else After(max, Newer(max, h[..|h| - 1], p, m), h[|h| - 1], p, m)
  }

  function FollowIn(sw: Switch, p: PeerId, m: Mac): Option<set<Mac>> {
    if p in sw.tab then Follow(sw.tab[p].macs, m) else None
  }

  lemma SeenFollow(cfg: Config, sw: Switch, q: PeerId, n: Mac, p: PeerId, m: Mac)
    requires cfg.Valid() && Inv(cfg, sw) && q in sw.tab && p in sw.tab
    ensures var t := Learn(cfg, sw, q, n); var f := Follow(sw.tab[p].macs, m);
      FollowIn(t, p, m) ==
        if n == m then (if q == p then Some({}) else None)
        else if q != p then (if f.Some? then Some(f.value - {n}) else None)
        else if f.Some? && |f.value + {n}| < cfg.maxMacs then Some(f.value + {n}) else None
  {
    var macs := sw.tab[p].macs;
    assert PeerOk(cfg, sw.tab[p]);
    RemoveContents(macs, n);
    if n == m {
      if q == p {
        FollowLast(if m in macs then Remove(macs, m) else Room(macs, cfg.maxMacs), m);
      }
    } else if q != p {
      FollowWithout(macs, n, m);
    } else {
      FollowLearned(macs, n, m, cfg.maxMacs);
    }
  }

  /**
    In every run a peer owns an address exactly if the last frame from it came from
    that peer, which has not been removed since nor filled its pool with addresses it
    has used later.
   */
  lemma {:induction false} OwnsExactly(cfg: Config, h: seq<Event>, p: PeerId, m: Mac)
    requires cfg.Valid() && Legal(cfg, h)
    ensures FollowIn(Final(cfg, h), p, m) == Newer(cfg.maxMacs, h, p, m)
    ensures Owns(Final(cfg, h), p, m) <==> Newer(cfg.maxMacs, h, p, m).Some?
  {
    if h != [] {
      var front, e := h[..|h| - 1], h[|h| - 1];
      var sw := Final(cfg, front);
      OwnsExactly(cfg, front, p, m);
      RunKeeps(cfg, front);
      FollowStep(cfg, sw, e, p, m);
    }
  }

  lemma FollowStep(cfg: Config, sw: Switch, e: Event, p: PeerId, m: Mac)
    requires cfg.Valid() && Inv(cfg, sw) && Allowed(sw, e)
    ensures FollowIn(Step(cfg, sw, e), p, m) == After(cfg.maxMacs, FollowIn(sw, p, m), e, p, m)
  {
    if e.Sees? {
      if p in sw.tab {
        SeenFollow(cfg, sw, e.p, e.m, p, m);
      }
    } else {
      OtherwiseKept(cfg, sw, e, p);
    }
  }

  // Other events leave the addresses alone.
  lemma OtherwiseKept(cfg: Config, sw: Switch, e: Event, p: PeerId)
    requires cfg.Valid() && Allowed(sw, e) && !e.Sees?
    ensures var t := Step(cfg, sw, e);
      && (p in t.tab <==> (p in sw.tab && e != FreePeer(p)) || e == AddPeer(p))
      && (p in t.tab ==> t.tab[p].macs == if p in sw.tab then sw.tab[p].macs else [])
  {
  }
}
