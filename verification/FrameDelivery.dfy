/**
  Where a frame goes, told from the history alone: which peers there are, which groups
  they have joined, and which addresses they have sent from.
 */
module FrameDelivery {
  import opened Bytes
  import opened Lists
  import opened Frames
  import opened FrameSwitch
  import opened Recency
  import opened FrameOwners
  import L = FrameLayout

  // ----- memberships

  function GroupsIn(ms: seq<Member>): (gs: seq<Group>)
    ensures |gs| == |ms| && forall i :: 0 <= i < |ms| ==> gs[i] == ms[i].group
  {
    seq(|ms|, i requires 0 <= i < |ms| => ms[i].group)
  }

  // What an event makes of the groups a peer has joined after one of its groups.
  function GroupAfter(max: nat, s: Option<set<Group>>, e: Event, p: PeerId, g: Group): Option<set<Group>> {
    if e.Joins? && e.p == p && e.g == g then Some({})
    else if e == Expires(p, g) || e == FreePeer(p) then None
    else if s.Some? && e.Joins? && e.p == p then
      if |s.value + {e.g}| < max then Some(s.value + {e.g}) else None
    else if s.Some? && e.Expires? && e.p == p then Some(s.value - {e.g})
    else s
  }

  /**
    The groups a peer has joined since it last joined this one, and still has: none if it
    has never joined it, if the membership has run out since, if the peer has been
    removed since, or once there were as many of them as its pool has entries.
   */
  function NewerGroups(max: nat, h: seq<Event>, p: PeerId, g: Group): Option<set<Group>> {
    if h == [] then None
    else GroupAfter(max, NewerGroups(max, h[..|h| - 1], p, g), h[|h| - 1], p, g)
  }

  lemma GroupsDistinct(ms: seq<Member>)
    ensures DistinctGroups(ms) <==> NoDup(GroupsIn(ms))
  {
    var gs := GroupsIn(ms);
    if DistinctGroups(ms) {
      assert forall i, j :: 0 <= i < j < |gs| ==> gs[i] != gs[j];
    } else {
      var i, j :| 0 <= i < j < |ms| && ms[i].group == ms[j].group;
      assert gs[i] == gs[j];
    }
  }

  lemma GroupFound(ms: seq<Member>, g: Group)
    ensures Find(ms, g) == IndexOf(GroupsIn(ms), g) && (Has(ms, g) <==> g in GroupsIn(ms))
  {
    var i, k := Find(ms, g), IndexOf(GroupsIn(ms), g);
    if i < |ms| {
      assert GroupsIn(ms)[i] == g;
    }
  }

  lemma GroupsWithout(ms: seq<Member>, g: Group)
    ensures GroupsIn(Without(ms, g)) == Remove(GroupsIn(ms), g)
  {
    GroupFound(ms, g);
  }

  lemma GroupsJoin(ms: seq<Member>, g: Group, deadline: int, max: nat)
    requires max > 0
    ensures GroupsIn(JoinIn(ms, g, deadline, max)) == Renewed(GroupsIn(ms), g, max)
  {
    GroupFound(ms, g);
    GroupsWithout(ms, g);
    assert GroupsIn(Room(ms, max)) == Room(GroupsIn(ms), max);
    var rest := if Has(ms, g) then Without(ms, g) else Room(ms, max);
    assert GroupsIn(rest + [Member(g, deadline)]) == GroupsIn(rest) + [g];
  }

  function GroupFollow(sw: Switch, p: PeerId, g: Group): Option<set<Group>> {
    if p in sw.tab then Follow(GroupsIn(sw.tab[p].groups), g) else None
  }

  // What an event does to the groups of a peer.
  lemma GroupsStepped(cfg: Config, sw: Switch, e: Event, p: PeerId)
    requires cfg.Valid() && Inv(cfg, sw) && Allowed(sw, e) && p in sw.tab && p in Step(cfg, sw, e).tab
    ensures var gs := GroupsIn(sw.tab[p].groups);
      GroupsIn(Step(cfg, sw, e).tab[p].groups) ==
        if e.Joins? && e.p == p then Renewed(gs, e.g, cfg.maxGroups)
        else if e.Expires? && e.p == p then Remove(gs, e.g)
        else gs
  {
    var ms := sw.tab[p].groups;
    match e
    case Joins(q, g, now) => if q == p { GroupsJoin(ms, g, now + cfg.membership, cfg.maxGroups); }
    case Expires(q, g) => if q == p { GroupsWithout(ms, g); }
    case Asks(g, now) => assert GroupsIn(LowerIn(ms, g, now + cfg.lastMember)) == GroupsIn(ms);
    case _ =>
  }

  lemma GroupStep(cfg: Config, sw: Switch, e: Event, p: PeerId, g: Group)
    requires cfg.Valid() && Inv(cfg, sw) && Allowed(sw, e)
    ensures GroupFollow(Step(cfg, sw, e), p, g) == GroupAfter(cfg.maxGroups, GroupFollow(sw, p, g), e, p, g)
  {
    PeerThere(cfg, sw, e, p);
    if p in sw.tab && e != FreePeer(p) {
      var gs := GroupsIn(sw.tab[p].groups);
      assert PeerOk(cfg, sw.tab[p]);
      GroupsDistinct(sw.tab[p].groups);
      GroupsStepped(cfg, sw, e, p);
      if e.Joins? && e.p == p {
        JoinFollow(gs, e.g, g, cfg.maxGroups);
      } else if e.Expires? && e.p == p {
        LeaveFollow(gs, e.g, g);
      }
    }
  }

  lemma JoinFollow(gs: seq<Group>, x: Group, g: Group, max: nat)
    requires NoDup(gs) && |gs| <= max && max > 0
    ensures var f := Follow(gs, g);
      Follow(Renewed(gs, x, max), g) ==
        if x == g then Some({}) else if f.Some? && |f.value + {x}| < max then Some(f.value + {x}) else None
  {
    if x == g {
      FollowRenewed(gs, g, max);
    } else {
      FollowLearned(gs, x, g, max);
    }
  }

  lemma LeaveFollow(gs: seq<Group>, x: Group, g: Group)
    requires NoDup(gs)
    ensures var f := Follow(gs, g);
      Follow(Remove(gs, x), g) == if x == g then None else if f.Some? then Some(f.value - {x}) else None
  {
    if x == g {
      FollowGone(gs, g);
    } else {
      FollowWithout(gs, x, g);
    }
  }

  lemma PeerThere(cfg: Config, sw: Switch, e: Event, p: PeerId)
    requires cfg.Valid() && Allowed(sw, e)
    ensures p in Step(cfg, sw, e).tab <==> e == AddPeer(p) || (p in sw.tab && e != FreePeer(p))
    ensures p !in sw.tab && e == AddPeer(p) ==> Step(cfg, sw, e).tab[p] == Peer([], [])
  {
  }

  /**
    In every run a peer is a member of a group exactly if it has joined it, has not been
    removed since, the membership has not run out since, and the peer has not filled its
    pool with groups it has joined later.
   */
  lemma {:induction false} MemberExactly(cfg: Config, h: seq<Event>, p: PeerId, g: Group)
    requires cfg.Valid() && Legal(cfg, h)
    ensures GroupFollow(Final(cfg, h), p, g) == NewerGroups(cfg.maxGroups, h, p, g)
    ensures Joined(Final(cfg, h), Key(p, g)) <==> NewerGroups(cfg.maxGroups, h, p, g).Some?
  {
    if h != [] {
      var front, e := h[..|h| - 1], h[|h| - 1];
      MemberExactly(cfg, front, p, g);
      RunKeeps(cfg, front);
      GroupStep(cfg, Final(cfg, front), e, p, g);
    }
    if p in Final(cfg, h).tab {
      GroupFound(Final(cfg, h).tab[p].groups, g);
    }
  }

  // ----- peers

  // The peers there are, in the order they came.
  function Present(h: seq<Event>): seq<PeerId> {
    if h == [] then []
    else
      var e, ps := h[|h| - 1], Present(h[..|h| - 1]);
      if e.AddPeer? then ps + [e.p] else if e.FreePeer? then Remove(ps, e.p) else ps
  }

  lemma {:induction false} PresentExactly(cfg: Config, h: seq<Event>)
    requires cfg.Valid() && Legal(cfg, h)
    ensures Final(cfg, h).order == Present(h)
  {
    if h != [] {
      PresentExactly(cfg, h[..|h| - 1]);
    }
  }

  // ----- destinations

  // A group with this address' last 23 bits that the peer is a member of.
  ghost predicate MemberFor(cfg: Config, h: seq<Event>, p: PeerId, g: Group, m: Mac) {
    NewerGroups(cfg.maxGroups, h, p, g).Some? && g % 0x80_0000 == m % 0x80_0000
  }

  lemma SigIs(g: Group, m: Mac)
    ensures SigOfGroup(g) == SigOfMac(m) <==> g % 0x80_0000 == m % 0x80_0000
  {
    var q, low := m / 0x1_0000_0000, m % 0x1_0000_0000;
    assert m == 512 * q * 0x80_0000 + low;
    ModShift(low, 512 * q);
  }

  lemma {:induction false} ModShift(x: nat, q: nat)
    ensures (q * 0x80_0000 + x) % 0x80_0000 == x % 0x80_0000
  {
    if q > 0 {
      ModShift(x, q - 1);
      assert q * 0x80_0000 + x == ((q - 1) * 0x80_0000 + x) + 0x80_0000;
    }
  }

  /**
    Frames that go to everybody: IGMP, broadcasts, and frames to an address that no peer
    owns by the history and that is no multicast one. Everybody means each peer once.
   */
  lemma ToEverybody(cfg: Config, h: seq<Event>, f: seq<Byte>, to: seq<PeerId>)
    requires cfg.Valid() && Legal(cfg, h) && |f| >= 14 && Destined(Final(cfg, h), f, to)
    requires Igmp(f).Some? || Dest(f) == 0xffff_ffff_ffff
      || (Dest(f) / 0x100_0000 != 0x01005e && forall p: PeerId :: Newer(cfg.maxMacs, h, p, Dest(f)) == None)
    ensures to == Present(h)
  {
    PresentExactly(cfg, h);
    if !(Igmp(f).Some? || Dest(f) == 0xffff_ffff_ffff) {
      forall p: PeerId ensures !Owns(Final(cfg, h), p, Dest(f)) {
        OwnsExactly(cfg, h, p, Dest(f));
      }
    }
  }

  /** Frames to an address that a peer owns by the history go to that peer alone. */
  lemma ToOwner(cfg: Config, h: seq<Event>, f: seq<Byte>, to: seq<PeerId>, p: PeerId)
    requires cfg.Valid() && Legal(cfg, h) && |f| >= 14 && Destined(Final(cfg, h), f, to)
    requires Igmp(f).None? && Dest(f) != 0xffff_ffff_ffff && Dest(f) / 0x100_0000 != 0x01005e
    requires Newer(cfg.maxMacs, h, p, Dest(f)).Some?
    ensures to == [p]
  {
    OwnsExactly(cfg, h, p, Dest(f));
    OwnerSentLast(cfg, h, p, Dest(f));
    var q: PeerId :| Owns(Final(cfg, h), q, Dest(f)) && to == [q];
    OwnerSentLast(cfg, h, q, Dest(f));
  }

  /**
    Frames to a multicast address go to precisely the peers that are members, by the
    history, of a group with the address' last 23 bits, once for each such group.
   */
  lemma ToMembers(cfg: Config, h: seq<Event>, f: seq<Byte>, to: seq<PeerId>)
    returns (groups: seq<Group>)
    requires cfg.Valid() && Legal(cfg, h) && |f| >= 14 && Destined(Final(cfg, h), f, to)
    requires Igmp(f).None? && Dest(f) / 0x100_0000 == 0x01005e
    ensures |groups| == |to| && (forall i, j :: 0 <= i < j < |to| ==> to[i] != to[j] || groups[i] != groups[j])
    ensures forall p: PeerId, g: Group ::
      MemberFor(cfg, h, p, g, Dest(f)) <==> exists i :: 0 <= i < |to| && to[i] == p && groups[i] == g
  {
    var keys := KeysOf(Final(cfg, h), f, to);
    groups := seq(|keys|, i requires 0 <= i < |keys| => keys[i].group);
    KeysApart(keys, to, groups);
    forall p: PeerId, g: Group
      ensures MemberFor(cfg, h, p, g, Dest(f)) <==> exists i :: 0 <= i < |to| && to[i] == p && groups[i] == g
    {
      MemberKey(cfg, h, p, g, Dest(f), keys);
      Listed(keys, p, g, to, groups);
    }
  }

  // The memberships a multicast frame is sent to.
  lemma KeysOf(sw: Switch, f: seq<Byte>, to: seq<PeerId>) returns (keys: seq<Key>)
    requires |f| >= 14 && Destined(sw, f, to) && Igmp(f).None? && Dest(f) / 0x100_0000 == 0x01005e
    ensures Memberships(sw, SigOfMac(Dest(f)), keys) && to == PeersOf(keys)
  {
    keys :| Memberships(sw, SigOfMac(Dest(f)), keys) && to == PeersOf(keys);
  }

  lemma MemberKey(cfg: Config, h: seq<Event>, p: PeerId, g: Group, m: Mac, keys: seq<Key>)
    requires cfg.Valid() && Legal(cfg, h) && Memberships(Final(cfg, h), SigOfMac(m), keys)
    ensures MemberFor(cfg, h, p, g, m) <==> Key(p, g) in keys
  {
    MemberExactly(cfg, h, p, g);
    SigIs(g, m);
  }

  lemma KeysApart(keys: seq<Key>, to: seq<PeerId>, groups: seq<Group>)
    requires NoDup(keys) && |keys| == |to| == |groups|
    requires forall i :: 0 <= i < |keys| ==> to[i] == keys[i].peer && groups[i] == keys[i].group
    ensures forall i, j :: 0 <= i < j < |to| ==> to[i] != to[j] || groups[i] != groups[j]
  {
    forall i, j | 0 <= i < j < |to| ensures to[i] != to[j] || groups[i] != groups[j] {
      assert keys[i] != keys[j];
    }
  }

  lemma Listed(keys: seq<Key>, p: PeerId, g: Group, to: seq<PeerId>, groups: seq<Group>)
    requires |keys| == |to| == |groups| && forall i :: 0 <= i < |keys| ==> to[i] == keys[i].peer && groups[i] == keys[i].group
    ensures Key(p, g) in keys <==> exists i :: 0 <= i < |to| && to[i] == p && groups[i] == g
  {
    if Key(p, g) in keys {
      var i :| 0 <= i < |keys| && keys[i] == Key(p, g);
      assert to[i] == p && groups[i] == g;
    }
    if exists i :: 0 <= i < |to| && to[i] == p && groups[i] == g {
      var i :| 0 <= i < |to| && to[i] == p && groups[i] == g;
      assert keys[i] == Key(p, g);
    }
  }

  // ----- what a frame from a peer changes

  lemma Extend(cfg: Config, h: seq<Event>, e: Event)
    requires cfg.Valid() && Legal(cfg, h) && Allowed(Final(cfg, h), e)
    ensures Legal(cfg, h + [e]) && Final(cfg, h + [e]) == Step(cfg, Final(cfg, h), e)
  {
    assert (h + [e])[..|h + [e]| - 1] == h;
  }

  // The frame's events happen one after the other.
  lemma {:induction false} HeardLegally(cfg: Config, h: seq<Event>, p: PeerId, es: seq<Event>)
    requires cfg.Valid() && Legal(cfg, h) && p in Final(cfg, h).tab
    requires forall i :: 0 <= i < |es| ==> (es[i].Sees? || es[i].Joins?) && es[i].p == p
    ensures Legal(cfg, h + es) && p in Final(cfg, h + es).tab && Final(cfg, h + es) == Apply(cfg, Final(cfg, h), es)
  {
    if es == [] {
      assert h + es == h;
    } else {
      HeardLegally(cfg, h, p, es[..|es| - 1]);
      HeardNext(cfg, h, p, es, Apply(cfg, Final(cfg, h), es[..|es| - 1]));
    }
  }

  lemma HeardNext(cfg: Config, h: seq<Event>, p: PeerId, es: seq<Event>, sw: Switch)
    requires cfg.Valid() && Legal(cfg, h) && es != [] && sw == Apply(cfg, Final(cfg, h), es[..|es| - 1])
    requires Legal(cfg, h + es[..|es| - 1]) && Final(cfg, h + es[..|es| - 1]) == sw && p in sw.tab
    requires var e := es[|es| - 1]; (e.Sees? || e.Joins?) && e.p == p
    ensures Legal(cfg, h + es) && Final(cfg, h + es) == Apply(cfg, Final(cfg, h), es) && p in Final(cfg, h + es).tab
  {
    var front, e := es[..|es| - 1], es[|es| - 1];
    assert h + es == h + front + [e];
    Extend(cfg, h + front, e);
    PeerThere(cfg, sw, e, p);
    ApplyNext(cfg, Final(cfg, h), es, sw);
  }

  lemma ApplyNext(cfg: Config, start: Switch, es: seq<Event>, sw: Switch)
    requires cfg.Valid() && es != [] && sw == Apply(cfg, start, es[..|es| - 1]) && Allowed(sw, es[|es| - 1])
    ensures Apply(cfg, start, es) == Step(cfg, sw, es[|es| - 1])
  {
  }

  lemma {:induction false} JoinsKeepOwner(max: nat, h: seq<Event>, es: seq<Event>, p: PeerId, m: Mac)
    requires forall i :: 0 <= i < |es| ==> es[i].Joins?
    ensures Newer(max, h + es, p, m) == Newer(max, h, p, m)
  {
    if es == [] {
      assert h + es == h;
    } else {
      JoinsKeepOwner(max, h, es[..|es| - 1], p, m);
      assert (h + es)[..|h + es| - 1] == h + es[..|es| - 1];
    }
  }

  /**
    A frame from a peer, whatever it carries: it is followed by a history in which the
    peer owns the source address, so that frames to that address go to it alone.
   */
  lemma HeardOwns(cfg: Config, h: seq<Event>, p: PeerId, f: seq<Byte>, now: int, dest: Mac, source: Mac, rest: seq<Byte>)
    requires cfg.Valid() && Legal(cfg, h) && p in Final(cfg, h).tab
    requires f == L.Be48(dest) + L.Be48(source) + rest && |rest| >= 2
    ensures Legal(cfg, h + Heard(p, f, now)) && Final(cfg, h + Heard(p, f, now)) == Apply(cfg, Final(cfg, h), Heard(p, f, now))
    ensures Newer(cfg.maxMacs, h + Heard(p, f, now), p, source) == Some({})
  {
    L.AddressesAre(f, dest, source, rest);
    var es := Heard(p, f, now);
    assert es == [Sees(p, source)] + JoinEvents(p, JoinedGroups(f), now);
    HeardLegally(cfg, h, p, es);
    SeenOwns(cfg.maxMacs, h, p, source, JoinEvents(p, JoinedGroups(f), now), es);
  }

  lemma SeenOwns(max: nat, h: seq<Event>, p: PeerId, m: Mac, joins: seq<Event>, es: seq<Event>)
    requires es == [Sees(p, m)] + joins && forall i :: 0 <= i < |joins| ==> joins[i].Joins?
    ensures Newer(max, h + es, p, m) == Some({})
  {
    var seen := h + [Sees(p, m)];
    assert seen[|seen| - 1] == Sees(p, m);
    JoinsKeepOwner(max, seen, joins, p, m);
    assert h + es == seen + joins;
  }

  /** A version 2 report makes the peer a member of the group it names. */
  lemma HeardJoins(cfg: Config, h: seq<Event>, p: PeerId, f: seq<Byte>, now: int, x: (Byte, Byte, Byte), g: Group, rest: seq<Byte>)
    requires cfg.Valid() && Legal(cfg, h) && p in Final(cfg, h).tab && L.CarriesIgmp(f, L.ReportV2(x, g) + rest)
    ensures Legal(cfg, h + Heard(p, f, now)) && Final(cfg, h + Heard(p, f, now)) == Apply(cfg, Final(cfg, h), Heard(p, f, now))
    ensures NewerGroups(cfg.maxGroups, h + Heard(p, f, now), p, g) == Some({})
  {
    L.ReportV2Joins(f, x, g, rest);
    L.IgmpExactly(f, L.ReportV2(x, g) + rest);
    var es := Heard(p, f, now);
    HeardList(p, f, now);
    HeardLegally(cfg, h, p, es);
    assert (h + es)[|h + es| - 1] == es[1 + 0] == Joins(p, g, now);
  }

  /** A version 3 report makes the peer a member of the last group it joins, and of the others in turn. */
  lemma HeardJoinsInTurn(cfg: Config, h: seq<Event>, p: PeerId, f: seq<Byte>, now: int,
                         x: (Byte, Byte, Byte), y: (Byte, Byte), n: U16, rs: seq<L.Record>, tail: seq<Byte>)
    requires cfg.Valid() && Legal(cfg, h) && p in Final(cfg, h).tab
    requires (forall i :: 0 <= i < |rs| ==> L.WellFormed(256, rs[i])) && |rs| <= n && (|rs| == n || L.CutShort(256, tail))
    requires L.CarriesIgmp(f, L.ReportV3(x, y, n, rs) + tail)
    ensures var gs := L.JoinedBy(rs); var es := Heard(p, f, now);
      && |es| == 1 + |gs| && (forall i :: 0 <= i < |gs| ==> es[1 + i] == Joins(p, gs[i], now))
      && Legal(cfg, h + es) && Final(cfg, h + es) == Apply(cfg, Final(cfg, h), es)
  {
    L.ReportV3Joins(f, x, y, n, rs, tail);
    L.IgmpExactly(f, L.ReportV3(x, y, n, rs) + tail);
    HeardList(p, f, now);
    HeardLegally(cfg, h, p, Heard(p, f, now));
  }

  lemma HeardList(p: PeerId, f: seq<Byte>, now: int)
    requires Igmp(f).Some?
    ensures var gs := JoinedGroups(f); var es := Heard(p, f, now);
      && |es| == 1 + |gs| && es[0] == Sees(p, Source(f)) && (forall i :: 0 <= i < |gs| ==> es[1 + i] == Joins(p, gs[i], now))
      && forall i :: 0 <= i < |es| ==> (es[i].Sees? || es[i].Joins?) && es[i].p == p
  {
  }
}
