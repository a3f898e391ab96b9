/**
  From the cutter to the assembler: the chunks of a frame, in any order and
  interleaved with any other traffic, give back exactly that frame.
 */
module FragmentRoundTrip {
  import opened Bytes
  import opened Lists
  import opened FragmentPieces
  import A = FragmentAssembly
  import D = FragmentDisassembly
  import W = FragmentWire

  // ----- a tiling, piece by piece

  predicate InFrame(p: Piece, f: seq<Byte>) {
    && p.End() <= |f|
    && p.data == f[p.start..p.End()]
    && (p.data != [] || |f| == 0)
    && (p.last <==> p.End() == |f|)
  }

  lemma {:induction false} TilingPieces(ps: seq<Piece>, f: seq<Byte>, n: nat)
    requires D.Tiling(ps, f, n)
    ensures forall i :: 0 <= i < |ps| ==> InFrame(ps[i], f) && ps[i].End() <= n
    ensures forall i, j :: 0 <= i < j < |ps| ==> ps[i].End() <= ps[j].start
    ensures |f| == 0 ==> |ps| <= 1
  {
    if ps != [] {
      TilingPieces(ps[..|ps| - 1], f, ps[|ps| - 1].start);
    }
  }

  lemma {:induction false} TilingCovers(ps: seq<Piece>, f: seq<Byte>, n: nat, k: nat)
    requires D.Tiling(ps, f, n) && k < n
    ensures Covered(ps, k)
  {
    var q, front := ps[|ps| - 1], ps[..|ps| - 1];
    if k < q.start {
      TilingCovers(front, f, q.start, k);
      var i :| 0 <= i < |front| && front[i].Has(k);
      assert ps[i].Has(k);
    } else {
      assert ps[|ps| - 1].Has(k);
    }
  }

  lemma TilingNoDup(ps: seq<Piece>, f: seq<Byte>)
    requires D.Whole(ps, f)
    ensures NoDup(ps) && Disjoint(ps)
    ensures forall p :: p in ps ==> InFrame(p, f)
    ensures forall i, j :: 0 <= i < j < |ps| ==> !(ps[i].last && ps[j].last)
    ensures ps[|ps| - 1].last
  {
    TilingPieces(ps, f, |f|);
  }

  // ----- the same pieces in another order

  // Everything the assembler needs to know of a rearrangement of a whole tiling.
  ghost predicate Jigsaw(q: seq<Piece>, f: seq<Byte>) {
    && Disjoint(q)
    && (forall p :: p in q ==> InFrame(p, f))
    && (forall i, j :: 0 <= i < j < |q| ==> !(q[i].last && q[j].last))
    && (forall k :: 0 <= k < |f| ==> Covered(q, k))
    && (exists i :: 0 <= i < |q| && q[i].last)
    && (|f| == 0 ==> |q| == 1)
  }

  lemma Apart(ps: seq<Piece>, f: seq<Byte>, p: Piece, q: Piece)
    requires D.Whole(ps, f) && p in ps && q in ps && p != q
    ensures !Overlap(p, q) && !(p.last && q.last)
  {
    TilingNoDup(ps, f);
    var i :| 0 <= i < |ps| && ps[i] == p;
    var j :| 0 <= j < |ps| && ps[j] == q;
    if i < j {
      assert !Overlap(ps[i], ps[j]);
    } else {
      assert !Overlap(ps[j], ps[i]);
    }
  }

  lemma ShuffledTiling(ps: seq<Piece>, q: seq<Piece>, f: seq<Byte>)
    requires D.Whole(ps, f) && multiset(q) == multiset(ps)
    ensures Jigsaw(q, f) && |q| == |ps|
  {
    TilingNoDup(ps, f);
    TilingPieces(ps, f, |f|);
    PermutationNoDup(ps, q);
    forall i, j | 0 <= i < j < |q| ensures !Overlap(q[i], q[j]) && !(q[i].last && q[j].last) {
      assert q[i] in q && q[j] in q;
      Apart(ps, f, q[i], q[j]);
    }
    forall k | 0 <= k < |f| ensures Covered(q, k) {
      TilingCovers(ps, f, |f|, k);
      var i :| 0 <= i < |ps| && ps[i].Has(k);
      assert ps[i] in q;
      var j :| 0 <= j < |q| && q[j] == ps[i];
      assert q[j].Has(k);
    }
    assert ps[|ps| - 1] in q;
  }

  lemma {:induction false} SumStrict(q: seq<Piece>, k: nat)
    requires k <= |q| && forall p :: p in q ==> p.data != []
    ensures k < |q| ==> Sum(q[..k]) < Sum(q)
    ensures Sum(q[..k]) <= Sum(q)
  {
    assert q[..|q|] == q;
    if k < |q| {
      var front := q[..|q| - 1];
      assert front[..k] == q[..k];
      SumStrict(front, k);
      assert q[|q| - 1] in q;
    }
  }

  lemma PartConsistent(q: seq<Piece>, f: seq<Byte>, k: nat)
    requires Jigsaw(q, f) && k <= |q|
    ensures Consistent(q[..k])
    ensures forall i :: 0 <= i < k ==> q[i].End() <= |f| && (q[i].last <==> q[i].End() == |f|)
  {
    forall i | 0 <= i < k ensures InFrame(q[i], f) {
      assert q[i] in q;
    }
  }

  lemma PartLength(q: seq<Piece>, f: seq<Byte>, k: nat)
    requires Jigsaw(q, f) && k <= |q| && Length(q[..k]) >= 0
    ensures Length(q[..k]) == |f|
  {
    PartConsistent(q, f, k);
    var i :| 0 <= i < k && q[..k][i].last;
    LengthOfLast(q[..k], i);
  }

  // Any proper part of the pieces lets the next one in, and is not yet the frame.
  lemma PartFits(q: seq<Piece>, f: seq<Byte>, k: nat)
    requires Jigsaw(q, f) && k < |q|
    ensures Fits(q[..k], q[k])
  {
    PartConsistent(q, f, k + 1);
    PartConsistent(q, f, k);
    if Length(q[..k]) >= 0 {
      PartLength(q, f, k);
      var i :| 0 <= i < k && q[..k][i].last;
      assert !(q[i].last && q[k].last);
    }
  }

  lemma PartIncomplete(q: seq<Piece>, f: seq<Byte>, k: nat)
    requires Jigsaw(q, f) && k < |q|
    ensures !Complete(q[..k])
  {
    if Length(q[..k]) >= 0 && k > 0 {
      PartLength(q, f, k);
      PartConsistent(q, f, |q|);
      NoGap(q, |f|);
      forall p | p in q ensures p.data != [] {
        assert InFrame(p, f);
      }
      SumStrict(q, k);
    }
  }

  lemma WholeComplete(q: seq<Piece>, f: seq<Byte>)
    requires Jigsaw(q, f)
    ensures Complete(q) && Length(q) == |f|
  {
    assert q[..|q|] == q;
    PartConsistent(q, f, |q|);
    PartLength(q, f, |q|);
    NoGap(q, |f|);
  }

  lemma WholeJoins(q: seq<Piece>, f: seq<Byte>)
    requires Jigsaw(q, f)
    ensures Complete(q) && Join(q) == f
  {
    WholeComplete(q, f);
    forall k | 0 <= k < |f| ensures ByteAt(q, k) == f[k] {
      assert Covered(q, k);
      var j :| 0 <= j < |q| && q[j].Has(k);
      ByteAtPiece(q, j, k);
      assert q[j] in q && InFrame(q[j], f);
    }
  }

  // ----- runs of the assembler

  // The chunks of one frame among the events.
  function Mine(es: seq<A.Event>, x: U16): seq<Piece> {
    if es == [] then []
    else if es[0].Arrive? && es[0].id == x then [es[0].piece] + Mine(es[1..], x)
    else Mine(es[1..], x)
  }

  // The frames delivered under one id.
  function Output(cfg: A.Config, s: A.State, es: seq<A.Event>, x: U16): seq<seq<Byte>>
    requires cfg.Ok() && |s.live| <= cfg.numFrames
    decreases |es|
  {
    if es == [] then []
    else
      var r := A.Step(cfg, s, es[0]);
      (if es[0].Arrive? && es[0].id == x && r.1.Some? then [r.1.value] else []) + Output(cfg, r.0, es[1..], x)
  }

  // What the assembler holds of a frame.
  function Held(s: A.State, x: U16): Option<seq<Piece>> {
    var i := A.Find(s.live, x);
    if i < |s.live| then Some(s.live[i].pieces) else None
  }

  // The frame is neither evicted nor timed out while its chunks arrive.
  predicate Undisturbed(cfg: A.Config, s: A.State, x: U16, es: seq<A.Event>)
    requires cfg.Ok() && |s.live| <= cfg.numFrames
    decreases |es|
  {
    es == [] ||
    var e := es[0];
    var s' := A.Step(cfg, s, e).0;
    && (A.IsLive(s, x) ==>
          if e.Arrive? && e.id == x then !A.TimedOut(cfg, s.time, s.live[A.Find(s.live, x)])
          else A.IsLive(s', x))
    && Undisturbed(cfg, s', x, es[1..])
  }

  lemma HeldUnique(s: A.State, t: A.Slot)
    requires A.DistinctIds(s.live) && t in s.live
    ensures Held(s, t.id) == Some(t.pieces)
  {
    var i :| 0 <= i < |s.live| && s.live[i] == t;
    var k := A.Find(s.live, t.id);
  }

  // Traffic of other frames does not touch this one.
  lemma OtherStep(cfg: A.Config, s: A.State, e: A.Event, x: U16)
    requires cfg.Ok() && A.Inv(cfg, s) && !(e.Arrive? && e.id == x)
    requires A.IsLive(s, x) ==> A.IsLive(A.Step(cfg, s, e).0, x)
    ensures A.Inv(cfg, A.Step(cfg, s, e).0)
    ensures Held(A.Step(cfg, s, e).0, x) == Held(s, x)
  {
    var s' := A.Step(cfg, s, e).0;
    if e.Arrive? {
      A.ProcessKeeps(cfg, s, e.id, e.piece);
      if A.InBounds(cfg, e.piece) {
        A.ProcessSlots(cfg, s, e.id, e.piece);
        if A.IsLive(s', x) {
          var t := s'.live[A.Find(s'.live, x)];
          assert t in s'.live;
          HeldUnique(s, t);
        }
      }
    } else {
      A.AdvanceKeeps(cfg, s);
      if A.IsLive(s', x) {
        var t := s'.live[A.Find(s'.live, x)];
        assert t in s'.live;
        var u :| u in s.live && u.id == t.id && u.pieces == t.pieces;
        HeldUnique(s, u);
      }
    }
  }

  // A chunk of the frame is judged against exactly what is held of it.
  lemma OwnStep(cfg: A.Config, s: A.State, x: U16, p: Piece, base: seq<Piece>)
    requires cfg.Ok() && A.Inv(cfg, s) && A.InBounds(cfg, p)
    requires A.IsLive(s, x) ==> !A.TimedOut(cfg, s.time, s.live[A.Find(s.live, x)])
    requires base == if Held(s, x).Some? then Held(s, x).value else []
    ensures var r := A.Process(cfg, s, x, p);
      && A.Inv(cfg, r.0)
      && (match A.Judge(cfg, base, p)
          case Drop => Held(r.0, x) == None && r.1 == None
          case Wait => Held(r.0, x) == Some(base + [p]) && r.1 == None
          case Deliver(f) => Held(r.0, x) == None && r.1 == Some(f))
  {
    A.ProcessKeeps(cfg, s, x, p);
    A.FetchSlots(cfg, s, x);
    var (live, i) := A.Fetch(cfg, s, x);
    assert live[i].pieces == base;
    A.RemoveSlot(live, i);
    var r := A.Process(cfg, s, x, p).0;
    if A.Judge(cfg, base, p).Wait? {
      assert r.live[i] in r.live;
      HeldUnique(r, r.live[i]);
    }
  }

  // The next piece of the frame is the last one missing, or it has to wait.
  lemma PieceVerdict(cfg: A.Config, q: seq<Piece>, k: nat, f: seq<Byte>)
    requires Jigsaw(q, f) && k < |q| <= cfg.numChunks && |f| <= cfg.mtu
    ensures A.InBounds(cfg, q[k]) && q[..k] + [q[k]] == q[..k + 1]
    ensures A.Judge(cfg, q[..k], q[k]) == if k + 1 == |q| then A.Deliver(f) else A.Wait
  {
    assert q[k] in q && InFrame(q[k], f);
    PartFits(q, f, k);
    assert q[..k] + [q[k]] == q[..k + 1];
    if k + 1 == |q| {
      assert q[..k + 1] == q;
      WholeJoins(q, f);
    } else {
      PartIncomplete(q, f, k + 1);
    }
  }

  lemma OwnPiece(cfg: A.Config, s: A.State, x: U16, q: seq<Piece>, k: nat, f: seq<Byte>)
    requires cfg.Ok() && A.Inv(cfg, s)
    requires A.IsLive(s, x) ==> !A.TimedOut(cfg, s.time, s.live[A.Find(s.live, x)])
    requires Jigsaw(q, f) && k < |q| <= cfg.numChunks && |f| <= cfg.mtu
    requires Held(s, x) == if k == 0 then None else Some(q[..k])
    ensures var r := A.Process(cfg, s, x, q[k]);
      && A.Inv(cfg, r.0)
      && Held(r.0, x) == (if k + 1 == |q| then None else Some(q[..k + 1]))
      && r.1 == (if k + 1 == |q| then Some(f) else None)
  {
    PieceVerdict(cfg, q, k, f);
    OwnStep(cfg, s, x, q[k], q[..k]);
  }

  // One event and the rest.
  lemma Unfold(cfg: A.Config, s: A.State, x: U16, es: seq<A.Event>, r: (A.State, Option<seq<Byte>>))
    requires cfg.Ok() && A.Inv(cfg, s) && es != [] && Undisturbed(cfg, s, x, es) && r == A.Step(cfg, s, es[0])
    ensures |r.0.live| <= cfg.numFrames && Undisturbed(cfg, r.0, x, es[1..])
    ensures var own := es[0].Arrive? && es[0].id == x;
      && Output(cfg, s, es, x) == (if own && r.1.Some? then [r.1.value] else []) + Output(cfg, r.0, es[1..], x)
      && Mine(es, x) == (if own then [es[0].piece] else []) + Mine(es[1..], x)
      && (A.IsLive(s, x) ==> if own then !A.TimedOut(cfg, s.time, s.live[A.Find(s.live, x)]) else A.IsLive(r.0, x))
  {
  }

  // The frame's pieces from k on are still to come.
  ghost predicate Underway(cfg: A.Config, s: A.State, x: U16, q: seq<Piece>, k: nat) {
    && cfg.Ok() && A.Inv(cfg, s) && k <= |q|
    && Held(s, x) == if k == 0 || k == |q| then None else Some(q[..k])
  }

  lemma OwnTurn(cfg: A.Config, s: A.State, x: U16, p: Piece, q: seq<Piece>, k: nat, f: seq<Byte>, rest: seq<Piece>, r: (A.State, Option<seq<Byte>>))
    requires Underway(cfg, s, x, q, k) && Jigsaw(q, f) && |q| <= cfg.numChunks && |f| <= cfg.mtu
    requires A.IsLive(s, x) ==> !A.TimedOut(cfg, s.time, s.live[A.Find(s.live, x)])
    requires [p] + rest == q[k..]
    ensures k < |q| && rest == q[k + 1..]
    requires r == A.Process(cfg, s, x, p)
    ensures Underway(cfg, r.0, x, q, k + 1) && r.1 == if k + 1 == |q| then Some(f) else None
  {
    assert |q[k..]| == |q| - k;
    assert p == q[k..][0] == q[k];
    assert rest == q[k..][1..];
    OwnPiece(cfg, s, x, q, k, f);
  }

  /**
    The pieces of a frame, arriving in any order among any other events, deliver
    the frame exactly once, when its last missing piece arrives.
   */
  lemma {:induction false} Rebuild(cfg: A.Config, s: A.State, x: U16, es: seq<A.Event>, q: seq<Piece>, k: nat, f: seq<Byte>)
    requires Underway(cfg, s, x, q, k) && Undisturbed(cfg, s, x, es)
    requires Jigsaw(q, f) && |q| <= cfg.numChunks && |f| <= cfg.mtu && Mine(es, x) == q[k..]
    ensures Output(cfg, s, es, x) == if k < |q| then [f] else []
    decreases |es|, 1
  {
    if es == [] {
      assert |q[k..]| == |q| - k;
    } else if es[0].Arrive? && es[0].id == x {
      RebuildOwn(cfg, s, x, es, q, k, f);
    } else {
      RebuildOther(cfg, s, x, es, q, k, f);
    }
  }

  lemma {:induction false} RebuildOwn(cfg: A.Config, s: A.State, x: U16, es: seq<A.Event>, q: seq<Piece>, k: nat, f: seq<Byte>)
    requires Underway(cfg, s, x, q, k) && Undisturbed(cfg, s, x, es)
    requires Jigsaw(q, f) && |q| <= cfg.numChunks && |f| <= cfg.mtu && Mine(es, x) == q[k..]
    requires es != [] && es[0].Arrive? && es[0].id == x
    ensures Output(cfg, s, es, x) == if k < |q| then [f] else []
    decreases |es|, 0
  {
    var r := A.Step(cfg, s, es[0]);
    Unfold(cfg, s, x, es, r);
    OwnTurn(cfg, s, x, es[0].piece, q, k, f, Mine(es[1..], x), r);
    RebuildRest(cfg, r.0, x, es[1..], q, k, k + 1, f, if k + 1 == |q| then [f] else [], Output(cfg, s, es, x));
  }

  lemma {:induction false} RebuildOther(cfg: A.Config, s: A.State, x: U16, es: seq<A.Event>, q: seq<Piece>, k: nat, f: seq<Byte>)
    requires Underway(cfg, s, x, q, k) && Undisturbed(cfg, s, x, es)
    requires Jigsaw(q, f) && |q| <= cfg.numChunks && |f| <= cfg.mtu && Mine(es, x) == q[k..]
    requires es != [] && !(es[0].Arrive? && es[0].id == x)
    ensures Output(cfg, s, es, x) == if k < |q| then [f] else []
    decreases |es|, 0
  {
    var r := A.Step(cfg, s, es[0]);
    Unfold(cfg, s, x, es, r);
    OtherTurn(cfg, s, x, es[0], q, k, r.0);
    assert [] + Mine(es[1..], x) == Mine(es[1..], x);
    RebuildRest(cfg, r.0, x, es[1..], q, k, k, f, [], Output(cfg, s, es, x));
  }

  // After an event that took the frame from k to k' pieces.
  lemma {:induction false} RebuildRest(cfg: A.Config, s: A.State, x: U16, es: seq<A.Event>, q: seq<Piece>, k: nat, k': nat, f: seq<Byte>,
                                       head: seq<seq<Byte>>, out: seq<seq<Byte>>)
    requires Underway(cfg, s, x, q, k') && Undisturbed(cfg, s, x, es)
    requires Jigsaw(q, f) && |q| <= cfg.numChunks && |f| <= cfg.mtu && Mine(es, x) == q[k'..]
    requires k <= k' && head == (if k < |q| && k' == |q| then [f] else []) && out == head + Output(cfg, s, es, x)
    ensures out == if k < |q| then [f] else []
    decreases |es|, 2
  {
    Rebuild(cfg, s, x, es, q, k', f);
  }

  lemma OtherTurn(cfg: A.Config, s: A.State, x: U16, e: A.Event, q: seq<Piece>, k: nat, s': A.State)
    requires Underway(cfg, s, x, q, k) && !(e.Arrive? && e.id == x) && s' == A.Step(cfg, s, e).0
    requires A.IsLive(s, x) ==> A.IsLive(s', x)
    ensures Underway(cfg, s', x, q, k)
  {
    OtherStep(cfg, s, e, x);
  }

  lemma RoundTrip(cfg: A.Config, s: A.State, x: U16, es: seq<A.Event>, ps: seq<Piece>, f: seq<Byte>)
    requires cfg.Ok() && A.Inv(cfg, s) && !A.IsLive(s, x) && Undisturbed(cfg, s, x, es)
    requires D.Whole(ps, f) && |ps| <= cfg.numChunks && |f| <= cfg.mtu
    requires multiset(Mine(es, x)) == multiset(ps)
    ensures Output(cfg, s, es, x) == [f]
  {
    var q := Mine(es, x);
    ShuffledTiling(ps, q, f);
    assert q[0..] == q;
    Rebuild(cfg, s, x, es, q, 0, f);
  }

  // ----- when nothing is evicted or timed out

  function Ticks(es: seq<A.Event>): nat {
    if es == [] then 0 else (if es[0].Tick? then 1 else 0) + Ticks(es[1..])
  }

  ghost function LiveIds(live: seq<A.Slot>): set<U16> {
    set t | t in live :: t.id
  }

  lemma {:induction false} LiveIdsSize(live: seq<A.Slot>)
    requires A.DistinctIds(live)
    ensures |LiveIds(live)| == |live|
  {
    if live != [] {
      var front, t := live[..|live| - 1], live[|live| - 1];
      LiveIdsSize(front);
      assert t.id !in LiveIds(front);
      assert LiveIds(live) == LiveIds(front) + {t.id} by {
        forall y | y in LiveIds(live) ensures y in LiveIds(front) + {t.id} {
          var u :| u in live && u.id == y;
          assert u in front || u == t;
        }
        forall y | y in LiveIds(front) ensures y in LiveIds(live) {
          var u :| u in front && u.id == y;
          assert u in live;
        }
      }
    }
  }

  // A new frame finds a free entry as long as the ids in play fit into the pool.
  lemma RoomForNew(live: seq<A.Slot>, id: U16, ids: set<U16>)
    requires A.DistinctIds(live) && id in ids
    requires forall t :: t in live ==> t.id in ids && t.id != id
    ensures |live| < |ids|
  {
    LiveIdsSize(live);
    assert LiveIds(live) <= ids - {id};
    SubsetCard(LiveIds(live), ids - {id});
  }

  lemma SubsetCard<T>(a: set<T>, b: set<T>)
    requires a <= b
    ensures |a| <= |b|
  {
    assert b == a + (b - a);
    assert |b| == |a| + |b - a|;
  }

  // With room in the pool a chunk leaves the entries of all other frames alone.
  lemma FetchStay(cfg: A.Config, s: A.State, id: U16, t: A.Slot)
    requires cfg.Ok() && A.DistinctIds(s.live) && |s.live| <= cfg.numFrames && t in s.live && t.id != id
    requires A.IsLive(s, id) || |s.live| < cfg.numFrames
    ensures t in A.Fetch(cfg, s, id).0
  {
    var k := A.Find(s.live, id);
    if k < |s.live| {
      A.RemoveSlot(s.live, k);
    }
  }

  lemma UpdateStay(live: seq<A.Slot>, i: nat, new_: A.Slot, t: A.Slot)
    requires i < |live| && t in live && t != live[i]
    ensures t in live[i := new_]
  {
    var j :| 0 <= j < |live| && live[j] == t;
    assert live[i := new_][j] == t;
  }

  lemma OthersStay(cfg: A.Config, s: A.State, id: U16, p: Piece, t: A.Slot)
    requires cfg.Ok() && A.DistinctIds(s.live) && |s.live| <= cfg.numFrames && t in s.live && t.id != id
    requires A.IsLive(s, id) || |s.live| < cfg.numFrames
    ensures t in A.Process(cfg, s, id, p).0.live
  {
    if A.InBounds(cfg, p) {
      FetchStay(cfg, s, id, t);
      A.FetchSlots(cfg, s, id);
      var (live, i) := A.Fetch(cfg, s, id);
      A.RemoveSlot(live, i);
      UpdateStay(live, i, A.Slot(id, s.time, live[i].pieces + [p]), t);
    }
  }

  // A tick makes a frame that has not timed out one older, and keeps it.
  lemma TickAge(cfg: A.Config, s: A.State, u: A.Slot) returns (t: A.Slot)
    requires cfg.Ok() && A.Inv(cfg, s) && u in s.live && !A.TimedOut(cfg, s.time, u)
    ensures t in A.Advance(cfg, s).live && t.id == u.id
    ensures A.Advance(cfg, s).time - t.time == s.time - u.time + 1
  {
    if s.time == A.MAX_TIME {
      A.ReduceKeepsAges(cfg, s);
      A.SurvivorsAre(cfg, s.time, s.live);
      var live := A.Survivors(cfg, s.time, s.live);
      assert u in live;
      var i :| 0 <= i < |live| && live[i] == u;
      t := A.Reduce(cfg, s).live[i];
    } else {
      t := u;
    }
  }

  // The entry of a frame, if it has one, is at most this old.
  predicate NoOlder(s: A.State, x: U16, age: int) {
    forall t :: t in s.live && t.id == x ==> s.time - t.time <= age
  }

  lemma LiveIffMember(s: A.State, x: U16)
    ensures A.IsLive(s, x) <==> exists t :: t in s.live && t.id == x
  {
  }

  lemma UnhurriedStep(cfg: A.Config, s: A.State, x: U16, e: A.Event, ids: set<U16>, age: nat)
    requires cfg.Ok() && A.Inv(cfg, s) && |ids| <= cfg.numFrames
    requires forall t :: t in s.live ==> t.id in ids
    requires e.Arrive? ==> e.id in ids
    requires NoOlder(s, x, age) && age <= cfg.numFrames
    ensures var s' := A.Step(cfg, s, e).0;
      && A.Inv(cfg, s')
      && (forall t :: t in s'.live ==> t.id in ids)
      && NoOlder(s', x, if e.Tick? then age + 1 else age)
      && (A.IsLive(s, x) && !(e.Arrive? && e.id == x) ==> A.IsLive(s', x))
  {
    var s' := A.Step(cfg, s, e).0;
    if e.Arrive? {
      A.ProcessKeeps(cfg, s, e.id, e.piece);
      if A.InBounds(cfg, e.piece) {
        A.ProcessSlots(cfg, s, e.id, e.piece);
        if A.IsLive(s, x) && e.id != x {
          var t := s.live[A.Find(s.live, x)];
          assert t in s.live;
          if !A.IsLive(s, e.id) {
            RoomForNew(s.live, e.id, ids);
          }
          OthersStay(cfg, s, e.id, e.piece, t);
        }
      }
    } else {
      A.AdvanceKeeps(cfg, s);
      TickNoOlder(cfg, s, x, age);
      if A.IsLive(s, x) {
        var u := s.live[A.Find(s.live, x)];
        assert u in s.live;
        var t := TickAge(cfg, s, u);
      }
    }
  }

  lemma TickNoOlder(cfg: A.Config, s: A.State, x: U16, age: nat)
    requires cfg.Ok() && A.Inv(cfg, s) && NoOlder(s, x, age)
    ensures NoOlder(A.Advance(cfg, s), x, age + 1)
  {
    if s.time == A.MAX_TIME {
      A.ReduceKeepsAges(cfg, s);
      A.SurvivorsAre(cfg, s.time, s.live);
      var r, live := A.Reduce(cfg, s), A.Survivors(cfg, s.time, s.live);
      forall t | t in r.live && t.id == x ensures r.time - t.time <= age {
        var i :| 0 <= i < |r.live| && r.live[i] == t;
        assert live[i] in s.live;
      }
    }
  }

  /**
    A frame is safe from eviction and timeout while no more frames are in play than
    the pool has entries and no more packets pass than the tolerance allows.
   */
  lemma {:induction false} Unhurried(cfg: A.Config, s: A.State, x: U16, es: seq<A.Event>, ids: set<U16>, age: nat)
    requires cfg.Ok() && A.Inv(cfg, s) && |ids| <= cfg.numFrames
    requires forall t :: t in s.live ==> t.id in ids
    requires forall e :: e in es && e.Arrive? ==> e.id in ids
    requires NoOlder(s, x, age) && age + Ticks(es) <= cfg.numFrames
    ensures Undisturbed(cfg, s, x, es)
    decreases |es|
  {
    if es != [] {
      var e := es[0];
      UnhurriedStep(cfg, s, x, e, ids, age);
      forall d | d in es[1..] ensures d in es { }
      Unhurried(cfg, A.Step(cfg, s, e).0, x, es[1..], ids, if e.Tick? then age + 1 else age);
      if A.IsLive(s, x) {
        assert s.live[A.Find(s.live, x)] in s.live;
      }
    }
  }

  lemma ChunksFit(cut: D.Config, ps: seq<Piece>, f: seq<Byte>, mtu: nat)
    requires cut.Ok() && cut.chunkMtu < 0 && |f| <= mtu && D.Whole(ps, f) && D.CountBound(cut, ps, f)
    ensures |ps| <= D.MaxChunksForFrame(cut.outputMtu, mtu)
  {
    if |f| == 0 {
      TilingPieces(ps, f, 0);
    } else {
      D.DivideUpMonotone(|f| - 1, mtu, cut.outputMtu - W.HEADER);
    }
  }
}
