/**
  What cancelling a frame half way does at the other end. The frame number is kept,
  so the chunks of the next frame are taken for more of the cancelled one.
 */
module FragmentCancel {
  import opened Bytes
  import opened Lists
  import opened FragmentPieces
  import opened FragmentRoundTrip
  import A = FragmentAssembly
  import D = FragmentDisassembly
  import W = FragmentWire

  // ----- when some chunks of the next frame are lost

  // The cancelled frame up to where it was cut, then the next frame from there on.
  function Spliced(a: seq<Byte>, u: nat, b: seq<Byte>): seq<Byte>
    requires u <= |a| && u <= |b|
  {
    a[..u] + b[u..]
  }

  lemma {:induction false} HeadTiles(cur: seq<Piece>, a: seq<Byte>, n: nat, u: nat, b: seq<Byte>)
    requires D.Tiling(cur, a, n) && n <= u < |a| && u < |b|
    ensures D.Tiling(cur, Spliced(a, u, b), n)
  {
    if cur != [] {
      var q, front := cur[|cur| - 1], cur[..|cur| - 1];
      HeadTiles(front, a, q.start, u, b);
      assert Spliced(a, u, b)[q.start..n] == a[q.start..n];
    }
  }

  lemma {:induction false} TailTiles(cur: seq<Piece>, a: seq<Byte>, u: nat, b: seq<Byte>, ps: seq<Piece>, n: nat, j: nat)
    requires 0 < u < |a| && u < |b| && D.Tiling(cur, Spliced(a, u, b), u)
    requires D.Tiling(ps, b, n) && j < |ps| && ps[j].start == u
    ensures D.Tiling(cur + ps[j..], Spliced(a, u, b), n)
    decreases |ps|
  {
    var q, front := ps[|ps| - 1], ps[..|ps| - 1];
    var c := Spliced(a, u, b);
    if j == |ps| - 1 {
      assert ps[j..] == [q];
      TailLast(cur, c, q, u, n, b, a);
    } else {
      TailTiles(cur, a, u, b, front, q.start, j);
      StartsLater(ps, b, n, j);
      assert cur + ps[j..] == cur + front[j..] + [q];
      AppendTile(cur + front[j..], c, q, n, b, a, u);
    }
  }

  lemma TailLast(cur: seq<Piece>, c: seq<Byte>, q: Piece, u: nat, n: nat, b: seq<Byte>, a: seq<Byte>)
    requires 0 < u < |a| && u < |b| && c == Spliced(a, u, b) && D.Tiling(cur, c, u)
    requires q.start == u && u < n <= |b| && q.data == b[u..n] && (q.last <==> n == |b|)
    ensures D.Tiling(cur + [q], c, n)
  {
    AppendTile(cur, c, q, n, b, a, u);
  }

  lemma AppendTile(ps: seq<Piece>, c: seq<Byte>, q: Piece, n: nat, b: seq<Byte>, a: seq<Byte>, u: nat)
    requires u < |a| && u < |b| && c == Spliced(a, u, b) && D.Tiling(ps, c, q.start)
    requires u <= q.start < n <= |b| && q.data == b[q.start..n] && (q.last <==> n == |b|)
    ensures D.Tiling(ps + [q], c, n)
  {
    assert c[q.start..n] == b[q.start..n];
    assert (ps + [q])[..|ps|] == ps;
  }

  lemma StartsLater(ps: seq<Piece>, b: seq<Byte>, n: nat, j: nat)
    requires D.Tiling(ps, b, n) && j < |ps| - 1
    ensures ps[j].start <= ps[|ps| - 1].start
  {
    TilingPieces(ps, b, n);
  }

  /**
    A frame nobody sent. Whatever the two frames are: if a chunk of the next frame
    starts where the cancelled one was cut, and the chunks before it are lost, then the
    two are delivered as one frame, in whatever order the rest arrives.
   */
  lemma SpliceDelivered(cfg: A.Config, s: A.State, x: U16, es: seq<A.Event>,
                        cur: seq<Piece>, a: seq<Byte>, u: nat, ps: seq<Piece>, b: seq<Byte>, j: nat)
    requires cfg.Ok() && A.Inv(cfg, s) && !A.IsLive(s, x) && Undisturbed(cfg, s, x, es)
    requires D.Tiling(cur, a, u) && 0 < u < |a| && D.Whole(ps, b)
    requires j < |ps| && ps[j].start == u && u < |b|
    requires |cur| + |ps| - j <= cfg.numChunks && |b| <= cfg.mtu
    requires multiset(Mine(es, x)) == multiset(cur + ps[j..])
    ensures Output(cfg, s, es, x) == [Spliced(a, u, b)]
  {
    HeadTiles(cur, a, u, u, b);
    TailTiles(cur, a, u, b, ps, |b|, j);
    RoundTrip(cfg, s, x, es, cur + ps[j..], Spliced(a, u, b));
  }

  // ----- when nothing is lost

  lemma {:induction false} TilingStartsAtZero(ps: seq<Piece>, f: seq<Byte>, n: nat)
    requires ps != [] && D.Tiling(ps, f, n)
    ensures ps[0].start == 0
  {
    if |ps| > 1 {
      TilingStartsAtZero(ps[..|ps| - 1], f, ps[|ps| - 1].start);
    }
  }

  // The first chunk of the next frame makes the assembler forget what it holds.
  lemma FirstRefused(cfg: A.Config, a: seq<Byte>, u: nat, cur: seq<Piece>, b: seq<Byte>, ps: seq<Piece>)
    requires D.Tiling(cur, a, u) && 0 < u < |a| && D.Whole(ps, b)
    ensures A.Judge(cfg, cur, ps[0]) == A.Drop
  {
    TilingCovers(cur, a, u, 0);
    TilingPieces(ps, b, |b|);
    TilingStartsAtZero(ps, b, |b|);
    var i :| 0 <= i < |cur| && cur[i].Has(0);
    if ps[0].data != [] {
      assert Overlap(cur[i], ps[0]);
    } else {
      assert cur[i].End() <= MaxEnd(cur);
    }
  }

  predicate Later(ps: seq<Piece>) {
    forall i :: 0 <= i < |ps| ==> ps[i].start > 0
  }

  lemma LaterIncomplete(q: seq<Piece>)
    requires Consistent(q) && Later(q)
    ensures !Complete(q)
  {
    assert !Covered(q, 0);
    if Complete(q) {
      CompleteSpells(q);
    }
  }

  lemma NeverComplete(cfg: A.Config, base: seq<Piece>, p: Piece)
    requires Consistent(base) && Later(base + [p])
    ensures !A.Judge(cfg, base, p).Deliver?
  {
    if Fits(base, p) {
      FitsKeepsConsistent(base, p);
      LaterIncomplete(base + [p]);
    }
  }

  // What the assembler holds of a frame lacks its beginning.
  predicate HoldsLater(s: A.State, x: U16) {
    forall t :: t in s.live && t.id == x ==> Later(t.pieces)
  }

  lemma LaterOther(cfg: A.Config, s: A.State, e: A.Event, x: U16)
    requires cfg.Ok() && A.Inv(cfg, s) && HoldsLater(s, x) && !(e.Arrive? && e.id == x)
    ensures A.Inv(cfg, A.Step(cfg, s, e).0) && HoldsLater(A.Step(cfg, s, e).0, x)
  {
    if e.Arrive? {
      A.ProcessKeeps(cfg, s, e.id, e.piece);
      if A.InBounds(cfg, e.piece) {
        A.ProcessSlots(cfg, s, e.id, e.piece);
      }
    } else {
      A.AdvanceKeeps(cfg, s);
    }
  }

  lemma LaterOwn(cfg: A.Config, s: A.State, x: U16, p: Piece)
    requires cfg.Ok() && A.Inv(cfg, s) && HoldsLater(s, x) && p.start > 0
    ensures A.Inv(cfg, A.Process(cfg, s, x, p).0) && HoldsLater(A.Process(cfg, s, x, p).0, x)
    ensures A.Process(cfg, s, x, p).1 == None
  {
    A.ProcessKeeps(cfg, s, x, p);
    if A.InBounds(cfg, p) {
      A.ProcessSlots(cfg, s, x, p);
      A.FetchSlots(cfg, s, x);
      A.BaseGood(cfg, s, x);
      var base := A.Fetch(cfg, s, x).0[A.Fetch(cfg, s, x).1].pieces;
      assert Later(base + [p]);
      NeverComplete(cfg, base, p);
    }
  }

  lemma OneEvent(cfg: A.Config, s: A.State, x: U16, es: seq<A.Event>, r: (A.State, Option<seq<Byte>>))
    requires cfg.Ok() && |s.live| <= cfg.numFrames && es != [] && r == A.Step(cfg, s, es[0])
    ensures |r.0.live| <= cfg.numFrames
    ensures var own := es[0].Arrive? && es[0].id == x;
      && Output(cfg, s, es, x) == (if own && r.1.Some? then [r.1.value] else []) + Output(cfg, r.0, es[1..], x)
      && Mine(es, x) == (if own then [es[0].piece] else []) + Mine(es[1..], x)
  {
  }

  // Without its beginning a frame is never delivered.
  lemma {:induction false} NoBeginning(cfg: A.Config, s: A.State, x: U16, es: seq<A.Event>)
    requires cfg.Ok() && A.Inv(cfg, s) && HoldsLater(s, x) && Later(Mine(es, x))
    ensures Output(cfg, s, es, x) == []
    decreases |es|
  {
    if es != [] {
      var r := A.Step(cfg, s, es[0]);
      OneEvent(cfg, s, x, es, r);
      if es[0].Arrive? && es[0].id == x {
        LaterRest(es[0].piece, Mine(es[1..], x));
        LaterOwn(cfg, s, x, es[0].piece);
      } else {
        LaterOther(cfg, s, es[0], x);
      }
      NoBeginning(cfg, r.0, x, es[1..]);
    }
  }

  lemma LaterRest(p: Piece, ps: seq<Piece>)
    requires Later([p] + ps)
    ensures p.start > 0 && Later(ps)
  {
    assert ([p] + ps)[0] == p && ([p] + ps)[1..] == ps;
  }

  // A chunk of the frame that will be cancelled has to wait.
  lemma HeadWaits(cfg: A.Config, cur: seq<Piece>, a: seq<Byte>, u: nat, k: nat)
    requires D.Tiling(cur, a, u) && u < |a| <= cfg.mtu && k < |cur| < cfg.numChunks
    ensures A.InBounds(cfg, cur[k]) && cur[..k] + [cur[k]] == cur[..k + 1]
    ensures A.Judge(cfg, cur[..k], cur[k]) == A.Wait
  {
    TilingPieces(cur, a, u);
    assert cur[..k] + [cur[k]] == cur[..k + 1];
    NoLength(cur[..k]);
    NoLength(cur[..k + 1]);
  }

  lemma NoLength(ps: seq<Piece>)
    requires forall i :: 0 <= i < |ps| ==> !ps[i].last
    ensures Length(ps) == -1 && !Complete(ps)
  {
  }

  lemma RestLater(ps: seq<Piece>, b: seq<Byte>)
    requires D.Whole(ps, b)
    ensures Later(ps[1..])
  {
    TilingPieces(ps, b, |b|);
    forall i | 0 <= i < |ps[1..]| ensures ps[1..][i].start > 0 {
      assert ps[0].End() <= ps[i + 1].start && InFrame(ps[0], b);
    }
  }

  // The chunks of the cancelled frame from k on, then those of the next frame, are to come.
  ghost predicate Doomed(cfg: A.Config, s: A.State, x: U16, es: seq<A.Event>,
                         cur: seq<Piece>, a: seq<Byte>, u: nat, ps: seq<Piece>, b: seq<Byte>, k: nat) {
    && cfg.Ok() && A.Inv(cfg, s) && Undisturbed(cfg, s, x, es)
    && D.Tiling(cur, a, u) && 0 < u < |a| <= cfg.mtu && |cur| < cfg.numChunks
    && D.Whole(ps, b) && |b| <= cfg.mtu
    && k <= |cur| && Held(s, x) == (if k == 0 then None else Some(cur[..k]))
    && Mine(es, x) == cur[k..] + ps
  }

  lemma DoomedOwn(cfg: A.Config, s: A.State, x: U16, es: seq<A.Event>,
                  cur: seq<Piece>, a: seq<Byte>, u: nat, ps: seq<Piece>, b: seq<Byte>, k: nat)
    requires Doomed(cfg, s, x, es, cur, a, u, ps, b, k) && k < |cur|
    requires es != [] && es[0].Arrive? && es[0].id == x
    ensures var r := A.Step(cfg, s, es[0]); r.1 == None && Doomed(cfg, r.0, x, es[1..], cur, a, u, ps, b, k + 1)
  {
    var r := A.Step(cfg, s, es[0]);
    Unfold(cfg, s, x, es, r);
    NextOf(cur, k, ps, es[0].piece, Mine(es[1..], x));
    HeadWaits(cfg, cur, a, u, k);
    OwnStep(cfg, s, x, cur[k], cur[..k]);
  }

  lemma NextOf(cur: seq<Piece>, k: nat, ps: seq<Piece>, p: Piece, rest: seq<Piece>)
    requires k < |cur| && [p] + rest == cur[k..] + ps
    ensures p == cur[k] && rest == cur[k + 1..] + ps
  {
    assert ([p] + rest)[0] == (cur[k..] + ps)[0];
    assert ([p] + rest)[1..] == (cur[k..] + ps)[1..] == cur[k + 1..] + ps;
  }

  lemma DoomedOther(cfg: A.Config, s: A.State, x: U16, es: seq<A.Event>,
                    cur: seq<Piece>, a: seq<Byte>, u: nat, ps: seq<Piece>, b: seq<Byte>, k: nat)
    requires Doomed(cfg, s, x, es, cur, a, u, ps, b, k)
    requires es != [] && !(es[0].Arrive? && es[0].id == x)
    ensures Doomed(cfg, A.Step(cfg, s, es[0]).0, x, es[1..], cur, a, u, ps, b, k)
  {
    var r := A.Step(cfg, s, es[0]);
    Unfold(cfg, s, x, es, r);
    OtherStep(cfg, s, es[0], x);
    assert [] + Mine(es[1..], x) == Mine(es[1..], x);
  }

  lemma DoomedTurn(cfg: A.Config, s: A.State, x: U16, es: seq<A.Event>,
                   cur: seq<Piece>, a: seq<Byte>, u: nat, ps: seq<Piece>, b: seq<Byte>)
    requires Doomed(cfg, s, x, es, cur, a, u, ps, b, |cur|)
    requires es != [] && es[0].Arrive? && es[0].id == x
    ensures var r := A.Step(cfg, s, es[0]);
      r.1 == None && A.Inv(cfg, r.0) && HoldsLater(r.0, x) && Mine(es[1..], x) == ps[1..]
  {
    var r := A.Step(cfg, s, es[0]);
    Unfold(cfg, s, x, es, r);
    FirstRefused(cfg, a, u, cur, b, ps);
    TilingStartsAtZero(ps, b, |b|);
    TilingPieces(ps, b, |b|);
    assert cur[|cur|..] + ps == ps && cur[..|cur|] == cur;
    assert Mine(es, x)[0] == es[0].piece && Mine(es, x)[1..] == Mine(es[1..], x);
    assert cur != [];
    OwnStep(cfg, s, x, ps[0], cur);
    LiveIffMember(r.0, x);
  }

  /**
    Neither frame is delivered. Whatever the two frames are: if all chunks of the
    cancelled frame and then all chunks of the next one arrive in order, among any
    other traffic, nothing is delivered under their number.
   */
  lemma {:induction false} NextFrameLost(cfg: A.Config, s: A.State, x: U16, es: seq<A.Event>,
                                         cur: seq<Piece>, a: seq<Byte>, u: nat, ps: seq<Piece>, b: seq<Byte>, k: nat)
    requires Doomed(cfg, s, x, es, cur, a, u, ps, b, k)
    ensures Output(cfg, s, es, x) == []
    decreases |es|
  {
    if es != [] {
      var r := A.Step(cfg, s, es[0]);
      OneEvent(cfg, s, x, es, r);
      if !(es[0].Arrive? && es[0].id == x) {
        DoomedOther(cfg, s, x, es, cur, a, u, ps, b, k);
        NextFrameLost(cfg, r.0, x, es[1..], cur, a, u, ps, b, k);
      } else if k < |cur| {
        DoomedOwn(cfg, s, x, es, cur, a, u, ps, b, k);
        NextFrameLost(cfg, r.0, x, es[1..], cur, a, u, ps, b, k + 1);
      } else {
        DoomedTurn(cfg, s, x, es, cur, a, u, ps, b);
        RestLater(ps, b);
        NoBeginning(cfg, r.0, x, es[1..]);
      }
    }
  }

  // ----- a run

  // One byte of payload to a packet.
  const NARROW := D.Config(W.HEADER + 1, -1, -1)

  // What the cutter has done after some events.
  predicate Stands(h: seq<D.Event>, input: Option<D.Job>, frameId: U16, sent: seq<W.Record>, frames: seq<seq<Byte>>, halfWays: nat) {
    && D.Legal(NARROW, h)
    && (var s := D.Final(NARROW, h); s.input == input && s.out.None? && s.frameId == frameId)
    && D.Sent(NARROW, h) == sent && D.Frames(NARROW, h) == frames && D.HalfWays(NARROW, h) == halfWays
  }

  lemma StandsInput(h: seq<D.Event>, frame: seq<Byte>, frameId: U16, sent: seq<W.Record>, frames: seq<seq<Byte>>, halfWays: nat)
    requires Stands(h, None, frameId, sent, frames, halfWays) && 0 < |frame| < 0x1_0000
    ensures Stands(h + [D.Input(frame)], Some(D.Job(frame, 0)), frameId, sent, frames, halfWays)
  {
    D.Extend(NARROW, h, D.Input(frame));
    EmptyUnits(sent, []);
    EmptyUnits(frames, []);
  }

  lemma StandsCancel(h: seq<D.Event>, job: D.Job, frameId: U16, sent: seq<W.Record>, frames: seq<seq<Byte>>, halfWays: nat)
    requires Stands(h, Some(job), frameId, sent, frames, halfWays) && job.used > 0
    ensures Stands(h + [D.Cancel], None, frameId, sent, frames, halfWays + 1)
  {
    D.Extend(NARROW, h, D.Cancel);
    EmptyUnits(sent, []);
    EmptyUnits(frames, []);
  }

  // A packet takes the next byte of the frame.
  function ByteOf(frame: seq<Byte>, k: nat): Piece
    requires k < |frame|
  {
    Piece(k, [frame[k]], k + 1 == |frame|)
  }

  lemma EmitByte(frame: seq<Byte>, used: nat)
    requires used < |frame|
    ensures NARROW.Ok() && NARROW.Room(0) > 0
    ensures D.Emit(NARROW, frame, used, 0) == D.Pass([ByteOf(frame, used)], used + 1, W.HEADER + 1)
  {
    assert frame[used..used + 1] == [frame[used]];
  }

  lemma StandsRecv(h: seq<D.Event>, frame: seq<Byte>, used: nat, frameId: U16, sent: seq<W.Record>, frames: seq<seq<Byte>>, halfWays: nat)
    requires used < |frame| && Stands(h, Some(D.Job(frame, used)), frameId, sent, frames, halfWays)
    ensures var done := used + 1 == |frame|;
      Stands(h + [D.Recv], if done then None else Some(D.Job(frame, used + 1)), if done then (frameId + 1) % 0x1_0000 else frameId,
             sent + [W.Record(frameId, ByteOf(frame, used))], if done then frames + [frame] else frames, halfWays)
  {
    D.Extend(NARROW, h, D.Recv);
    EmitByte(frame, used);
    EmptyUnits(frames, []);
    assert [] + D.Tag(frameId, [ByteOf(frame, used)]) == [W.Record(frameId, ByteOf(frame, used))];
  }

  const FIRST: seq<Byte> := [1, 2, 3]
  const SECOND: seq<Byte> := [7, 8]

  // A frame of which one chunk has left is cancelled, and another is cut to the end.
  const CANCELLED: seq<D.Event> :=
    [] + [D.Input(FIRST)] + [D.Recv] + [D.Cancel] + [D.Input(SECOND)] + [D.Recv] + [D.Recv]

  lemma CancelledSends()
    ensures Stands(CANCELLED, None, 1,
                   [] + [W.Record(0, ByteOf(FIRST, 0))] + [W.Record(0, ByteOf(SECOND, 0))] + [W.Record(0, ByteOf(SECOND, 1))], [] + [SECOND], 1)
  {
    var h1: seq<D.Event> := [] + [D.Input(FIRST)];
    StandsInput([], FIRST, 0, [], [], 0);
    StandsRecv(h1, FIRST, 0, 0, [], [], 0);
    var sent1 := [] + [W.Record(0, ByteOf(FIRST, 0))];
    StandsCancel(h1 + [D.Recv], D.Job(FIRST, 1), 0, sent1, [], 0);
    var h3 := h1 + [D.Recv] + [D.Cancel];
    StandsInput(h3, SECOND, 0, sent1, [], 1);
    StandsRecv(h3 + [D.Input(SECOND)], SECOND, 0, 0, sent1, [], 1);
    var sent2 := sent1 + [W.Record(0, ByteOf(SECOND, 0))];
    StandsRecv(h3 + [D.Input(SECOND)] + [D.Recv], SECOND, 1, 0, sent2, [], 1);
  }

  // Each of the chunks comes in a packet of its own.
  function Packets(ps: seq<Piece>): seq<A.Event> {
    if ps == [] then [] else [A.Arrive(0, ps[0]), A.Tick] + Packets(ps[1..])
  }

  lemma {:induction false} PacketsAre(ps: seq<Piece>)
    ensures Mine(Packets(ps), 0) == ps && Ticks(Packets(ps)) == |ps|
    ensures forall e :: e in Packets(ps) && e.Arrive? ==> e.id == 0
  {
    if ps != [] {
      PacketsAre(ps[1..]);
      var rest := Packets(ps[1..]);
      assert Packets(ps) == [A.Arrive(0, ps[0])] + ([A.Tick] + rest);
      assert ([A.Arrive(0, ps[0])] + ([A.Tick] + rest))[1..] == [A.Tick] + rest;
      assert ([A.Tick] + rest)[1..] == rest;
      assert [ps[0]] + ps[1..] == ps;
    }
  }

  lemma PacketsUnhurried(cfg: A.Config, ps: seq<Piece>)
    requires cfg.Ok() && |ps| <= cfg.numFrames
    ensures A.Inv(cfg, A.INITIAL) && Undisturbed(cfg, A.INITIAL, 0, Packets(ps))
  {
    PacketsAre(ps);
    Unhurried(cfg, A.INITIAL, 0, Packets(ps), {0}, 0);
  }

  lemma BytesTile(frame: seq<Byte>)
    requires frame == SECOND
    ensures D.Whole([ByteOf(frame, 0), ByteOf(frame, 1)], frame)
  {
    var ps := [ByteOf(frame, 0), ByteOf(frame, 1)];
    assert ps[..1] == [ByteOf(frame, 0)] && [ByteOf(frame, 0)][..0] == [];
    assert frame[0..1] == [frame[0]] && frame[1..2] == [frame[1]];
    assert D.Tiling([ByteOf(frame, 0)], frame, 1);
  }

  lemma HeadTile()
    ensures D.Tiling([ByteOf(FIRST, 0)], FIRST, 1)
  {
    assert [ByteOf(FIRST, 0)][..0] == [] && FIRST[0..1] == [FIRST[0]];
  }

  /**
    The run at the other end: the frame sent after the cancelled one is not delivered
    when all packets arrive, and when the packet with its first chunk is lost, what is
    delivered starts with a byte of the cancelled frame.
   */
  lemma CancelledRun(cfg: A.Config)
    requires cfg.Ok() && cfg.mtu >= 3 && cfg.numFrames >= 3 && cfg.numChunks >= 3
    ensures var c1, c2, c3 := ByteOf(FIRST, 0), ByteOf(SECOND, 0), ByteOf(SECOND, 1);
      && D.Legal(NARROW, CANCELLED) && D.Frames(NARROW, CANCELLED) == [SECOND]
      && D.Sent(NARROW, CANCELLED) == D.Tag(0, [c1, c2, c3])
      && Output(cfg, A.INITIAL, Packets([c1, c2, c3]), 0) == []
      && Output(cfg, A.INITIAL, Packets([c1, c3]), 0) == [[1, 8]]
  {
    CancelledSends();
    AllArrive(cfg, ByteOf(FIRST, 0), ByteOf(SECOND, 0), ByteOf(SECOND, 1));
    OneLost(cfg, ByteOf(FIRST, 0), ByteOf(SECOND, 0), ByteOf(SECOND, 1));
  }

  lemma AllArrive(cfg: A.Config, c1: Piece, c2: Piece, c3: Piece)
    requires cfg.Ok() && cfg.mtu >= 3 && cfg.numFrames >= 3 && cfg.numChunks >= 3
    requires c1 == ByteOf(FIRST, 0) && c2 == ByteOf(SECOND, 0) && c3 == ByteOf(SECOND, 1)
    ensures Output(cfg, A.INITIAL, Packets([c1, c2, c3]), 0) == []
  {
    HeadTile();
    BytesTile(SECOND);
    PacketsAre([c1, c2, c3]);
    PacketsUnhurried(cfg, [c1, c2, c3]);
    assert [c1][0..] + [c2, c3] == [c1, c2, c3];
    NextFrameLost(cfg, A.INITIAL, 0, Packets([c1, c2, c3]), [c1], FIRST, 1, [c2, c3], SECOND, 0);
  }

  lemma OneLost(cfg: A.Config, c1: Piece, c2: Piece, c3: Piece)
    requires cfg.Ok() && cfg.mtu >= 3 && cfg.numFrames >= 3 && cfg.numChunks >= 3
    requires c1 == ByteOf(FIRST, 0) && c2 == ByteOf(SECOND, 0) && c3 == ByteOf(SECOND, 1)
    ensures Output(cfg, A.INITIAL, Packets([c1, c3]), 0) == [[1, 8]]
  {
    HeadTile();
    BytesTile(SECOND);
    PacketsAre([c1, c3]);
    PacketsUnhurried(cfg, [c1, c3]);
    assert [c1] + [c2, c3][1..] == [c1, c3];
    SpliceDelivered(cfg, A.INITIAL, 0, Packets([c1, c3]), [c1], FIRST, 1, [c2, c3], SECOND, 1);
    assert Spliced(FIRST, 1, SECOND) == [1, 8];
  }
}
