/**
  Cutting frames into chunks: what the output packets contain, over every
  interleaving of incoming frames, output buffers and latency timeouts.
 */
module FragmentDisassembly {
  import opened Bytes
  import opened Lists
  import opened FragmentPieces
  import opened FragmentWire

  // chunkMtu < 0 means no chunk limit, latency < 0 means packets leave at once.
  datatype Config = Config(outputMtu: nat, chunkMtu: int, latency: int) {
    predicate Ok() {
      outputMtu > HEADER && chunkMtu != 0
    }

    // OUT_AVAIL
    function Room(outUsed: nat): int {
      outputMtu - outUsed - HEADER
    }

    function ChunkLen(avail: nat, room: nat): (n: nat)
      requires Ok() && room > 0
      ensures n <= avail && n <= room && (avail > 0 ==> n > 0)
      ensures chunkMtu < 0 ==> n == avail || n == room
      ensures chunkMtu > 0 ==> n <= chunkMtu && (n == avail || n == room || n == chunkMtu)
    {
      var n := if avail < room then avail else room;
      if chunkMtu > 0 && chunkMtu < n then chunkMtu else n
    }
  }

  datatype Job = Job(frame: seq<Byte>, used: nat)

  // A frame being cut, the chunks in the current output packet and their size, the
  // id of the frame being cut and whether the latency timer runs.
  datatype State = State(input: Option<Job>, out: Option<seq<Record>>, outUsed: nat, frameId: U16, timer: bool)

  const INITIAL := State(None, None, 0, 0, false)

  datatype Event = Input(frame: seq<Byte>) | Cancel | Recv | Timer

  // The chunks one pass of the loop writes, and how far it gets in the frame and
  // in the packet.
  datatype Pass = Pass(pieces: seq<Piece>, used: nat, outUsed: nat)

  function Emit(cfg: Config, frame: seq<Byte>, used: nat, outUsed: nat): (r: Pass)
    requires cfg.Ok() && used <= |frame| && cfg.Room(outUsed) > 0
    ensures r.pieces != [] && r.used <= |frame| && r.outUsed <= cfg.outputMtu
    ensures r.used == |frame| || cfg.Room(r.outUsed) <= 0
    ensures cfg.chunkMtu < 0 ==> |r.pieces| == 1
    decreases |frame| - used
  {
    var n := cfg.ChunkLen(|frame| - used, cfg.Room(outUsed));
    var p := Piece(used, frame[used..used + n], n == |frame| - used);
    if used + n < |frame| && cfg.Room(outUsed + HEADER + n) > 0 then
      var rest := Emit(cfg, frame, used + n, outUsed + HEADER + n);
      Pass([p] + rest.pieces, rest.used, rest.outUsed)
    else
      Pass([p], used + n, outUsed + HEADER + n)
  }

  function Tag(id: U16, ps: seq<Piece>): (rs: seq<Record>)
    ensures |rs| == |ps|
    ensures forall i :: 0 <= i < |ps| ==> rs[i] == Record(id, ps[i])
  {
    seq(|ps|, i requires 0 <= i < |ps| => Record(id, ps[i]))
  }

  // write_chunks: the next state, and the packet it finishes, if any.
  function Write(cfg: Config, s: State): (r: (State, Option<seq<Record>>))
    requires cfg.Ok() && s.input.Some? && s.out.Some?
    requires s.input.value.used <= |s.input.value.frame| && cfg.Room(s.outUsed) > 0
  {
    var Job(frame, used) := s.input.value;
    var pass := Emit(cfg, frame, used, s.outUsed);
    var out := s.out.value + Tag(s.frameId, pass.pieces);
    var done := pass.used == |frame|;
    var input := if done then None else Some(Job(frame, pass.used));
    var id := if done then (s.frameId + 1) % 0x1_0000 else s.frameId;
    if cfg.Room(pass.outUsed) <= 0 || cfg.latency < 0
    then (State(input, None, pass.outUsed, id, false), Some(out))
    else (State(input, Some(out), pass.outUsed, id, true), None)
  }

  // When the environment may raise an event.
  predicate Allowed(s: State, e: Event) {
    match e
    case Input(frame) => s.input.None? && |frame| < 0x1_0000
    case Cancel => s.input.Some? && s.out.None?
    case Recv => s.out.None?
    case Timer => s.timer
  }

  function Step(cfg: Config, s: State, e: Event): (r: (State, Option<seq<Record>>))
    requires cfg.Ok() && Inv(cfg, s) && Allowed(s, e)
  {
    match e
    case Input(frame) =>
      var t := s.(input := Some(Job(frame, 0)));
      if s.out.None? then (t, None) else Write(cfg, t)
    case Cancel => (s.(input := None), None)
    case Recv =>
      var t := s.(out := Some([]), outUsed := 0);
      if s.input.None? then (t, None) else Write(cfg, t)
    case Timer => (s.(out := None, timer := false), s.out)
  }

  /**
    Between handlers a frame and an output packet are never both waiting, an open
    packet has room for at least one payload byte, and the timer runs exactly
    while an open packet holds chunks (so its handler finds a packet and no frame).
   */
  predicate Inv(cfg: Config, s: State) {
    && (s.input.Some? ==> s.input.value.used <= |s.input.value.frame| < 0x1_0000)
    && (s.out.Some? ==> s.input.None? && s.outUsed == Size(s.out.value) && cfg.Room(s.outUsed) > 0)
    && (s.timer <==> s.out.Some? && s.out.value != [])
    && (s.timer ==> cfg.latency >= 0)
  }

  // ----- one pass of the loop

  lemma SizeAppend(a: seq<Record>, b: seq<Record>)
    ensures Size(a + b) == Size(a) + Size(b)
  {
    if a == [] {
      assert a + b == b;
    } else {
      assert (a + b)[1..] == a[1..] + b;
      SizeAppend(a[1..], b);
    }
  }

  lemma TagCons(id: U16, p: Piece, rest: seq<Piece>)
    ensures Tag(id, [p] + rest) == [Record(id, p)] + Tag(id, rest)
    ensures Tag(id, [p]) == [Record(id, p)]
    ensures Size([Record(id, p)]) == HEADER + |p.data|
  {
  }

  lemma EmitMore(cfg: Config, frame: seq<Byte>, used: nat, outUsed: nat, n: nat)
    requires cfg.Ok() && used <= |frame| && cfg.Room(outUsed) > 0
    requires n == cfg.ChunkLen(|frame| - used, cfg.Room(outUsed))
    requires used + n < |frame| && cfg.Room(outUsed + HEADER + n) > 0
    ensures var rest := Emit(cfg, frame, used + n, outUsed + HEADER + n);
      Emit(cfg, frame, used, outUsed) == Pass([Piece(used, frame[used..used + n], false)] + rest.pieces, rest.used, rest.outUsed)
  {
  }

  lemma {:induction false} EmitSize(cfg: Config, id: U16, frame: seq<Byte>, used: nat, outUsed: nat, r: Pass)
    requires cfg.Ok() && used <= |frame| && cfg.Room(outUsed) > 0 && r == Emit(cfg, frame, used, outUsed)
    ensures r.outUsed == outUsed + Size(Tag(id, r.pieces))
    decreases |frame| - used
  {
    var n := cfg.ChunkLen(|frame| - used, cfg.Room(outUsed));
    var p := Piece(used, frame[used..used + n], n == |frame| - used);
    if used + n < |frame| && cfg.Room(outUsed + HEADER + n) > 0 {
      var rest := Emit(cfg, frame, used + n, outUsed + HEADER + n);
      EmitMore(cfg, frame, used, outUsed, n);
      EmitSize(cfg, id, frame, used + n, outUsed + HEADER + n, rest);
      TagCons(id, p, rest.pieces);
      SizeAppend([Record(id, p)], Tag(id, rest.pieces));
    } else {
      TagCons(id, p, []);
    }
  }

  // A prefix of a frame cut into consecutive non-empty pieces, the one that
  // reaches the end of the frame, and no other, being marked last.
  predicate Tiling(ps: seq<Piece>, f: seq<Byte>, n: nat) {
    if ps == [] then n == 0
    else
      var q, front := ps[|ps| - 1], ps[..|ps| - 1];
      && q.start <= n <= |f|
      && q.data == f[q.start..n]
      && (q.start < n || (|f| == 0 && front == []))
      && (q.last <==> n == |f|)
      && Tiling(front, f, q.start)
  }

  predicate Whole(ps: seq<Piece>, f: seq<Byte>) {
    ps != [] && Tiling(ps, f, |f|)
  }

  lemma TilingExtends(cur: seq<Piece>, f: seq<Byte>, used: nat, n: nat)
    requires Tiling(cur, f, used) && used <= n <= |f| && (used < n || (|f| == 0 && cur == []))
    ensures Tiling(cur + [Piece(used, f[used..n], n == |f|)], f, n)
  {
    assert (cur + [Piece(used, f[used..n], n == |f|)])[..|cur|] == cur;
  }

  // A pass extends a tiling of the frame.
  lemma {:induction false} EmitTiles(cfg: Config, frame: seq<Byte>, used: nat, outUsed: nat, cur: seq<Piece>, r: Pass)
    requires cfg.Ok() && cfg.Room(outUsed) > 0
    requires Tiling(cur, frame, used) && (used < |frame| || (used == |frame| && cur == []))
    requires r == Emit(cfg, frame, used, outUsed)
    ensures Tiling(cur + r.pieces, frame, r.used)
    decreases |frame| - used
  {
    var n := cfg.ChunkLen(|frame| - used, cfg.Room(outUsed));
    var p := Piece(used, frame[used..used + n], n == |frame| - used);
    TilingExtends(cur, frame, used, used + n);
    if used + n < |frame| && cfg.Room(outUsed + HEADER + n) > 0 {
      var rest := Emit(cfg, frame, used + n, outUsed + HEADER + n);
      EmitMore(cfg, frame, used, outUsed, n);
      EmitTiles(cfg, frame, used + n, outUsed + HEADER + n, cur + [p], rest);
      Assoc(cur, [p], rest.pieces);
    } else {
      assert r.pieces == [p] && r.used == used + n;
    }
  }

  // ----- how many chunks a frame takes

  // Without a chunk limit every chunk but the first and the final one fills a packet.
  predicate Dense(ps: seq<Piece>, n: nat, capacity: nat) {
    ps == [] || n >= 1 + (|ps| - 1) * capacity
  }

  // bdivide_up and fragmentproto_max_chunks_for_frame
  function DivideUp(a: nat, b: nat): nat
    requires b > 0
  {
    if a % b > 0 then a / b + 1 else a / b
  }

  function MaxChunksForFrame(carrierMtu: nat, frameMtu: nat): nat
    requires carrierMtu > HEADER
  {
    DivideUp(frameMtu, carrierMtu - HEADER) + 1
  }

  predicate CountBound(cfg: Config, ps: seq<Piece>, f: seq<Byte>)
    requires cfg.Ok()
  {
    cfg.chunkMtu < 0 && |f| >= 1 ==> |ps| <= 1 + DivideUp(|f| - 1, cfg.outputMtu - HEADER)
  }

  lemma LessOfProducts(x: nat, y: nat, b: nat)
    requires x * b > y * b
    ensures x > y
  {
  }

  lemma DivideUpAtLeast(a: nat, m: nat, b: nat)
    requires b > 0 && m > 0 && a > (m - 1) * b
    ensures DivideUp(a, b) >= m
  {
    assert DivideUp(a, b) * b >= a by {
      assert a == (a / b) * b + a % b;
    }
    LessOfProducts(DivideUp(a, b), m - 1, b);
  }

  lemma DivideUpMonotone(a: nat, c: nat, b: nat)
    requires b > 0 && a <= c
    ensures DivideUp(a, b) <= DivideUp(c, b)
  {
    var m := DivideUp(a, b);
    if m > 0 {
      assert a > (m - 1) * b by {
        assert a == (a / b) * b + a % b;
      }
      DivideUpAtLeast(c, m, b);
    }
  }

  // The final piece keeps the number of chunks within the bound.
  lemma WholeCount(cfg: Config, cur: seq<Piece>, used: nat, p: Piece, f: seq<Byte>)
    requires cfg.Ok()
    requires cfg.chunkMtu < 0 ==> Dense(cur, used, cfg.outputMtu - HEADER)
    requires used < |f| || cur == []
    ensures CountBound(cfg, cur + [p], f)
  {
    if cfg.chunkMtu < 0 && |f| >= 1 && cur != [] {
      DivideUpAtLeast(|f| - 1, |cur|, cfg.outputMtu - HEADER);
    }
  }

  // ----- runs

  // What is known of the chunks already written of a frame that is not finished.
  predicate Progress(cfg: Config, input: Option<Job>, cur: seq<Piece>)
    requires cfg.Ok()
  {
    match input
    case None => cur == []
    case Some(Job(frame, used)) =>
      && Tiling(cur, frame, used)
      && (used < |frame| || (used == |frame| && cur == []))
      && (cfg.chunkMtu < 0 ==> Dense(cur, used, cfg.outputMtu - HEADER))
  }

  // One pass of the loop, seen from the frame being cut: the frame is finished and
  // wholly tiled, or the packet is full. A frame that goes on starts a fresh packet.
  lemma PassProgress(cfg: Config, job: Job, outUsed: nat, cur: seq<Piece>, r: Pass)
    requires cfg.Ok() && job.used <= |job.frame| && cfg.Room(outUsed) > 0
    requires Progress(cfg, Some(job), cur) && (cur == [] || outUsed == 0)
    requires r == Emit(cfg, job.frame, job.used, outUsed)
    ensures r.used == |job.frame| ==> Whole(cur + r.pieces, job.frame) && CountBound(cfg, cur + r.pieces, job.frame)
    ensures r.used < |job.frame| ==> Progress(cfg, Some(Job(job.frame, r.used)), cur + r.pieces) && cfg.Room(r.outUsed) <= 0
  {
    EmitTiles(cfg, job.frame, job.used, outUsed, cur, r);
    if cfg.chunkMtu < 0 {
      WholeCount(cfg, cur, job.used, r.pieces[0], job.frame);
      assert r.pieces == [r.pieces[0]];
      var n := cfg.ChunkLen(|job.frame| - job.used, cfg.Room(outUsed));
      assert r.used == job.used + n;
      if r.used < |job.frame| && cur != [] {
        assert n == cfg.outputMtu - HEADER;
        assert (|cur| - 1) * n + n == |cur| * n;
      }
    }
  }

  lemma StepKeeps(cfg: Config, s: State, e: Event)
    requires cfg.Ok() && Inv(cfg, s) && Allowed(s, e)
    ensures Inv(cfg, Step(cfg, s, e).0)
  {
    var t := match e
      case Input(frame) => s.(input := Some(Job(frame, 0)))
      case Recv => s.(out := Some([]), outUsed := 0)
      case _ => s;
    if t.input.Some? && t.out.Some? {
      var Job(frame, used) := t.input.value;
      var r := Emit(cfg, frame, used, t.outUsed);
      EmitSize(cfg, t.frameId, frame, used, t.outUsed, r);
      SizeAppend(t.out.value, Tag(t.frameId, r.pieces));
    }
  }

  // Histories of events that can happen.
  predicate Legal(cfg: Config, h: seq<Event>)
    requires cfg.Ok()
    decreases h, 0
  {
    h == [] ||
    var front, e := h[..|h| - 1], h[|h| - 1];
    Legal(cfg, front) && Allowed(Final(cfg, front), e)
  }

  function Final(cfg: Config, h: seq<Event>): (s: State)
    requires cfg.Ok() && Legal(cfg, h)
    ensures Inv(cfg, s)
    decreases h, 1
  {
    if h == [] then INITIAL
    else
      var s := Final(cfg, h[..|h| - 1]);
      StepKeeps(cfg, s, h[|h| - 1]);
      Step(cfg, s, h[|h| - 1]).0
  }

  // A frame is cancelled after some of its chunks have been written.
  predicate HalfWay(s: State, e: Event) {
    e == Cancel && s.input.Some? && s.input.value.used > 0
  }

  // How often that happens.
  function HalfWays(cfg: Config, h: seq<Event>): nat
    requires cfg.Ok() && Legal(cfg, h)
  {
    if h == [] then 0
    else HalfWays(cfg, h[..|h| - 1]) + if HalfWay(Final(cfg, h[..|h| - 1]), h[|h| - 1]) then 1 else 0
  }

  // All chunks in finished packets, in order.
  function Sent(cfg: Config, h: seq<Event>): seq<Record>
    requires cfg.Ok() && Legal(cfg, h)
  {
    if h == [] then []
    else
      var p := Step(cfg, Final(cfg, h[..|h| - 1]), h[|h| - 1]).1;
      Sent(cfg, h[..|h| - 1]) + (if p.Some? then p.value else [])
  }

  // The frame an event makes progress on.
  function Working(s: State, e: Event): Option<seq<Byte>> {
    match e
    case Input(frame) => Some(frame)
    case Recv => if s.input.Some? then Some(s.input.value.frame) else None
    case _ => None
  }

  // All frames cut to the end, in order.
  function Frames(cfg: Config, h: seq<Event>): seq<seq<Byte>>
    requires cfg.Ok() && Legal(cfg, h)
  {
    if h == [] then []
    else
      var s, e := Final(cfg, h[..|h| - 1]), h[|h| - 1];
      Frames(cfg, h[..|h| - 1]) +
      (if Working(s, e).Some? && Step(cfg, s, e).0.input.None? then [Working(s, e).value] else [])
  }

  function Open(s: State): seq<Record> {
    if s.out.Some? then s.out.value else []
  }

  // The chunks of consecutive frames, numbered from zero modulo 2^16.
  function Numbered(segs: seq<seq<Piece>>): seq<Record> {
    if segs == [] then []
    else Numbered(segs[..|segs| - 1]) + Tag((|segs| - 1) % 0x1_0000, segs[|segs| - 1])
  }

  // The chunks written so far are those of the finished frames, then cur.
  ghost predicate Written(cfg: Config, rs: seq<Record>, frames: seq<seq<Byte>>, frameId: U16, segs: seq<seq<Piece>>, cur: seq<Piece>)
    requires cfg.Ok()
  {
    && rs == Numbered(segs) + Tag(frameId, cur)
    && |segs| == |frames| && frameId == |segs| % 0x1_0000
    && forall i :: 0 <= i < |segs| ==> Whole(segs[i], frames[i]) && CountBound(cfg, segs[i], frames[i])
  }

  // The whole stream of a run, up to what is written of an unfinished frame.
  ghost predicate Shaped(cfg: Config, h: seq<Event>, segs: seq<seq<Piece>>, cur: seq<Piece>)
    requires cfg.Ok() && Legal(cfg, h)
  {
    && Written(cfg, Sent(cfg, h) + Open(Final(cfg, h)), Frames(cfg, h), Final(cfg, h).frameId, segs, cur)
    && Progress(cfg, Final(cfg, h).input, cur) && (cur != [] ==> Final(cfg, h).out.None?)
  }

  lemma TagConcat(id: U16, a: seq<Piece>, b: seq<Piece>)
    ensures Tag(id, a + b) == Tag(id, a) + Tag(id, b)
  {
  }

  lemma NumberedSnoc(segs: seq<seq<Piece>>, seg: seq<Piece>)
    ensures Numbered(segs + [seg]) == Numbered(segs) + Tag(|segs| % 0x1_0000, seg)
  {
    assert (segs + [seg])[..|segs|] == segs;
  }

  lemma WrittenMore(cfg: Config, rs: seq<Record>, frames: seq<seq<Byte>>, id: U16, segs: seq<seq<Piece>>, cur: seq<Piece>, ps: seq<Piece>)
    requires cfg.Ok() && Written(cfg, rs, frames, id, segs, cur)
    ensures Written(cfg, rs + Tag(id, ps), frames, id, segs, cur + ps)
  {
    TagConcat(id, cur, ps);
    Assoc(Numbered(segs), Tag(id, cur), Tag(id, ps));
  }

  lemma WrittenFrame(cfg: Config, rs: seq<Record>, frames: seq<seq<Byte>>, id: U16, segs: seq<seq<Piece>>, cur: seq<Piece>, frame: seq<Byte>)
    requires cfg.Ok() && Written(cfg, rs, frames, id, segs, cur)
    requires Whole(cur, frame) && CountBound(cfg, cur, frame)
    ensures Written(cfg, rs, frames + [frame], (id + 1) % 0x1_0000, segs + [cur], [])
  {
    NumberedSnoc(segs, cur);
    EmptyUnits(Numbered(segs + [cur]), []);
    assert Tag((id + 1) % 0x1_0000, []) == [];
    NextNumber(|segs|);
    AllWhole(cfg, segs, frames, cur, frame);
  }

  lemma NextNumber(n: nat)
    ensures (n % 0x1_0000 + 1) % 0x1_0000 == (n + 1) % 0x1_0000
  {
  }

  lemma AllWhole(cfg: Config, segs: seq<seq<Piece>>, frames: seq<seq<Byte>>, cur: seq<Piece>, frame: seq<Byte>)
    requires cfg.Ok() && |segs| == |frames| && Whole(cur, frame) && CountBound(cfg, cur, frame)
    requires forall i :: 0 <= i < |segs| ==> Whole(segs[i], frames[i]) && CountBound(cfg, segs[i], frames[i])
    ensures var s, f := segs + [cur], frames + [frame]; forall i :: 0 <= i < |s| ==> Whole(s[i], f[i]) && CountBound(cfg, s[i], f[i])
  {
    var s, f := segs + [cur], frames + [frame];
    forall i | 0 <= i < |s| ensures Whole(s[i], f[i]) && CountBound(cfg, s[i], f[i]) {
      if i < |segs| {
        assert s[i] == segs[i] && f[i] == frames[i];
      }
    }
  }

  // write_chunks moves the whole stream forward by the chunks of one pass.
  lemma WriteStep(cfg: Config, t: State, rs: seq<Record>, frames: seq<seq<Byte>>, segs: seq<seq<Piece>>, cur: seq<Piece>, pass: Pass, t': State)
    returns (segs': seq<seq<Piece>>, cur': seq<Piece>)
    requires cfg.Ok() && t.input.Some? && t.out.Some?
    requires t.input.value.used <= |t.input.value.frame| && cfg.Room(t.outUsed) > 0
    requires cur == [] || t.outUsed == 0
    requires Written(cfg, rs, frames, t.frameId, segs, cur) && Progress(cfg, t.input, cur)
    requires pass == Emit(cfg, t.input.value.frame, t.input.value.used, t.outUsed) && WritesTo(cfg, t, pass, t')
    ensures
      && Written(cfg, rs + Tag(t.frameId, pass.pieces), if t'.input.None? then frames + [t.input.value.frame] else frames, t'.frameId, segs', cur')
      && Progress(cfg, t'.input, cur')
      && (cur' != [] ==> t'.out.None?)
  {
    var job := t.input.value;
    var now, all := cur + pass.pieces, rs + Tag(t.frameId, pass.pieces);
    PassProgress(cfg, job, t.outUsed, cur, pass);
    WrittenMore(cfg, rs, frames, t.frameId, segs, cur, pass.pieces);
    segs', cur' := AfterPass(cfg, job, t.frameId, all, frames, segs, now, pass);
  }

  // The frame is finished, or goes on.
  lemma AfterPass(cfg: Config, job: Job, id: U16, all: seq<Record>, frames: seq<seq<Byte>>, segs: seq<seq<Piece>>, now: seq<Piece>, pass: Pass)
    returns (segs': seq<seq<Piece>>, cur': seq<Piece>)
    requires cfg.Ok() && Written(cfg, all, frames, id, segs, now) && pass.used <= |job.frame|
    requires pass.used == |job.frame| ==> Whole(now, job.frame) && CountBound(cfg, now, job.frame)
    requires pass.used < |job.frame| ==> Progress(cfg, Some(Job(job.frame, pass.used)), now) && cfg.Room(pass.outUsed) <= 0
    ensures var done := pass.used == |job.frame|;
      && Written(cfg, all, if done then frames + [job.frame] else frames, if done then (id + 1) % 0x1_0000 else id, segs', cur')
      && Progress(cfg, if done then None else Some(Job(job.frame, pass.used)), cur')
      && (cur' != [] ==> cfg.Room(pass.outUsed) <= 0)
  {
    if pass.used == |job.frame| {
      WrittenFrame(cfg, all, frames, id, segs, now, job.frame);
      segs', cur' := segs + [now], [];
    } else {
      segs', cur' := segs, now;
    }
  }

  lemma WriteIs(cfg: Config, t: State, pass: Pass)
    requires cfg.Ok() && t.input.Some? && t.out.Some?
    requires t.input.value.used <= |t.input.value.frame| && cfg.Room(t.outUsed) > 0
    requires pass == Emit(cfg, t.input.value.frame, t.input.value.used, t.outUsed)
    ensures WritesTo(cfg, t, pass, Write(cfg, t).0)
  {
  }

  // Where a pass leaves the frame, its number and the packet.
  predicate WritesTo(cfg: Config, t: State, pass: Pass, t': State)
    requires t.input.Some?
  {
    var frame := t.input.value.frame;
    && t'.input == (if pass.used == |frame| then None else Some(Job(frame, pass.used)))
    && t'.frameId == (if pass.used == |frame| then (t.frameId + 1) % 0x1_0000 else t.frameId)
    && (t'.out.None? <==> cfg.Room(pass.outUsed) <= 0 || cfg.latency < 0)
  }

  /**
    Over every run without a frame cancelled half way, the chunks put into packets are,
    in order, those of the frames cut so far: each frame is tiled from 0 to its end under its own number, exactly
    its final chunk is marked last, and without a chunk limit it takes at most
    1 + ceil((n - 1) / (outputMtu - header)) chunks however full the packet was in
    which it started. What the timer or a full packet cuts off is only the packet.
   */
  lemma {:induction false} StreamShape(cfg: Config, h: seq<Event>) returns (segs: seq<seq<Piece>>, cur: seq<Piece>)
    requires cfg.Ok() && Legal(cfg, h) && HalfWays(cfg, h) == 0
    ensures Shaped(cfg, h, segs, cur)
  {
    if h == [] {
      segs, cur := [], [];
    } else {
      var front, e := h[..|h| - 1], h[|h| - 1];
      segs, cur := StreamShape(cfg, front);
      var s := Final(cfg, front);
      segs, cur := StreamStep(cfg, s, e, Sent(cfg, front), Frames(cfg, front), segs, cur);
    }
  }

  lemma StreamStep(cfg: Config, s: State, e: Event, sent: seq<Record>, frames: seq<seq<Byte>>, segs: seq<seq<Piece>>, cur: seq<Piece>)
    returns (segs': seq<seq<Piece>>, cur': seq<Piece>)
    requires cfg.Ok() && Inv(cfg, s) && Allowed(s, e) && !HalfWay(s, e)
    requires Written(cfg, sent + Open(s), frames, s.frameId, segs, cur)
    requires Progress(cfg, s.input, cur) && (cur != [] ==> s.out.None?)
    ensures var r := Step(cfg, s, e);
      && Written(cfg, sent + (if r.1.Some? then r.1.value else []) + Open(r.0),
                 frames + (if Working(s, e).Some? && r.0.input.None? then [Working(s, e).value] else []),
                 r.0.frameId, segs', cur')
      && Progress(cfg, r.0.input, cur') && (cur' != [] ==> r.0.out.None?)
  {
    var t := match e
      case Input(frame) => s.(input := Some(Job(frame, 0)))
      case Recv => s.(out := Some([]), outUsed := 0)
      case _ => s;
    if (e.Input? || e.Recv?) && t.input.Some? && t.out.Some? {
      assert Open(t) == Open(s);
      segs', cur' := StreamWrite(cfg, t, sent, frames, segs, cur);
    } else {
      segs', cur' := segs, cur;
      EmptyUnits(sent, Open(s));
      EmptyUnits(frames, []);
    }
  }

  lemma StreamWrite(cfg: Config, t: State, sent: seq<Record>, frames: seq<seq<Byte>>, segs: seq<seq<Piece>>, cur: seq<Piece>)
    returns (segs': seq<seq<Piece>>, cur': seq<Piece>)
    requires cfg.Ok() && t.input.Some? && t.out.Some?
    requires t.input.value.used <= |t.input.value.frame| && cfg.Room(t.outUsed) > 0
    requires cur == [] || t.outUsed == 0
    requires Written(cfg, sent + Open(t), frames, t.frameId, segs, cur) && Progress(cfg, t.input, cur)
    ensures var r := Write(cfg, t);
      && Written(cfg, sent + (if r.1.Some? then r.1.value else []) + Open(r.0),
                 frames + (if r.0.input.None? then [t.input.value.frame] else []), r.0.frameId, segs', cur')
      && Progress(cfg, r.0.input, cur') && (cur' != [] ==> r.0.out.None?)
  {
    var pass := Emit(cfg, t.input.value.frame, t.input.value.used, t.outUsed);
    WriteIs(cfg, t, pass);
    segs', cur' := WriteStep(cfg, t, sent + Open(t), frames, segs, cur, pass, Write(cfg, t).0);
    Assoc(sent, Open(t), Tag(t.frameId, pass.pieces));
    EmptyUnits(sent, Open(t) + Tag(t.frameId, pass.pieces));
    EmptyUnits(frames, []);
  }

  lemma Extend(cfg: Config, h: seq<Event>, e: Event)
    requires cfg.Ok() && Legal(cfg, h) && Allowed(Final(cfg, h), e)
    ensures Legal(cfg, h + [e])
    ensures var s := Final(cfg, h); var r := Step(cfg, s, e);
      && Final(cfg, h + [e]) == r.0
      && Sent(cfg, h + [e]) == Sent(cfg, h) + (if r.1.Some? then r.1.value else [])
      && Frames(cfg, h + [e]) == Frames(cfg, h) + (if Working(s, e).Some? && r.0.input.None? then [Working(s, e).value] else [])
      && HalfWays(cfg, h + [e]) == HalfWays(cfg, h) + (if HalfWay(s, e) then 1 else 0)
  {
    assert (h + [e])[..|h + [e]| - 1] == h;
  }

  // ----- the converse: frames, counted by their first chunks

  function Firsts(rs: seq<Record>): nat {
    if rs == [] then 0 else Firsts(rs[..|rs| - 1]) + if rs[|rs| - 1].piece.start == 0 then 1 else 0
  }

  lemma {:induction false} FirstsConcat(a: seq<Record>, b: seq<Record>)
    ensures Firsts(a + b) == Firsts(a) + Firsts(b)
  {
    if b == [] {
      assert a + b == a;
    } else {
      var front := b[..|b| - 1];
      FirstsConcat(a, front);
      assert (a + b)[..|a + b| - 1] == a + front;
    }
  }

  lemma FirstsOne(id: U16, p: Piece)
    ensures Tag(id, [p]) == [Record(id, p)]
    ensures Firsts([Record(id, p)]) == if p.start == 0 then 1 else 0
  {
    assert [Record(id, p)][..0] == [];
  }

  // A pass writes a first chunk exactly if it starts at the beginning of the frame.
  lemma {:induction false} EmitFirsts(cfg: Config, id: U16, frame: seq<Byte>, used: nat, outUsed: nat, r: Pass)
    requires cfg.Ok() && used <= |frame| && cfg.Room(outUsed) > 0 && r == Emit(cfg, frame, used, outUsed)
    ensures Firsts(Tag(id, r.pieces)) == (if used == 0 then 1 else 0)
    ensures r.used < |frame| ==> r.used > used
    decreases |frame| - used
  {
    var n := cfg.ChunkLen(|frame| - used, cfg.Room(outUsed));
    var p := Piece(used, frame[used..used + n], n == |frame| - used);
    FirstsOne(id, p);
    if used + n < |frame| && cfg.Room(outUsed + HEADER + n) > 0 {
      var rest := Emit(cfg, frame, used + n, outUsed + HEADER + n);
      EmitMore(cfg, frame, used, outUsed, n);
      EmitFirsts(cfg, id, frame, used + n, outUsed + HEADER + n, rest);
      TagCons(id, p, rest.pieces);
      FirstsConcat([Record(id, p)], Tag(id, rest.pieces));
    }
  }

  lemma {:induction false} TilingFirsts(id: U16, ps: seq<Piece>, f: seq<Byte>, n: nat)
    requires Tiling(ps, f, n)
    ensures Firsts(Tag(id, ps)) == if ps == [] then 0 else 1
  {
    if ps != [] {
      var front, q := ps[..|ps| - 1], ps[|ps| - 1];
      TilingFirsts(id, front, f, q.start);
      assert ps == front + [q];
      TagConcat(id, front, [q]);
      FirstsConcat(Tag(id, front), Tag(id, [q]));
      FirstsOne(id, q);
      TilingStarted(front, f, q.start);
    }
  }

  // A tiling is empty only at the start of a frame that is not empty.
  lemma TilingStarted(ps: seq<Piece>, f: seq<Byte>, n: nat)
    requires Tiling(ps, f, n)
    ensures ps == [] ==> n == 0
    ensures ps != [] ==> n > 0 || |f| == 0
  {
  }

  lemma {:induction false} NumberedFirsts(cfg: Config, segs: seq<seq<Piece>>, frames: seq<seq<Byte>>)
    requires cfg.Ok() && |segs| == |frames| && forall i :: 0 <= i < |segs| ==> Whole(segs[i], frames[i])
    ensures Firsts(Numbered(segs)) == |segs|
  {
    if segs != [] {
      var k := |segs| - 1;
      NumberedFirsts(cfg, segs[..k], frames[..k]);
      FirstsConcat(Numbered(segs[..k]), Tag(k % 0x1_0000, segs[k]));
      TilingFirsts(k % 0x1_0000, segs[k], frames[k], |frames[k]|);
    }
  }

  // One more for a frame that is partly written.
  function Begun(s: State): nat {
    if s.input.Some? && s.input.value.used > 0 then 1 else 0
  }

  // A stream of the right shape has one first chunk for each frame.
  lemma ShapedFirsts(cfg: Config, h: seq<Event>, segs: seq<seq<Piece>>, cur: seq<Piece>)
    requires cfg.Ok() && Legal(cfg, h) && Shaped(cfg, h, segs, cur)
    ensures Firsts(Sent(cfg, h) + Open(Final(cfg, h))) == |Frames(cfg, h)| + Begun(Final(cfg, h))
  {
    var s := Final(cfg, h);
    FirstsConcat(Numbered(segs), Tag(s.frameId, cur));
    NumberedFirsts(cfg, segs, Frames(cfg, h));
    if s.input.Some? {
      TilingFirsts(s.frameId, cur, s.input.value.frame, s.input.value.used);
      TilingStarted(cur, s.input.value.frame, s.input.value.used);
    }
  }

  lemma FirstsStep(cfg: Config, s: State, e: Event, sent: seq<Record>)
    requires cfg.Ok() && Inv(cfg, s) && Allowed(s, e)
    ensures var r := Step(cfg, s, e);
      Firsts(sent + (if r.1.Some? then r.1.value else []) + Open(r.0)) + Begun(s)
      == Firsts(sent + Open(s)) + (if Working(s, e).Some? && r.0.input.None? then 1 else 0) + (if HalfWay(s, e) then 1 else 0) + Begun(r.0)
  {
    var t := match e
      case Input(frame) => s.(input := Some(Job(frame, 0)))
      case Recv => s.(out := Some([]), outUsed := 0)
      case _ => s;
    if (e.Input? || e.Recv?) && t.input.Some? && t.out.Some? {
      assert Open(t) == Open(s) && Begun(t) == Begun(s);
      FirstsWrite(cfg, t, sent);
    } else {
      EmptyUnits(sent, Open(s));
    }
  }

  lemma FirstsWrite(cfg: Config, t: State, sent: seq<Record>)
    requires cfg.Ok() && t.input.Some? && t.out.Some?
    requires t.input.value.used <= |t.input.value.frame| && cfg.Room(t.outUsed) > 0
    ensures var r := Write(cfg, t);
      Firsts(sent + (if r.1.Some? then r.1.value else []) + Open(r.0)) + Begun(t)
      == Firsts(sent + Open(t)) + (if r.0.input.None? then 1 else 0) + Begun(r.0)
  {
    var job := t.input.value;
    var pass := Emit(cfg, job.frame, job.used, t.outUsed);
    var tagged := Tag(t.frameId, pass.pieces);
    EmitFirsts(cfg, t.frameId, job.frame, job.used, t.outUsed, pass);
    WriteIs(cfg, t, pass);
    Assoc(sent, Open(t), tagged);
    EmptyUnits(sent, Open(t) + tagged);
    FirstsConcat(sent + Open(t), tagged);
  }

  // In any run every frame begun counts once: finished, under way, or cancelled half way.
  lemma {:induction false} FirstsCount(cfg: Config, h: seq<Event>)
    requires cfg.Ok() && Legal(cfg, h)
    ensures Firsts(Sent(cfg, h) + Open(Final(cfg, h))) == |Frames(cfg, h)| + HalfWays(cfg, h) + Begun(Final(cfg, h))
  {
    if h != [] {
      FirstsCount(cfg, h[..|h| - 1]);
      FirstsStep(cfg, Final(cfg, h[..|h| - 1]), h[|h| - 1], Sent(cfg, h[..|h| - 1]));
    }
  }

  /**
    Exactly when the stream is that of whole frames, each under its own number: if and
    only if no frame was cancelled after the first of its chunks had been written.
   */
  lemma StreamShapeExactly(cfg: Config, h: seq<Event>)
    requires cfg.Ok() && Legal(cfg, h)
    ensures (exists segs, cur :: Shaped(cfg, h, segs, cur)) <==> HalfWays(cfg, h) == 0
  {
    FirstsCount(cfg, h);
    if HalfWays(cfg, h) == 0 {
      var segs, cur := StreamShape(cfg, h);
    } else {
      forall segs, cur | Shaped(cfg, h, segs, cur) ensures false {
        ShapedFirsts(cfg, h, segs, cur);
      }
    }
  }
}
