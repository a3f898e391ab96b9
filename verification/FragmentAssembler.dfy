/**
  The assembler object: a fixed pool of frame entries kept in a free and a used
  list, an index from frame id to entry, and a packet clock. Its methods are proved
  to do what FragmentAssembly describes.
 */
module FragmentAssembler {
  import opened Bytes
  import opened Lists
  import opened FragmentPieces
  import opened A = FragmentAssembly
  import W = FragmentWire

  datatype Chunk = Chunk(start: nat, len: nat)

  // struct FragmentProtoAssembler_frame
  datatype Entry = Entry(
    id: U16, time: nat, chunks: seq<Chunk>, sum: nat, length: int, lengthSoFar: nat, buffer: seq<Byte>)

  // ----- one entry

  function Chunks(ps: seq<Piece>): (cs: seq<Chunk>)
    ensures |cs| == |ps|
  {
    if ps == [] then []
    else Chunks(ps[..|ps| - 1]) + [Chunk(ps[|ps| - 1].start, |ps[|ps| - 1].data|)]
  }

  // The buffer holds the bytes of all the pieces.
  ghost predicate Holds(b: seq<Byte>, ps: seq<Piece>) {
    ps == [] ||
    var q := ps[|ps| - 1];
    q.End() <= |b| && b[q.start..q.End()] == q.data && Holds(b, ps[..|ps| - 1])
  }

  // What an entry's fields record of the chunks accepted since it was allocated.
  ghost predicate Records(cfg: Config, e: Entry, ps: seq<Piece>) {
    && e.chunks == Chunks(ps)
    && e.sum == Sum(ps)
    && e.length == Length(ps)
    && (e.length < 0 ==> e.lengthSoFar == MaxEnd(ps))
    && |e.buffer| == cfg.mtu
    && Holds(e.buffer, ps)
  }

  lemma {:induction false} ChunkAt(ps: seq<Piece>, i: nat)
    requires i < |ps|
    ensures Chunks(ps)[i] == Chunk(ps[i].start, |ps[i].data|)
  {
    if i < |ps| - 1 {
      ChunkAt(ps[..|ps| - 1], i);
    }
  }

  lemma {:induction false} HeldAt(b: seq<Byte>, ps: seq<Piece>, i: nat)
    requires Holds(b, ps) && i < |ps|
    ensures ps[i].End() <= |b| && b[ps[i].start..ps[i].End()] == ps[i].data
  {
    if i < |ps| - 1 {
      HeldAt(b, ps[..|ps| - 1], i);
    }
  }

  lemma PatchElsewhere(b: seq<Byte>, at: nat, data: seq<Byte>, lo: nat, hi: nat)
    requires at + |data| <= |b| && lo <= hi <= |b| && !(hi > at && at + |data| > lo)
    ensures Overwrite(b, at, data)[lo..hi] == b[lo..hi]
    ensures Overwrite(b, at, data)[at..at + |data|] == data
  {
  }

  // Writing a piece that overlaps no other leaves what is there.
  lemma {:induction false} HoldsPatched(b: seq<Byte>, ps: seq<Piece>, p: Piece)
    requires Holds(b, ps) && p.End() <= |b|
    requires forall i :: 0 <= i < |ps| ==> !Overlap(ps[i], p)
    ensures Holds(Overwrite(b, p.start, p.data), ps)
  {
    if ps != [] {
      HoldsPatched(b, ps[..|ps| - 1], p);
      assert !Overlap(ps[|ps| - 1], p);
      PatchElsewhere(b, p.start, p.data, ps[|ps| - 1].start, ps[|ps| - 1].End());
    }
  }

  lemma HoldsAppend(b: seq<Byte>, ps: seq<Piece>, p: Piece)
    requires Holds(b, ps) && p.End() <= |b|
    requires forall i :: 0 <= i < |ps| ==> !Overlap(ps[i], p)
    ensures Holds(Overwrite(b, p.start, p.data), ps + [p])
    ensures Chunks(ps + [p]) == Chunks(ps) + [Chunk(p.start, |p.data|)]
  {
    HoldsPatched(b, ps, p);
    PatchElsewhere(b, p.start, p.data, 0, 0);
    assert (ps + [p])[..|ps|] == ps;
  }

  lemma AppendPiece(ps: seq<Piece>, p: Piece)
    ensures Sum(ps + [p]) == Sum(ps) + |p.data|
    ensures Length(ps + [p]) == if p.last then p.End() else Length(ps)
    ensures MaxEnd(ps + [p]) == if MaxEnd(ps) < p.End() then p.End() else MaxEnd(ps)
  {
    assert (ps + [p])[..|ps|] == ps;
  }

  // Adding a chunk that fits keeps the fields of an entry true to its chunks.
  method WithChunk(cfg: Config, e: Entry, ghost ps: seq<Piece>, now: nat, start: nat, payload: seq<Byte>, isLast: bool)
    returns (e': Entry)
    requires Records(cfg, e, ps) && Fits(ps, Piece(start, payload, isLast)) && start + |payload| <= cfg.mtu
    ensures Records(cfg, e', ps + [Piece(start, payload, isLast)])
    ensures e'.id == e.id && e'.time == now
  {
    var end := start + |payload|;
    e' := e.(time := now, chunks := e.chunks + [Chunk(start, |payload|)], sum := e.sum + |payload|);
    if isLast {
      e' := e'.(length := end);
    } else if e'.length < 0 && e'.lengthSoFar < end {
      e' := e'.(lengthSoFar := end);
    }
    e' := e'.(buffer := Overwrite(e.buffer, start, payload));
    AppendPiece(ps, Piece(start, payload, isLast));
    HoldsAppend(e.buffer, ps, Piece(start, payload, isLast));
  }

  // The checks process_chunk makes on a chunk before adding it.
  method CheckChunk(cfg: Config, e: Entry, ghost ps: seq<Piece>, start: nat, payload: seq<Byte>, isLast: bool)
    returns (ok: bool)
    requires Records(cfg, e, ps)
    ensures ok == Fits(ps, Piece(start, payload, isLast))
  {
    ghost var p := Piece(start, payload, isLast);
    for i := 0 to |e.chunks|
      invariant forall j :: 0 <= j < i ==> !Overlap(ps[j], p)
    {
      ChunkAt(ps, i);
      if e.chunks[i].start + e.chunks[i].len > start && start + |payload| > e.chunks[i].start {
        assert Overlap(ps[i], p);
        return false;
      }
    }
    if isLast {
      ok := e.length < 0 && e.lengthSoFar <= start + |payload|;
    } else {
      ok := e.length < 0 || start + |payload| <= e.length;
    }
  }

  // When the lengths of the chunks add up to the frame's, they are equal (the
  // source asserts it) and the buffer holds the frame.
  lemma BufferJoins(cfg: Config, e: Entry, ps: seq<Piece>)
    requires Records(cfg, e, ps) && Consistent(ps) && Complete(ps)
    ensures e.sum == e.length <= cfg.mtu
    ensures e.buffer[..e.length] == Join(ps)
  {
    CompleteSpells(ps);
    var last :| 0 <= last < |ps| && ps[last].last;
    LengthOfLast(ps, last);
    HeldAt(e.buffer, ps, last);
    forall k | 0 <= k < e.length ensures e.buffer[k] == ByteAt(ps, k) {
      BufferByte(e.buffer, ps, k);
    }
  }

  lemma BufferByte(b: seq<Byte>, ps: seq<Piece>, k: nat)
    requires Holds(b, ps) && Disjoint(ps) && Covered(ps, k) && k < |b|
    ensures b[k] == ByteAt(ps, k)
  {
    var i :| 0 <= i < |ps| && ps[i].Has(k);
    ByteAtPiece(ps, i, k);
    HeldAt(b, ps, i);
    assert b[ps[i].start..ps[i].End()][k - ps[i].start] == b[k];
  }

  // ----- the pool

  // The entries of the pool, each once.
  ghost function Entries(n: nat): multiset<nat> {
    if n == 0 then multiset{} else Entries(n - 1) + multiset{n - 1}
  }

  lemma {:induction false} EntriesOnce(n: nat, k: nat)
    ensures Entries(n)[k] == if k < n then 1 else 0
    ensures |Entries(n)| == n
  {
    if n > 0 {
      EntriesOnce(n - 1, k);
    }
  }

  // What the two lists say when together they hold each entry of the pool once.
  lemma Partition(n: nat, used: seq<nat>, free: seq<nat>)
    requires multiset(used) + multiset(free) == Entries(n)
    ensures NoDup(used) && |used| + |free| == n
    ensures forall k :: k in used ==> k < n && k !in free
    ensures forall k :: k in free ==> k < n && k !in used
  {
    EntriesOnce(n, 0);
    assert |multiset(used)| == |used| && |multiset(free)| == |free|;
    forall k | k in used || k in free ensures k < n && !(k in used && k in free) {
      EntriesOnce(n, k);
      assert k in used <==> multiset(used)[k] > 0;
      assert k in free <==> multiset(free)[k] > 0;
    }
    forall i, j | 0 <= i < j < |used| ensures used[i] != used[j] {
      if used[i] == used[j] {
        assert used == used[..j] + used[j..];
        assert used[..j][i] == used[i] && used[j..][0] == used[j];
        EntriesOnce(n, used[i]);
      }
    }
  }

  lemma UsedAt(n: nat, used: seq<nat>, free: seq<nat>, i: nat)
    requires multiset(used) + multiset(free) == Entries(n) && i < |used|
    ensures used[i] < n && IndexOf(used, used[i]) == i && used[i] in used
  {
    assert used[i] in used;
    Partition(n, used, free);
  }

  lemma UsedIn(n: nat, used: seq<nat>, free: seq<nat>, k: nat)
    requires multiset(used) + multiset(free) == Entries(n) && k in used
    ensures k < n
  {
    Partition(n, used, free);
  }

  lemma FreeIn(n: nat, used: seq<nat>, free: seq<nat>, k: nat)
    requires multiset(used) + multiset(free) == Entries(n) && k in free
    ensures k < n
  {
    Partition(n, used, free);
  }

  // The id tree: what inserting the used entries one by one gives.
  ghost function TreeOf(used: seq<nat>, es: seq<Entry>): map<U16, nat> {
    if used == [] then map[]
    else
      var k := used[|used| - 1];
      if k < |es| then TreeOf(used[..|used| - 1], es)[es[k].id := k] else TreeOf(used[..|used| - 1], es)
  }

  ghost function SlotAt(es: seq<Entry>, held: seq<seq<Piece>>, k: nat): Slot {
    if k < |es| && k < |held| then Slot(es[k].id, es[k].time, held[k]) else Slot(0, 0, [])
  }

  // The frames under way, as the protocol sees them.
  ghost function View(used: seq<nat>, es: seq<Entry>, held: seq<seq<Piece>>): (live: seq<Slot>)
    ensures |live| == |used|
    ensures forall i :: 0 <= i < |used| ==> live[i] == SlotAt(es, held, used[i])
  {
    seq(|used|, i requires 0 <= i < |used| => SlotAt(es, held, used[i]))
  }

  // Used and free list share out the pool, the id tree indexes exactly the used
  // entries, no two of which have the same id, and every entry is true to its chunks.
  ghost predicate PoolOk(
    cfg: Config, es: seq<Entry>, held: seq<seq<Piece>>, used: seq<nat>, free: seq<nat>, tree: map<U16, nat>)
  {
    && cfg.Ok() && |es| == |held| == cfg.numFrames
    && multiset(used) + multiset(free) == Entries(cfg.numFrames)
    && tree == TreeOf(used, es) && |tree| == |used|
    && (forall k {:trigger Records(cfg, es[k], held[k])} :: 0 <= k < |es| ==> Records(cfg, es[k], held[k]))
  }

  lemma {:induction false} TreeSize(used: seq<nat>, es: seq<Entry>)
    ensures |TreeOf(used, es)| <= |used|
  {
    if used != [] {
      TreeSize(used[..|used| - 1], es);
    }
  }

  lemma {:induction false} TreeHas(used: seq<nat>, es: seq<Entry>, i: nat)
    requires |TreeOf(used, es)| == |used| && i < |used| && used[i] < |es|
    ensures es[used[i]].id in TreeOf(used, es) && TreeOf(used, es)[es[used[i]].id] == used[i]
  {
    var front, k := used[..|used| - 1], used[|used| - 1];
    TreeSize(front, es);
    if i < |front| {
      TreeHas(front, es, i);
      if k < |es| {
        assert TreeOf(used, es) == TreeOf(front, es)[es[k].id := k];
        assert es[k].id !in TreeOf(front, es);
      }
    }
  }

  lemma {:induction false} TreeOnly(used: seq<nat>, es: seq<Entry>, id: U16)
    requires id in TreeOf(used, es)
    ensures TreeOf(used, es)[id] in used && TreeOf(used, es)[id] < |es| && es[TreeOf(used, es)[id]].id == id
  {
    var front, k := used[..|used| - 1], used[|used| - 1];
    if !(k < |es| && es[k].id == id) {
      TreeOnly(front, es, id);
      assert TreeOf(used, es)[id] in front;
    }
  }

  // The id tree finds the entry the list of frames under way has for the id.
  lemma TreeFinds(es: seq<Entry>, held: seq<seq<Piece>>, used: seq<nat>, id: U16)
    requires |es| == |held| && NoDup(used) && |TreeOf(used, es)| == |used|
    requires forall k :: k in used ==> k < |es|
    ensures Find(View(used, es, held), id) == if id in TreeOf(used, es) then IndexOf(used, TreeOf(used, es)[id]) else |used|
  {
    var i := Find(View(used, es, held), id);
    if i < |used| {
      assert used[i] in used;
      TreeHas(used, es, i);
    } else if id in TreeOf(used, es) {
      TreeOnly(used, es, id);
    }
  }

  lemma TreeSnoc(used: seq<nat>, es: seq<Entry>, k: nat)
    requires k < |es|
    ensures TreeOf(used + [k], es) == TreeOf(used, es)[es[k].id := k]
  {
    assert (used + [k])[..|used|] == used;
  }

  // When every used entry has an id of its own, so have all but the last.
  lemma TreeFront(used: seq<nat>, es: seq<Entry>)
    requires used != [] && |TreeOf(used, es)| == |used| && used[|used| - 1] < |es|
    ensures var front, k := used[..|used| - 1], used[|used| - 1];
      && |TreeOf(front, es)| == |front| && es[k].id !in TreeOf(front, es)
      && TreeOf(used, es) == TreeOf(front, es)[es[k].id := k] && used == front + [k]
  {
    var front, k := used[..|used| - 1], used[|used| - 1];
    TreeSize(front, es);
    assert TreeOf(used, es).Keys == TreeOf(front, es).Keys + {es[k].id};
  }

  lemma {:induction false} TreeRemove(used: seq<nat>, es: seq<Entry>, i: nat)
    requires |TreeOf(used, es)| == |used| && i < |used| && forall j :: 0 <= j < |used| ==> used[j] < |es|
    ensures TreeOf(RemoveAt(used, i), es) == TreeOf(used, es) - {es[used[i]].id}
  {
    var front, k := used[..|used| - 1], used[|used| - 1];
    TreeFront(used, es);
    if i == |used| - 1 {
      assert RemoveAt(used, i) == front;
      RemoveNew(TreeOf(front, es), es[k].id, k);
    } else {
      TreeRemove(front, es, i);
      TreeHas(front, es, i);
      assert RemoveAt(used, i) == RemoveAt(front, i) + [k];
      TreeSnoc(RemoveAt(front, i), es, k);
      UpdateElsewhere(TreeOf(front, es), es[used[i]].id, es[k].id, k);
    }
  }

  lemma RemoveNew(m: map<U16, nat>, id: U16, v: nat)
    requires id !in m
    ensures m[id := v] - {id} == m
  {
  }

  lemma UpdateElsewhere(m: map<U16, nat>, a: U16, b: U16, v: nat)
    requires a != b
    ensures (m - {a})[b := v] == m[b := v] - {a}
  {
  }

  lemma RemoveSize(m: map<U16, nat>, id: U16)
    requires id in m
    ensures |m - {id}| == |m| - 1
  {
    assert m == (m - {id})[id := m[id]];
  }

  lemma MoveToBack(a: seq<nat>, b: seq<nat>, i: nat)
    requires i < |a|
    ensures multiset(RemoveAt(a, i)) + multiset(b + [a[i]]) == multiset(a) + multiset(b)
  {
    assert a == a[..i] + [a[i]] + a[i + 1..];
  }

  lemma ViewRemoveAt(used: seq<nat>, es: seq<Entry>, held: seq<seq<Piece>>, i: nat)
    requires i < |used|
    ensures View(RemoveAt(used, i), es, held) == RemoveAt(View(used, es, held), i)
  {
  }

  // Moving an entry from the used to the free list.
  lemma FreeKeeps(cfg: Config, es: seq<Entry>, held: seq<seq<Piece>>, used: seq<nat>, free: seq<nat>, tree: map<U16, nat>, i: nat)
    requires PoolOk(cfg, es, held, used, free, tree) && i < |used| && used[i] < |es|
    ensures PoolOk(cfg, es, held, RemoveAt(used, i), free + [used[i]], tree - {es[used[i]].id})
  {
    Partition(cfg.numFrames, used, free);
    forall j | 0 <= j < |used| ensures used[j] < |es| {
      assert used[j] in used;
    }
    TreeRemove(used, es, i);
    TreeHas(used, es, i);
    RemoveSize(tree, es[used[i]].id);
    MoveToBack(used, free, i);
  }

  lemma {:induction false} TreeOther(used: seq<nat>, es: seq<Entry>, k: nat, e: Entry)
    requires k < |es| && (k !in used || e.id == es[k].id)
    ensures TreeOf(used, es[k := e]) == TreeOf(used, es)
  {
    if used != [] {
      assert used[|used| - 1] in used;
      assert forall j :: j in used[..|used| - 1] ==> j in used;
      TreeOther(used[..|used| - 1], es, k, e);
    }
  }

  lemma TakeFront(a: seq<nat>, b: seq<nat>)
    requires b != []
    ensures multiset(a + [b[0]]) + multiset(b[1..]) == multiset(a) + multiset(b)
  {
    assert b == [b[0]] + b[1..];
  }

  lemma ViewTake(used: seq<nat>, es: seq<Entry>, held: seq<seq<Piece>>, k: nat, e: Entry)
    requires k < |es| == |held| && k !in used
    ensures View(used + [k], es[k := e], held[k := []]) == View(used, es, held) + [Slot(e.id, e.time, [])]
  {
    forall i | 0 <= i < |used| ensures used[i] != k {
      assert used[i] in used;
    }
  }

  // No entry is free exactly when all are used.
  lemma WhenFull(n: nat, used: seq<nat>, free: seq<nat>)
    requires multiset(used) + multiset(free) == Entries(n) && n > 0
    ensures |used| <= n && (free == [] <==> |used| == n) && (free == [] ==> used != [] && IndexOf(used, used[0]) == 0)
  {
    Partition(n, used, free);
  }

  // An entry set up for a new frame.
  function Fresh(e: Entry, id: U16, now: nat): Entry {
    e.(id := id, time := now, chunks := [], sum := 0, length := -1, lengthSoFar := 0)
  }

  // Moving the first free entry to the used list.
  lemma TakeKeeps(cfg: Config, es: seq<Entry>, held: seq<seq<Piece>>, used: seq<nat>, free: seq<nat>, tree: map<U16, nat>,
                  id: U16, now: nat, k: nat, es': seq<Entry>, held': seq<seq<Piece>>, used': seq<nat>, free': seq<nat>, tree': map<U16, nat>)
    requires PoolOk(cfg, es, held, used, free, tree) && free != [] && id !in tree && k == free[0]
    requires k < |es| && es' == es[k := Fresh(es[k], id, now)] && held' == held[k := []]
    requires used' == used + [k] && free' == free[1..] && tree' == tree[id := k]
    ensures PoolOk(cfg, es', held', used', free', tree')
    ensures View(used', es', held') == View(used, es, held) + [Slot(id, now, [])] && k !in used
  {
    assert k in free;
    Partition(cfg.numFrames, used, free);
    var e := Fresh(es[k], id, now);
    assert Records(cfg, es[k], held[k]);
    assert Records(cfg, e, []);
    TreeOther(used, es, k, e);
    TreeSnoc(used, es', k);
    TakeFront(used, free);
    ViewTake(used, es, held, k, e);
    TakeRecords(cfg, es, held, k, e, es', held');
  }

  lemma TakeRecords(cfg: Config, es: seq<Entry>, held: seq<seq<Piece>>, k: nat, e: Entry, es': seq<Entry>, held': seq<seq<Piece>>)
    requires |es| == |held| && k < |es| && es' == es[k := e] && held' == held[k := []] && Records(cfg, e, [])
    requires forall j {:trigger Records(cfg, es[j], held[j])} :: 0 <= j < |es| ==> Records(cfg, es[j], held[j])
    ensures forall j {:trigger Records(cfg, es'[j], held'[j])} :: 0 <= j < |es'| ==> Records(cfg, es'[j], held'[j])
  {
    forall j | 0 <= j < |es'| ensures Records(cfg, es'[j], held'[j]) {
      if j != k { assert Records(cfg, es[j], held[j]); }
    }
  }

  // Changing an entry but for its id.
  lemma PutKeeps(cfg: Config, es: seq<Entry>, held: seq<seq<Piece>>, used: seq<nat>, free: seq<nat>, tree: map<U16, nat>,
                 i: nat, e: Entry, ps: seq<Piece>)
    requires PoolOk(cfg, es, held, used, free, tree) && i < |used| && used[i] < |es|
    requires Records(cfg, e, ps) && e.id == es[used[i]].id
    ensures PoolOk(cfg, es[used[i] := e], held[used[i] := ps], used, free, tree)
    ensures View(used, es[used[i] := e], held[used[i] := ps]) == View(used, es, held)[i := Slot(e.id, e.time, ps)]
  {
    Partition(cfg.numFrames, used, free);
    TreeOther(used, es, used[i], e);
  }

  // Making a frame earlier.
  lemma ShiftKeeps(cfg: Config, es: seq<Entry>, held: seq<seq<Piece>>, used: seq<nat>, free: seq<nat>, tree: map<U16, nat>,
                   i: nat, d: nat, es': seq<Entry>)
    requires PoolOk(cfg, es, held, used, free, tree) && i < |used| && used[i] < |es| && d <= es[used[i]].time
    requires es' == es[used[i] := es[used[i]].(time := es[used[i]].time - d)]
    ensures PoolOk(cfg, es', held, used, free, tree)
    ensures var live := View(used, es, held); View(used, es', held) == live[i := live[i].(time := es[used[i]].time - d)]
  {
    var k := used[i];
    assert Records(cfg, es[k], held[k]);
    PutKeeps(cfg, es, held, used, free, tree, i, es'[k], held[k]);
    assert held[k := held[k]] == held;
  }

  // What one turn of the loop over the frames achieves.
  lemma Visited(cfg: Config, now: nat, live: seq<Slot>, i: nat, min: Option<nat>, live': seq<Slot>, min': Option<nat>)
    requires i < |live| && IsMin(live, i, min) && forall j :: 0 <= j < i ==> !TimedOut(cfg, now, live[j])
    requires var out := TimedOut(cfg, now, live[i]); var t := live[i].time;
      && live' == (if out then RemoveAt(live, i) else live)
      && min' == (if out then min else if min.None? || t < min.value then Some(t) else min)
    ensures var i' := if TimedOut(cfg, now, live[i]) then i else i + 1;
      && i' <= |live'| && IsMin(live', i', min') && forall j :: 0 <= j < i' ==> !TimedOut(cfg, now, live'[j])
    ensures Survivors(cfg, now, live') == Survivors(cfg, now, live)
  {
    if TimedOut(cfg, now, live[i]) {
      SurvivorsRemove(cfg, now, live, i);
      MinSame(live, live', i, min);
    } else {
      MinNext(live, i, min);
    }
  }

  // ----- the object

  class Assembler {
    const cfg: Config
    var entries: seq<Entry>
    var time: nat
    var free: seq<nat>
    var used: seq<nat>
    var tree: map<U16, nat>

    // the packet being read, and how far (in, in_len, in_pos)
    var input: Option<seq<Byte>>
    var inPos: nat

    // the chunks accepted by each entry since it was allocated
    ghost var held: seq<seq<Piece>>

    ghost predicate Pool()
      reads this
    {
      PoolOk(cfg, entries, held, used, free, tree)
    }

    ghost function Live(): seq<Slot>
      reads this
    {
      View(used, entries, held)
    }

    ghost function Abs(): State
      reads this
    {
      State(time, Live())
    }

    ghost predicate Valid()
      reads this
    {
      Pool() && Inv(cfg, Abs()) && (input.Some? ==> inPos <= |input.value|)
    }

    // The chunks of the current packet that have not been looked at.
    ghost function Pending(): Option<seq<W.Record>>
      requires input.Some? ==> inPos <= |input.value|
      reads this
    {
      if input.Some? then Some(W.Parse(input.value[inPos..])) else None
    }

    constructor (cfg: Config)
      requires cfg.Ok()
      ensures Valid() && this.cfg == cfg
      ensures Abs() == INITIAL && Pending() == None
    {
      this.cfg := cfg;
      entries := seq(cfg.numFrames, _ => Entry(0, 0, [], 0, -1, 0, seq(cfg.mtu, _ => 0)));
      time := 0;
      free := seq(cfg.numFrames, i => i);
      used := [];
      tree := map[];
      held := seq(cfg.numFrames, _ => []);
      input, inPos := None, 0;
      new;
      AllFree(cfg.numFrames, free);
    }

    // free_frame
    method FreeFrame(k: nat)
      requires Pool() && k in used
      modifies this`used, this`free, this`tree
      ensures Pool()
      ensures Live() == RemoveAt(old(Live()), IndexOf(old(used), k))
      ensures k < |entries| && tree == old(tree) - {entries[k].id} && free == old(free) + [k]
    {
      UsedIn(cfg.numFrames, used, free, k);
      ghost var i := IndexOf(used, k);
      FreeKeeps(cfg, entries, held, used, free, tree, i);
      ViewRemoveAt(used, entries, held, i);
      used := Remove(used, k);
      tree := tree - {entries[k].id};
      free := free + [k];
    }

    // allocate_new_frame, once a free entry is there
    method TakeFree(id: U16) returns (k: nat)
      requires Pool() && id !in tree && free != []
      modifies this`used, this`free, this`tree, this`entries, this`held
      ensures Pool()
      ensures Live() == old(Live()) + [Slot(id, time, [])]
      ensures used == old(used) + [k] && IndexOf(used, k) == |old(used)|
    {
      k := free[0];
      FreeIn(cfg.numFrames, used, free, k);
      ghost var es, hs, us, fs, ts := entries, held, used, free, tree;
      entries := entries[k := Fresh(entries[k], id, time)];
      held := held[k := []];
      used := used + [k];
      free := free[1..];
      tree := tree[id := k];
      TakeKeeps(cfg, es, hs, us, fs, ts, id, time, k, entries, held, used, free, tree);
      IndexOfLast(us, k);
    }

    // allocate_new_frame
    method AllocateNewFrame(id: U16) returns (k: nat)
      requires Pool() && id !in tree
      modifies this`used, this`free, this`tree, this`entries, this`held
      ensures Pool() && k in used
      ensures var live := old(Live()); var room := if |live| == cfg.numFrames then live[1..] else live;
        Live() == room + [Slot(id, time, [])] && IndexOf(used, k) == |room|
    {
      WhenFull(cfg.numFrames, used, free);
      if free == [] {
        FreeOldestFrame();
      }
      k := TakeFree(id);
    }

    // free_oldest_frame
    method FreeOldestFrame()
      requires Pool() && used != []
      modifies this`used, this`free, this`tree
      ensures Pool() && free != [] && Live() == old(Live())[1..] && tree.Keys <= old(tree).Keys
    {
      ghost var live := Live();
      assert IndexOf(used, used[0]) == 0;
      FreeFrame(used[0]);
      assert RemoveAt(live, 0) == live[1..];
    }

    // The entry for a frame: a new one if it has none, and if it has timed out it
    // is freed and started afresh.
    method FetchFrame(id: U16, ghost s: State) returns (k: nat)
      requires Pool() && s == Abs()
      modifies this`used, this`free, this`tree, this`entries, this`held
      ensures Pool() && k in used && |s.live| <= cfg.numFrames
      ensures Live() == Fetch(cfg, s, id).0 && IndexOf(used, k) == Fetch(cfg, s, id).1
    {
      FoundInTree(id, s);
      FetchIs(cfg, s, id);
      if id !in tree {
        k := AllocateNewFrame(id);
      } else {
        k := tree[id];
        if time - entries[k].time > cfg.numFrames {
          k := RestartFrame(k);
        }
      }
    }

    // The id tree knows whether there is an entry, and which.
    lemma FoundInTree(id: U16, s: State)
      requires Pool() && s == Abs()
      ensures |s.live| <= cfg.numFrames && (id in tree <==> Find(s.live, id) < |s.live|)
      ensures id in tree ==> var k := tree[id];
        k in used && k < |entries| && entries[k].id == id && IndexOf(used, k) == Find(s.live, id)
        && s.live[Find(s.live, id)].time == entries[k].time
    {
      Partition(cfg.numFrames, used, free);
      TreeFinds(entries, held, used, id);
      if id in tree {
        TreeOnly(used, entries, id);
        UsedIn(cfg.numFrames, used, free, tree[id]);
        assert Live()[IndexOf(used, tree[id])].time == entries[tree[id]].time;
      }
    }

    // The entry of a frame that has timed out is freed, and another one taken for it.
    method RestartFrame(old_: nat) returns (k: nat)
      requires Pool() && old_ in used && old_ < |entries|
      modifies this`used, this`free, this`tree, this`entries, this`held
      ensures Pool() && k in used
      ensures var rest := old(RemoveAt(Live(), IndexOf(used, old_)));
        Live() == rest + [Slot(old(entries)[old_].id, time, [])] && IndexOf(used, k) == |rest|
    {
      var id := entries[old_].id;
      FreeFrame(old_);
      k := TakeFree(id);
    }

    // A chunk that passed the checks is added to its entry.
    method AcceptChunk(k: nat, start: nat, payload: seq<Byte>, isLast: bool)
      requires Pool() && k in used && k < |entries| && start + |payload| <= cfg.mtu
      requires Fits(held[k], Piece(start, payload, isLast))
      modifies this`held, this`entries
      ensures Pool() && held == old(held)[k := old(held)[k] + [Piece(start, payload, isLast)]] && |entries| == |old(entries)|
      ensures Live() == old(Live())[IndexOf(used, k) := Slot(old(entries)[k].id, time, held[k])]
    {
      var e := WithChunk(cfg, entries[k], held[k], time, start, payload, isLast);
      PutKeeps(cfg, entries, held, used, free, tree, IndexOf(used, k), e, held[k] + [Piece(start, payload, isLast)]);
      entries := entries[k := e];
      held := held[k := held[k] + [Piece(start, payload, isLast)]];
    }

    // What follows the addition of a chunk: wait for more, give up, or deliver.
    method ConcludeFrame(k: nat) returns (out: Option<seq<Byte>>)
      requires Pool() && k in used && k < |entries| && Consistent(held[k])
      modifies this`used, this`free, this`tree
      ensures Pool()
      ensures out == if Complete(held[k]) then Some(Join(held[k])) else None
      ensures Live() == if Complete(held[k]) || |held[k]| == cfg.numChunks
                        then RemoveAt(old(Live()), IndexOf(old(used), k)) else old(Live())
    {
      out := None;
      var e := entries[k];
      assert Records(cfg, e, held[k]);
      if e.length < 0 || e.sum < e.length {
        if |e.chunks| == cfg.numChunks {
          FreeFrame(k);
        }
        return;
      }
      BufferJoins(cfg, e, held[k]);
      assert e.sum == e.length;
      FreeFrame(k);
      out := Some(e.buffer[..e.length]);
    }

    // A chunk that passed the checks is added, with what follows.
    method AddChunk(k: nat, start: nat, payload: seq<Byte>, isLast: bool) returns (out: Option<seq<Byte>>)
      requires Pool() && k in used && k < |entries| && start + |payload| <= cfg.mtu && Consistent(held[k])
      requires Fits(held[k], Piece(start, payload, isLast))
      modifies this`used, this`free, this`tree, this`entries, this`held
      ensures Pool()
      ensures var q := old(held[k]) + [Piece(start, payload, isLast)]; var live, i := old(Live()), IndexOf(old(used), k);
        && i < |live| && live[i].pieces == old(held[k])
        && out == (if Complete(q) then Some(Join(q)) else None)
        && Live() == (if Complete(q) || |q| == cfg.numChunks then RemoveAt(live, i) else live[i := Slot(live[i].id, time, q)])
    {
      ghost var live, i := Live(), IndexOf(used, k);
      assert live[i].pieces == held[k] && live[i].id == entries[k].id;
      FitsKeepsConsistent(held[k], Piece(start, payload, isLast));
      AcceptChunk(k, start, payload, isLast);
      RemoveUpdated(live, i, Slot(live[i].id, time, held[k]));
      out := ConcludeFrame(k);
    }

    // Everything process_chunk does once it has the entry.
    method JudgeChunk(k: nat, start: nat, payload: seq<Byte>, isLast: bool) returns (out: Option<seq<Byte>>)
      requires Pool() && k in used && k < |entries| && start + |payload| <= cfg.mtu && Consistent(held[k])
      modifies this`used, this`free, this`tree, this`entries, this`held
      ensures Pool()
      ensures var p := Piece(start, payload, isLast); var v := Judge(cfg, old(held[k]), p);
        var live, i := old(Live()), IndexOf(old(used), k);
        && out == (if v.Deliver? then Some(v.frame) else None)
        && Live() == (if v.Wait? then live[i := Slot(live[i].id, time, live[i].pieces + [p])] else RemoveAt(live, i))
    {
      ghost var p, live, i := Piece(start, payload, isLast), Live(), IndexOf(used, k);
      assert live[i].pieces == held[k] && live[i].id == entries[k].id;
      var ok := CheckChunk(cfg, entries[k], held[k], start, payload, isLast);
      if ok {
        out := AddChunk(k, start, payload, isLast);
      } else {
        FreeFrame(k);
        out := None;
      }
    }

    // process_chunk
    method ProcessChunk(id: U16, start: nat, payload: seq<Byte>, isLast: bool) returns (out: Option<seq<Byte>>)
      requires Pool() && Inv(cfg, Abs())
      modifies this`used, this`free, this`tree, this`entries, this`held
      ensures Pool() && Abs() == Process(cfg, old(Abs()), id, Piece(start, payload, isLast)).0
      ensures out == Process(cfg, old(Abs()), id, Piece(start, payload, isLast)).1
    {
      if start > cfg.mtu || |payload| > cfg.mtu - start {
        return None;
      }
      ghost var s, p := Abs(), Piece(start, payload, isLast);
      ghost var (live, i) := Fetch(cfg, s, id);
      BaseGood(cfg, s, id);
      FetchSlots(cfg, s, id);
      out := PlaceChunk(id, start, payload, isLast, s, live, i);
      ProcessFetched(cfg, s, id, p, live, i);
    }

    method PlaceChunk(id: U16, start: nat, payload: seq<Byte>, isLast: bool, ghost s: State, ghost live: seq<Slot>, ghost i: nat)
      returns (out: Option<seq<Byte>>)
      requires Pool() && start + |payload| <= cfg.mtu && s == Abs() && |s.live| <= cfg.numFrames && (live, i) == Fetch(cfg, s, id)
      requires Consistent(live[i].pieces) && live[i].id == id
      modifies this`used, this`free, this`tree, this`entries, this`held
      ensures Pool()
      ensures var p := Piece(start, payload, isLast);
        Live() == After(cfg, live, i, id, time, p) && out == Delivery(Judge(cfg, live[i].pieces, p))
    {
      var k := FetchFrame(id, s);
      out := JudgeFetched(k, live, i, id, start, payload, isLast);
    }

    // The entry is there and the chunk within the frame size.
    method JudgeFetched(k: nat, ghost live: seq<Slot>, ghost i: nat, id: U16, start: nat, payload: seq<Byte>, isLast: bool)
      returns (out: Option<seq<Byte>>)
      requires Pool() && k in used && start + |payload| <= cfg.mtu
      requires live == Live() && i == IndexOf(used, k) && Consistent(live[i].pieces) && live[i].id == id
      modifies this`used, this`free, this`tree, this`entries, this`held
      ensures Pool()
      ensures var p := Piece(start, payload, isLast);
        Live() == After(cfg, live, i, id, time, p) && out == Delivery(Judge(cfg, live[i].pieces, p))
    {
      UsedIn(cfg.numFrames, used, free, k);
      assert held[k] == live[i].pieces;
      out := JudgeChunk(k, start, payload, isLast);
    }

    // One turn of the first loop of reduce_times.
    method VisitFrame(i: nat, min: Option<nat>) returns (timedOut: bool, min': Option<nat>)
      requires Pool() && i < |used|
      modifies this`used, this`free, this`tree
      ensures Pool()
      ensures var live := old(Live()); var t := live[i];
        && timedOut == TimedOut(cfg, time, t)
        && Live() == (if timedOut then RemoveAt(live, i) else live)
        && min' == (if timedOut then min else if min.None? || t.time < min.value then Some(t.time) else min)
    {
      var k := used[i];
      UsedAt(cfg.numFrames, used, free, i);
      assert Live()[i] == Slot(entries[k].id, entries[k].time, held[k]);
      min' := min;
      timedOut := time - entries[k].time > cfg.numFrames;
      if timedOut {
        FreeFrame(k);
      } else if min.None? || entries[k].time < min.value {
        min' := Some(entries[k].time);
      }
    }

    method DropOne(i: nat, min: Option<nat>) returns (i': nat, min': Option<nat>)
      requires Pool() && i < |used| && IsMin(Live(), i, min)
      requires forall j :: 0 <= j < i ==> !TimedOut(cfg, time, Live()[j])
      modifies this`used, this`free, this`tree
      ensures Pool() && i' <= |used| && IsMin(Live(), i', min') && |used| - i' < old(|used|) - i
      ensures Survivors(cfg, time, Live()) == Survivors(cfg, time, old(Live()))
      ensures forall j :: 0 <= j < i' ==> !TimedOut(cfg, time, Live()[j])
    {
      ghost var live := Live();
      var timedOut;
      timedOut, min' := VisitFrame(i, min);
      i' := if timedOut then i else i + 1;
      Visited(cfg, time, live, i, min, Live(), min');
    }

    // The first loop of reduce_times: frees the frames that have timed out and
    // finds the smallest time among the others.
    method DropTimedOut() returns (min: Option<nat>)
      requires Pool()
      modifies this`used, this`free, this`tree
      ensures Pool() && Live() == Survivors(cfg, time, old(Live()))
      ensures min == if Live() == [] then None else Some(MinTime(Live()))
    {
      var i: nat := 0;
      min := None;
      while i < |used|
        invariant Pool() && i <= |used|
        invariant Survivors(cfg, time, Live()) == Survivors(cfg, time, old(Live()))
        invariant forall j :: 0 <= j < i ==> !TimedOut(cfg, time, Live()[j])
        invariant IsMin(Live(), i, min)
        decreases |used| - i
      {
        i, min := DropOne(i, min);
      }
      SurvivorsAll(cfg, time, Live());
      MinUnique(Live(), min);
    }

    method SubtractTime(i: nat, d: nat)
      requires Pool() && i < |used| && d <= Live()[i].time
      modifies this`entries
      ensures Pool() && Live() == old(Live())[i := old(Live())[i].(time := old(Live())[i].time - d)]
    {
      var k := used[i];
      UsedAt(cfg.numFrames, used, free, i);
      assert Live()[i] == Slot(entries[k].id, entries[k].time, held[k]);
      ghost var es := entries;
      entries := entries[k := entries[k].(time := entries[k].time - d)];
      ShiftKeeps(cfg, es, held, used, free, tree, i, d, entries);
    }

    // The second loop: makes all frames under way earlier by d.
    method SubtractTimes(d: nat)
      requires Pool() && forall i :: 0 <= i < |Live()| ==> d <= Live()[i].time
      modifies this`entries
      ensures Pool() && Live() == Earlier(old(Live()), d)
    {
      ghost var live := Live();
      for i := 0 to |used|
        invariant Pool()
        invariant forall j :: 0 <= j < i ==> Live()[j] == live[j].(time := live[j].time - d)
        invariant forall j :: i <= j < |live| ==> Live()[j] == live[j]
      {
        SubtractTime(i, d);
      }
    }

    // reduce_times
    method ReduceTimes()
      requires Pool() && forall t :: t in Live() ==> t.time <= time
      modifies this`used, this`free, this`tree, this`time, this`entries
      ensures Pool() && Live() == Reduce(cfg, old(Abs())).live && time == Reduce(cfg, old(Abs())).time
    {
      ghost var s := Abs();
      SurvivorsMin(cfg, s);
      var min := DropTimedOut();
      ReduceIs(cfg, s, Live());
      Rebase(min);
    }

    // The clock and the frames under way become earlier by the smallest time.
    method Rebase(min: Option<nat>)
      requires Pool() && min == if Live() == [] then None else Some(MinTime(Live()))
      requires min.Some? ==> min.value <= time
      modifies this`time, this`entries
      ensures Pool()
      ensures var live := old(Live());
        if live == [] then Live() == [] && time == 0 else Live() == Earlier(live, MinTime(live)) && time == old(time) - MinTime(live)
    {
      if min.None? {
        time := 0;
      } else {
        SubtractTimes(min.value);
        time := time - min.value;
      }
    }

    // The end of process_input: the packet clock advances.
    method AdvanceClock()
      requires Pool() && time <= MAX_TIME && forall t :: t in Live() ==> t.time <= time
      modifies this`used, this`free, this`tree, this`time, this`entries
      ensures Pool() && Live() == Advance(cfg, old(Abs())).live && time == Advance(cfg, old(Abs())).time
    {
      ReduceKeepsAges(cfg, Abs());
      if time == MAX_TIME {
        ReduceTimes();
        if used != [] {
          assert time < MAX_TIME;
          time := time + 1;
        } else {
          assert time == 0;
        }
      } else {
        time := time + 1;
      }
    }

    method ProcessRecord(r: W.Record) returns (out: Option<seq<Byte>>)
      requires Pool() && Inv(cfg, Abs())
      modifies this`used, this`free, this`tree, this`entries, this`held
      ensures Pool() && Inv(cfg, Abs())
      ensures Abs() == Process(cfg, old(Abs()), r.id, r.piece).0
      ensures out == Process(cfg, old(Abs()), r.id, r.piece).1
    {
      ProcessKeeps(cfg, Abs(), r.id, r.piece);
      assert r.piece == Piece(r.piece.start, r.piece.data, r.piece.last);
      out := ProcessChunk(r.id, r.piece.start, r.piece.data, r.piece.last);
    }

    // The next chunk of the current packet, if a well-formed one is left.
    method NextChunk() returns (out: Option<seq<Byte>>)
      requires Valid() && input.Some? && W.ParseOne(input.value[inPos..]).Some?
      modifies this`used, this`free, this`tree, this`entries, this`held, this`inPos
      ensures Valid() && inPos > old(inPos)
      ensures old(Pending()).value != [] && Pending() == Some(old(Pending()).value[1..])
      ensures Abs() == Process(cfg, old(Abs()), old(Pending()).value[0].id, old(Pending()).value[0].piece).0
      ensures out == Process(cfg, old(Abs()), old(Pending()).value[0].id, old(Pending()).value[0].piece).1
    {
      var rest := input.value[inPos..];
      var r := W.ParseOne(rest).value;
      out := ProcessRecord(r);
      var n := W.HEADER + |r.piece.data|;
      inPos := inPos + n;
      assert rest[n..] == input.value[inPos..];
    }

    /**
      process_input, called when a packet has arrived and again after each frame it
      delivered: reads on until a frame is complete, or the packet is used up or
      malformed, in which case the clock advances and the packet is finished.
     */
    method ProcessInput() returns (out: Option<seq<Byte>>)
      requires Valid() && input.Some?
      modifies this
      ensures Valid()
      ensures var (s, delivered, rest) := Consume(cfg, old(Abs()), old(Pending()).value);
        && out == delivered
        && (out.Some? ==> Abs() == s && Pending() == Some(rest))
        && (out.None? ==> Abs() == Advance(cfg, s) && Pending() == None)
    {
      while W.ParseOne(input.value[inPos..]).Some?
        invariant Valid() && input == old(input)
        invariant Consume(cfg, Abs(), Pending().value) == Consume(cfg, old(Abs()), old(Pending()).value)
        decreases |input.value| - inPos
      {
        out := NextChunk();
        if out.Some? {
          return;
        }
      }
      out := None;
      AdvanceKeeps(cfg, Abs());
      AdvanceClock();
      input := None;
    }

    // input_handler_send
    method Send(data: seq<Byte>) returns (out: Option<seq<Byte>>)
      requires Valid() && input.None?
      modifies this
      ensures Valid()
      ensures var (s, delivered, rest) := Consume(cfg, old(Abs()), W.Parse(data));
        && out == delivered
        && (out.Some? ==> Abs() == s && Pending() == Some(rest))
        && (out.None? ==> Abs() == Advance(cfg, s) && Pending() == None)
    {
      input, inPos := Some(data), 0;
      assert data[0..] == data;
      out := ProcessInput();
    }
  }

  // Reading on in a packet up to the next frame it completes: the state, that frame
  // and the chunks left, or none when the packet is used up.
  function Consume(cfg: Config, s: State, rs: seq<W.Record>): (r: (State, Option<seq<Byte>>, seq<W.Record>))
    requires cfg.Ok() && |s.live| <= cfg.numFrames
    ensures |r.0.live| <= cfg.numFrames
    ensures r.1.Some? ==> |r.2| < |rs|
    decreases |rs|
  {
    if rs == [] then (s, None, [])
    else
      var r := Process(cfg, s, rs[0].id, rs[0].piece);
      if r.1.Some? then (r.0, r.1, rs[1..]) else Consume(cfg, r.0, rs[1..])
  }

  // The cases of obtaining an entry.
  lemma FetchIs(cfg: Config, s: State, id: U16)
    requires cfg.Ok() && |s.live| <= cfg.numFrames
    ensures var i := Find(s.live, id); var slot := Slot(id, s.time, []); var r := Fetch(cfg, s, id);
      && (i == |s.live| ==> var room := if |s.live| == cfg.numFrames then s.live[1..] else s.live; r == (room + [slot], |room|))
      && (i < |s.live| && !TimedOut(cfg, s.time, s.live[i]) ==> r == (s.live, i))
      && (i < |s.live| && TimedOut(cfg, s.time, s.live[i]) ==> r == (RemoveAt(s.live, i) + [slot], |s.live| - 1))
  {
  }

  function Delivery(v: Verdict): Option<seq<Byte>> {
    if v.Deliver? then Some(v.frame) else None
  }

  lemma ReduceIs(cfg: Config, s: State, live: seq<Slot>)
    requires live == Survivors(cfg, s.time, s.live) && (live != [] ==> MinTime(live) <= s.time)
    ensures Reduce(cfg, s) == if live == [] then State(0, []) else State(s.time - MinTime(live), Earlier(live, MinTime(live)))
  {
  }

  lemma RemoveUpdated(live: seq<Slot>, i: nat, t: Slot)
    requires i < |live|
    ensures RemoveAt(live[i := t], i) == RemoveAt(live, i)
  {
  }

  // The smallest time among the first i frames.
  ghost predicate IsMin(live: seq<Slot>, i: nat, min: Option<nat>)
    requires i <= |live|
  {
    match min
    case None => i == 0
    case Some(m) =>
      && (forall j :: 0 <= j < i ==> m <= live[j].time)
      && (exists j :: 0 <= j < i && live[j].time == m)
  }

  lemma MinNext(live: seq<Slot>, i: nat, min: Option<nat>)
    requires i < |live| && IsMin(live, i, min)
    ensures IsMin(live, i + 1, if min.None? || live[i].time < min.value then Some(live[i].time) else min)
  {
    if min.Some? {
      var j :| 0 <= j < i && live[j].time == min.value;
    }
    assert live[i].time == live[i].time;
  }

  lemma MinSame(live: seq<Slot>, live': seq<Slot>, i: nat, min: Option<nat>)
    requires i <= |live| && i <= |live'| && live[..i] == live'[..i] && IsMin(live, i, min)
    ensures IsMin(live', i, min)
  {
    assert forall j :: 0 <= j < i ==> live[j] == live[..i][j] == live'[j];
    if min.Some? {
      var j :| 0 <= j < i && live[j].time == min.value;
      assert live'[j].time == min.value;
    }
  }

  lemma MinUnique(live: seq<Slot>, min: Option<nat>)
    requires IsMin(live, |live|, min)
    ensures min == if live == [] then None else Some(MinTime(live))
  {
    if live != [] {
      var i :| 0 <= i < |live| && live[i].time == MinTime(live);
      var j :| 0 <= j < |live| && live[j].time == min.value;
    }
  }

  lemma SurvivorsSnoc(cfg: Config, now: nat, live: seq<Slot>, t: Slot)
    ensures Survivors(cfg, now, live + [t]) == if TimedOut(cfg, now, t) then Survivors(cfg, now, live) else Survivors(cfg, now, live) + [t]
  {
    assert (live + [t])[..|live|] == live;
  }

  lemma {:induction false} SurvivorsRemove(cfg: Config, now: nat, live: seq<Slot>, i: nat)
    requires i < |live| && TimedOut(cfg, now, live[i])
    ensures Survivors(cfg, now, RemoveAt(live, i)) == Survivors(cfg, now, live)
  {
    var front, t := live[..|live| - 1], live[|live| - 1];
    if i == |live| - 1 {
      assert RemoveAt(live, i) == front;
    } else {
      SurvivorsRemove(cfg, now, front, i);
      RemoveBeforeLast(live, i);
      SurvivorsSnoc(cfg, now, RemoveAt(front, i), t);
    }
  }

  lemma RemoveBeforeLast<T>(s: seq<T>, i: nat)
    requires i < |s| - 1
    ensures RemoveAt(s, i) == RemoveAt(s[..|s| - 1], i) + [s[|s| - 1]]
  {
  }

  lemma {:induction false} SurvivorsAll(cfg: Config, now: nat, live: seq<Slot>)
    requires forall j :: 0 <= j < |live| ==> !TimedOut(cfg, now, live[j])
    ensures Survivors(cfg, now, live) == live
  {
    if live != [] {
      var front, t := live[..|live| - 1], live[|live| - 1];
      SurvivorsAll(cfg, now, front);
      assert live == front + [t];
    }
  }

  lemma IndexOfLast(s: seq<nat>, k: nat)
    requires k !in s
    ensures IndexOf(s + [k], k) == |s|
  {
    assert (s + [k])[|s|] == k;
  }

  lemma {:induction false} AllFree(n: nat, free: seq<nat>)
    requires |free| == n && forall i :: 0 <= i < n ==> free[i] == i
    ensures multiset([]) + multiset(free) == Entries(n)
  {
    if n > 0 {
      assert free == free[..n - 1] + [n - 1];
      AllFree(n - 1, free[..n - 1]);
    }
  }
}
