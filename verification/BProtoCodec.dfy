/**
  The writer and the parser the generator emits for a message, for any schema. The
  parser scans the buffer once and then keeps, for each field, where its first record
  starts, how far its last one reaches, and how far it has been read; reading a field
  steps over the records of the others.
 */
module BProtoCodec {
  import opened Bytes
  import opened Lists
  import opened BProtoWire
  import opened BProtoSchema

  class Writer {
    const schema: seq<Entry>
    const out: array<Byte>
    var used: nat
    var counts: seq<nat>
    ghost var adds: seq<Add>

    ghost predicate Valid()
      reads this, out
    {
      && Writable(schema, adds)
      && used <= out.Length
      && out[..used] == Encode(Records(schema, adds))
      && |counts| == |schema|
      && forall i :: 0 <= i < |schema| ==> counts[i] == |Added(adds, i)|
    }

    constructor (schema: seq<Entry>, out: array<Byte>)
      ensures Valid() && this.schema == schema && this.out == out && adds == []
    {
      this.schema, this.out := schema, out;
      used, counts, adds := 0, seq(|schema|, _ => 0), [];
    }

    method Put(bytes: seq<Byte>)
      requires used + |bytes| <= out.Length
      modifies this`used, out
      ensures used == old(used) + |bytes|
      ensures out[..used] == old(out[..used]) + bytes
    {
      CopyInto(out, used, bytes);
      used := used + |bytes|;
    }

    method PutRecord(e: Entry, v: Value)
      requires Suits(e.kind, v) && used + Size(Record(e, v)) <= out.Length
      modifies this`used, out
      ensures used == old(used) + Size(Record(e, v)) && used <= out.Length
      ensures out[..used] == old(out[..used]) + EncodeOne(Record(e, v))
    {
      ghost var r, was := Record(e, v), out[..used];
      Put(Le16(e.id) + Le16(Code(e.kind)));
      if IsData(Code(e.kind)) {
        Put(Le32(|v.bytes|));
        Assoc(was, Le16(e.id) + Le16(Code(e.kind)), Le32(|v.bytes|));
      }
      assert out[..used] == was + Head(r);
      Put(Body(e.kind, v));
      Assoc(was, Head(r), r.body);
    }

    // One of the Add functions. The caller provides a buffer that is large enough,
    // and adds a field that may occur once only once.
    method AddValue(i: nat, v: Value)
      requires Valid() && i < |schema| && Suits(schema[i].kind, v)
      requires schema[i].card in {Optional, Required} ==> counts[i] == 0
      requires used + Size(Record(schema[i], v)) <= out.Length
      modifies this, out
      ensures Valid() && adds == old(adds) + [Add(i, v)]
    {
      RecordsSnoc(schema, adds, Add(i, v));
      PutRecord(schema[i], v);
      counts := counts[i := counts[i] + 1];
      adds := adds + [Add(i, v)];
    }

    // The caller must have added every field as often as its cardinality asks.
    method Finish() returns (len: nat)
      requires Valid()
      requires forall i :: 0 <= i < |schema| ==> CardOk(schema[i].card, counts[i])
      ensures len == used
      ensures Distinct(schema) ==> Parse(out[..len]).Some? && Conforms(schema, Parse(out[..len]).value)
      ensures Distinct(schema) ==> forall i :: 0 <= i < |schema| ==>
        Values(schema[i], Collect(schema[i], Parse(out[..len]).value)) == Added(adds, i)
    {
      len := used;
      if Distinct(schema) {
        WriteThenParse(schema, adds);
      }
    }
  }

  // ----- the parser's cursors

  datatype Cursor = Cursor(start: nat, span: nat, pos: nat)

  // The records a cursor ranges over are lo..hi; those before at have been read.
  datatype Marks = Marks(lo: nat, at: nat, hi: nat)

  ghost predicate Framed(e: Entry, rs: seq<Rec>, offs: seq<nat>, c: Cursor, m: Marks, len: nat) {
    Bounds(e, rs, m) && Measures(offs, c, m, len)
  }

  // All records of the field are in lo..hi, and the last one there is the field's.
  ghost predicate Bounds(e: Entry, rs: seq<Rec>, m: Marks) {
    && m.lo <= m.at <= m.hi <= |rs|
    && (forall j :: 0 <= j < m.lo || m.hi <= j < |rs| ==> !Belongs(e, rs[j]))
    && (m.lo < m.hi ==> Belongs(e, rs[m.hi - 1]))
  }

  // The cursor's numbers are the offsets of these records; a field without records
  // keeps the start it was given at first.
  ghost predicate Measures(offs: seq<nat>, c: Cursor, m: Marks, len: nat) {
    && m.lo <= m.at <= m.hi < |offs|
    && c.start == (if m.lo == m.hi then len else offs[m.lo])
    && offs[m.lo] + c.span == offs[m.hi]
    && offs[m.lo] + c.pos == offs[m.at]
  }

  // The field's own record: it becomes the first one while the start still has its
  // initial value, and stretches the span otherwise.
  lemma FramedOwn(e: Entry, rs: seq<Rec>, offs: seq<nat>, c: Cursor, m: Marks, len: nat, r: Rec)
    requires Offsets(rs, offs) && Framed(e, rs, offs, c, m, len) && Belongs(e, r)
    requires m.at == m.lo && offs[|rs|] < len
    ensures c.start == len <==> m.lo == m.hi
    ensures var lo := if m.lo == m.hi then |rs| else m.lo;
      var start := if c.start == len then offs[|rs|] else c.start;
      var end := offs[|rs|] + Size(r);
      && start <= end
      && Framed(e, rs + [r], offs + [end], Cursor(start, end - start, 0), Marks(lo, lo, |rs| + 1), len)
  {
    OffsetsGrow(rs, offs, m.lo, |rs|);
  }

  ghost predicate AllFramed(schema: seq<Entry>, rs: seq<Rec>, offs: seq<nat>, cursors: seq<Cursor>, marks: seq<Marks>, len: nat) {
    && |cursors| == |marks| == |schema|
    && forall i {:trigger marks[i]} :: 0 <= i < |schema| ==> Framed(schema[i], rs, offs, cursors[i], marks[i], len)
  }

  ghost predicate ScannedTo(schema: seq<Entry>, buf: seq<Byte>, pos: nat, rs: seq<Rec>, offs: seq<nat>,
                            cursors: seq<Cursor>, marks: seq<Marks>)
  {
    && pos <= |buf| && AllSized(rs) && Encode(rs) == buf[..pos]
    && Indexed(schema, |buf|, pos, rs, offs, cursors, marks)
  }

  ghost predicate Indexed(schema: seq<Entry>, len: nat, pos: nat, rs: seq<Rec>, offs: seq<nat>,
                          cursors: seq<Cursor>, marks: seq<Marks>)
  {
    && Offsets(rs, offs) && offs[|rs|] == pos && AllFramed(schema, rs, offs, cursors, marks, len)
    && NothingRead(cursors, marks)
  }

  // One more record: the field it belongs to takes note, the others stay.
  lemma NoteFrames(schema: seq<Entry>, rs: seq<Rec>, offs: seq<nat>, cursors: seq<Cursor>, marks: seq<Marks>, len: nat,
                   i: nat, r: Rec, end: nat, c: Cursor, m: Marks)
    requires Offsets(rs, offs) && AllFramed(schema, rs, offs, cursors, marks, len) && i < |schema|
    requires forall k :: 0 <= k < |schema| && k != i ==> !Belongs(schema[k], r)
    requires Framed(schema[i], rs + [r], offs + [end], c, m, len)
    ensures AllFramed(schema, rs + [r], offs + [end], cursors[i := c], marks[i := m], len)
  {
    forall k | 0 <= k < |schema| && k != i ensures Framed(schema[k], rs + [r], offs + [end], cursors[k], marks[k], len) {
      assert Framed(schema[k], rs, offs, cursors[k], marks[k], len);
    }
  }

  lemma NoteIndexed(schema: seq<Entry>, len: nat, pos: nat, rs: seq<Rec>, offs: seq<nat>,
                    cursors: seq<Cursor>, marks: seq<Marks>, i: nat, r: Rec, end: nat) returns (m: Marks)
    requires Indexed(schema, len, pos, rs, offs, cursors, marks) && pos < len && end == pos + Size(r)
    requires i < |schema| && Belongs(schema[i], r)
    requires forall k :: 0 <= k < |schema| && k != i ==> !Belongs(schema[k], r)
    ensures var start := if cursors[i].start == len then pos else cursors[i].start;
      && start <= end
      && Indexed(schema, len, end, rs + [r], offs + [end], cursors[i := Cursor(start, end - start, 0)], marks[i := m])
  {
    var c := cursors[i];
    var lo := if marks[i].lo == marks[i].hi then |rs| else marks[i].lo;
    m := Marks(lo, lo, |rs| + 1);
    FramedOwn(schema[i], rs, offs, c, marks[i], len, r);
    var start := if c.start == len then pos else c.start;
    NoteFrames(schema, rs, offs, cursors, marks, len, i, r, end, Cursor(start, end - start, 0), m);
    OffsetsSnoc(rs, offs, r);
    UnreadStays(cursors, marks, i, Cursor(start, end - start, 0), m);
  }

  // Nothing has been read while the buffer is being scanned.
  ghost predicate NothingRead(cursors: seq<Cursor>, marks: seq<Marks>) {
    |cursors| == |marks| && forall i {:trigger marks[i]} :: 0 <= i < |marks| ==> marks[i].at == marks[i].lo && cursors[i].pos == 0
  }

  lemma UnreadStays(cursors: seq<Cursor>, marks: seq<Marks>, i: nat, c: Cursor, m: Marks)
    requires NothingRead(cursors, marks) && i < |marks| && c.pos == 0 && m.at == m.lo
    ensures NothingRead(cursors[i := c], marks[i := m])
  {
    forall k | 0 <= k < |marks| && k != i ensures marks[k].at == marks[k].lo && cursors[k].pos == 0 {
    }
  }

  // While there is something left of the span, the next record lies within it.
  lemma WithinSpan(rs: seq<Rec>, offs: seq<nat>, c: Cursor, m: Marks, len: nat)
    requires Offsets(rs, offs) && offs[|rs|] <= len && m.hi <= |rs| && Measures(offs, c, m, len)
    ensures c.pos <= c.span && c.start + c.span <= len
    ensures c.pos == c.span <==> m.at == m.hi
    ensures m.at < m.hi ==>
      c.start + c.pos == offs[m.at] && offs[m.at + 1] == offs[m.at] + Size(rs[m.at]) && c.pos + Size(rs[m.at]) <= c.span
  {
    OffsetsGrow(rs, offs, m.at, m.hi);
    OffsetsGrow(rs, offs, m.hi, |rs|);
    if m.at < m.hi {
      OffsetsGrow(rs, offs, m.at + 1, m.hi);
    }
  }

  // A cursor short of the end of the span has a value ahead of it, and one at the
  // end has none.
  lemma Exhausted(e: Entry, rs: seq<Rec>, m: Marks)
    requires Bounds(e, rs, m)
    ensures m.at == m.hi <==> Collect(e, rs[m.at..]) == []
  {
    CollectNone(e, rs, m.at);
  }

  class Parser {
    var schema: seq<Entry>
    var buf: seq<Byte>
    var cursors: seq<Cursor>
    ghost var recs: seq<Rec>
    ghost var offs: seq<nat>
    ghost var marks: seq<Marks>

    constructor (schema: seq<Entry>)
      ensures this.schema == schema
    {
      this.schema := schema;
    }

    // The buffer has been accepted.
    ghost predicate Valid()
      reads this
    {
      AllSized(recs) && buf == Encode(recs) && Offsets(recs, offs) && offs[|recs|] == |buf| && AllFramed(schema, recs, offs, cursors, marks, |buf|)
    }

    // The values of a field that have not been read yet.
    ghost function Unread(i: nat): seq<Value>
      requires Valid() && i < |schema|
      reads this
    {
      Values(schema[i], Collect(schema[i], recs[marks[i].at..]))
    }

    // The scan has come to pos and has noted every record before it.
    ghost predicate Scanned(buf: seq<Byte>, pos: nat)
      reads this
    {
      this.buf == buf && ScannedTo(schema, buf, pos, recs, offs, cursors, marks)
    }

    method Start(buf: seq<Byte>)
      modifies this
      ensures schema == old(schema) && Scanned(buf, 0) && recs == []
    {
      this.buf := buf;
      cursors := seq(|schema|, _ => Cursor(|buf|, 0, 0));
      recs, offs, marks := [], [0], seq(|schema|, _ => Marks(0, 0, 0));
    }

    // The field of a record takes note of it; the record lies between entryPos and pos.
    method Note(i: nat, entryPos: nat, pos: nat, ghost r: Rec)
      requires Scanned(buf, entryPos) && entryPos < |buf|
      requires i < |schema| && Sized(r) && Belongs(schema[i], r)
      requires forall k :: 0 <= k < |schema| && k != i ==> !Belongs(schema[k], r)
      requires pos == entryPos + Size(r) <= |buf| && Encode(recs) + EncodeOne(r) == buf[..pos]
      modifies this
      ensures schema == old(schema) && buf == old(buf)
      ensures recs == old(recs) + [r] && Scanned(buf, pos)
    {
      ghost var m := NoteIndexed(schema, |buf|, entryPos, recs, offs, cursors, marks, i, r, pos);
      EncodeSnoc(recs, r);
      var start := cursors[i].start;
      if start == |buf| {
        start := entryPos;
      }
      cursors := cursors[i := Cursor(start, pos - start, 0)];
      recs, offs, marks := recs + [r], offs + [pos], marks[i := m];
    }

    // One turn of the scan: the record at pos, if it is one and suits a field.
    method ScanOne(pos: nat, counts: seq<nat>) returns (ok: bool, end: nat, counts': seq<nat>)
      requires Distinct(schema) && Scanned(buf, pos) && pos < |buf|
      requires |counts| == |schema| && forall i :: 0 <= i < |schema| ==> counts[i] == |Collect(schema[i], recs)|
      modifies this
      ensures schema == old(schema) && buf == old(buf)
      ensures ok <==> ParseOne(buf[pos..]).Some? && Known(schema, ParseOne(buf[pos..]).value)
      ensures ok ==> recs == old(recs) + [ParseOne(buf[pos..]).value] && Scanned(buf, end)
      ensures ok ==> end == pos + Size(ParseOne(buf[pos..]).value)
      ensures ok ==> |counts'| == |schema| && forall i :: 0 <= i < |schema| ==> counts'[i] == |Collect(schema[i], recs)|
    {
      var next := ParseOne(buf[pos..]);
      if next.None? {
        return false, pos, counts;
      }
      var r := next.value;
      var i := Lookup(schema, r.id, r.code);
      LookupKnown(schema, r);
      if i == |schema| || r.code != Code(schema[i].kind) {
        return false, pos, counts;
      }
      if schema[i].kind.ConstData? && |r.body| != schema[i].kind.size {
        return false, pos, counts;
      }
      end := pos + Size(r);
      ReadOne(buf, pos, r);
      CountOne(schema, i, recs, r);
      Note(i, pos, end, r);
      ok, counts' := true, counts[i := counts[i] + 1];
    }

    /**
      The buffer is accepted exactly if it is the encoding of records that conform to
      the schema; then every field's values are there to be read.
     */
    method Init(buf: seq<Byte>) returns (ok: bool)
      requires Distinct(schema)
      modifies this
      ensures schema == old(schema)
      ensures ok <==> Parse(buf).Some? && Conforms(schema, Parse(buf).value)
      ensures ok <==> Parse(buf).Some? && AsDeclared(schema, Parse(buf).value)
      ensures ok ==> this.buf == buf && Parse(buf) == Some(recs) && Valid()
      ensures ok ==> forall i :: 0 <= i < |schema| ==> Unread(i) == Values(schema[i], Collect(schema[i], recs))
    {
      ok := ScanAll(buf);
      if Parse(buf).Some? {
        ConformsExactly(schema, Parse(buf).value);
      }
    }

    // The loop over the records, and the counts at the end.
    method ScanAll(buf: seq<Byte>) returns (ok: bool)
      requires Distinct(schema)
      modifies this
      ensures schema == old(schema)
      ensures ok <==> Parse(buf).Some? && Conforms(schema, Parse(buf).value)
      ensures ok ==> this.buf == buf && Parse(buf) == Some(recs) && Valid()
      ensures ok ==> forall i :: 0 <= i < |schema| ==> Unread(i) == Values(schema[i], Collect(schema[i], recs))
    {
      Start(buf);
      var counts: seq<nat> := seq(|schema|, _ => 0);
      var pos := 0;
      ParsedStart(schema, buf);
      while pos < |buf|
        invariant schema == old(schema) && Scanned(buf, pos) && Parsed(schema, buf, recs, pos)
        invariant |counts| == |schema| && forall i :: 0 <= i < |schema| ==> counts[i] == |Collect(schema[i], recs)|
      {
        ghost var was := recs;
        var good, end, counts' := ScanOne(pos, counts);
        if !good {
          Misfit(schema, buf, was, pos);
          return false;
        }
        ghost var r := ParseOne(buf[pos..]).value;
        ParseOn(schema, buf, was, pos, r, recs, end);
        pos, counts := end, counts';
      }
      ParsedEnd(schema, buf, recs);
      ok := CheckCounts(counts);
      forall i | 0 <= i < |schema|
        ensures Collect(schema[i], recs[marks[i].at..]) == Collect(schema[i], recs)
      {
        CollectSkips(schema[i], recs, marks[i].lo);
      }
    }

    method CheckCounts(counts: seq<nat>) returns (ok: bool)
      requires |counts| == |schema|
      ensures ok <==> forall i :: 0 <= i < |schema| ==> CardOk(schema[i].card, counts[i])
    {
      for k := 0 to |schema|
        invariant forall i :: 0 <= i < k ==> CardOk(schema[i].card, counts[i])
      {
        if !CardOk(schema[k].card, counts[k]) {
          return false;
        }
      }
      return true;
    }

    /**
      Reading a field gives its next unread value, in the order of the buffer, and
      says no exactly when there is none; other fields are not disturbed. The
      assertions along the way hold for every accepted buffer.
     */
    method Get(i: nat) returns (v: Option<Value>)
      requires Valid() && i < |schema|
      modifies this`cursors, this`marks
      ensures Valid()
      ensures v.None? <==> old(Unread(i)) == []
      ensures v.Some? ==> old(Unread(i)) == [v.value] + Unread(i)
      ensures v.None? ==> Unread(i) == []
      ensures forall k :: 0 <= k < |schema| && k != i ==> cursors[k] == old(cursors[k]) && Unread(k) == old(Unread(k))
    {
      var e := schema[i];
      v := None;
      WithinSpan(recs, offs, cursors[i], marks[i], |buf|);
      var left := cursors[i].span - cursors[i].pos;
      while left > 0 && v.None?
        invariant Valid() && left == cursors[i].span - cursors[i].pos && left >= 0
        invariant left == 0 <==> marks[i].at == marks[i].hi
        invariant forall k :: 0 <= k < |schema| && k != i ==> cursors[k] == old(cursors[k]) && marks[k] == old(marks[k])
        invariant v.None? ==> Unread(i) == old(Unread(i))
        invariant v.Some? ==> old(Unread(i)) == [v.value] + Unread(i)
        decreases left
      {
        var r := GetNext(i, left);
        left := left - Size(r);
        if Belongs(e, r) {
          v := Some(FromBody(e.kind, r.body));
        }
      }
      Exhausted(schema[i], recs, marks[i]);
      assert v.None? ==> Collect(schema[i], recs[marks[i].at..]) == [];
    }

    // A field's cursor moves; the others stay.
    method MoveTo(i: nat, pos: nat, ghost at: nat)
      requires Valid() && i < |schema|
      requires Framed(schema[i], recs, offs, Cursor(cursors[i].start, cursors[i].span, pos), Marks(marks[i].lo, at, marks[i].hi), |buf|)
      modifies this`cursors, this`marks
      ensures Valid()
      ensures cursors == old(cursors[i := Cursor(cursors[i].start, cursors[i].span, pos)])
      ensures marks == old(marks[i := Marks(marks[i].lo, at, marks[i].hi)])
    {
      cursors := cursors[i := Cursor(cursors[i].start, cursors[i].span, pos)];
      marks := marks[i := Marks(marks[i].lo, at, marks[i].hi)];
    }

    // The cursor steps over one record, whosever it is.
    method GetNext(i: nat, left: nat) returns (r: Rec)
      requires Valid() && i < |schema| && cursors[i].span == cursors[i].pos + left && left > 0
      modifies this`cursors, this`marks
      ensures Valid() && cursors[i].span == cursors[i].pos + left - Size(r)
      ensures left == Size(r) <==> marks[i].at == marks[i].hi
      ensures Size(r) <= left
      ensures forall k :: 0 <= k < |schema| && k != i ==> cursors[k] == old(cursors[k]) && marks[k] == old(marks[k])
      ensures old(Unread(i)) == (if Belongs(schema[i], r) then [FromBody(schema[i].kind, r.body)] else []) + Unread(i)
    {
      ghost var m := marks[i];
      WithinSpan(recs, offs, cursors[i], m, |buf|);
      r := ReadAt(cursors[i].start + cursors[i].pos, left, m.at);
      MoveTo(i, cursors[i].pos + Size(r), m.at + 1);
      WithinSpan(recs, offs, cursors[i], marks[i], |buf|);
      UnreadStep(schema[i], recs, m.at);
    }

    method ReadAt(at: nat, left: nat, ghost k: nat) returns (r: Rec)
      requires Valid() && k < |recs| && at == offs[k] && Size(recs[k]) <= left <= |buf| - at
      ensures r == recs[k]
    {
      RecordAt(recs, offs, k);
      r := Scan(buf[at..], left);
    }

    // The next record, read without any check: what the parser checked when it
    // accepted the buffer is enough.
    method Scan(rest: seq<Byte>, left: nat) returns (r: Rec)
      requires ParseOne(rest).Some? && Size(ParseOne(rest).value) <= left <= |rest|
      ensures ParseOne(rest) == Some(r)
    {
      assert left >= HEADER;
      var id, code := FromLe16(rest), FromLe16(rest[2..]);
      if IsUint(code) {
        assert left - HEADER >= UintSize(code);
        r := Rec(id, code, rest[HEADER..HEADER + UintSize(code)]);
      } else {
        assert IsData(code);
        assert left - HEADER >= DATA_HEADER;
        var len := FromLe32(rest[HEADER..]);
        assert left - HEADER - DATA_HEADER >= len;
        r := Rec(id, code, rest[HEADER + DATA_HEADER..HEADER + DATA_HEADER + len]);
      }
    }

    method Reset(i: nat)
      requires Valid() && i < |schema|
      modifies this`cursors, this`marks
      ensures Valid() && Unread(i) == Values(schema[i], Collect(schema[i], recs))
      ensures forall k :: 0 <= k < |schema| && k != i ==> Unread(k) == old(Unread(k))
    {
      CollectSkips(schema[i], recs, marks[i].lo);
      MoveTo(i, 0, marks[i].lo);
    }

    method Forward(i: nat)
      requires Valid() && i < |schema|
      modifies this`cursors, this`marks
      ensures Valid() && Unread(i) == []
      ensures forall k :: 0 <= k < |schema| && k != i ==> Unread(k) == old(Unread(k))
    {
      MoveTo(i, cursors[i].span, marks[i].hi);
      Exhausted(schema[i], recs, marks[i]);
    }

    // Every field has been read, or skipped, to its end.
    method GotEverything() returns (all: bool)
      requires Valid()
      ensures all <==> forall i :: 0 <= i < |schema| ==> Unread(i) == []
    {
      for k := 0 to |schema|
        invariant forall i :: 0 <= i < k ==> Unread(i) == []
      {
        WithinSpan(recs, offs, cursors[k], marks[k], |buf|);
        Exhausted(schema[k], recs, marks[k]);
        if cursors[k].pos != cursors[k].span {
          assert Unread(k) != [];
          return false;
        }
      }
      return true;
    }
  }

  lemma UnreadStep(e: Entry, rs: seq<Rec>, k: nat)
    requires k < |rs|
    ensures Values(e, Collect(e, rs[k..])) ==
      (if Belongs(e, rs[k]) then [FromBody(e.kind, rs[k].body)] else []) + Values(e, Collect(e, rs[k + 1..]))
  {
    CollectAt(e, rs, k);
    var rest := Collect(e, rs[k + 1..]);
    if Belongs(e, rs[k]) {
      assert ([rs[k].body] + rest)[1..] == rest;
    } else {
      assert [] + rest == rest;
    }
  }

  // What the scan knows at pos: the records before it, each of a known field, begin
  // what the buffer parses to.
  ghost predicate Parsed(schema: seq<Entry>, buf: seq<Byte>, recs: seq<Rec>, pos: nat)
    requires pos <= |buf|
  {
    && (forall k {:trigger Known(schema, recs[k])} :: 0 <= k < |recs| ==> Known(schema, recs[k]))
    && var rest := Parse(buf[pos..]);
       Parse(buf) == if rest.None? then None else Some(recs + rest.value)
  }

  lemma ParsedStart(schema: seq<Entry>, buf: seq<Byte>)
    ensures Parsed(schema, buf, [], 0)
  {
    assert buf[0..] == buf;
    if Parse(buf).Some? {
      assert [] + Parse(buf).value == Parse(buf).value;
    }
  }

  lemma ParsedEnd(schema: seq<Entry>, buf: seq<Byte>, recs: seq<Rec>)
    requires Parsed(schema, buf, recs, |buf|)
    ensures Parse(buf) == Some(recs) && forall k {:trigger Known(schema, recs[k])} :: 0 <= k < |recs| ==> Known(schema, recs[k])
    ensures buf[..|buf|] == buf
  {
    assert buf[|buf|..] == [];
    assert recs + [] == recs;
  }

  // A record that suits no field, or none at all, makes the whole buffer unacceptable.
  lemma Misfit(schema: seq<Entry>, buf: seq<Byte>, recs: seq<Rec>, pos: nat)
    requires pos < |buf| && Parsed(schema, buf, recs, pos)
    requires !(ParseOne(buf[pos..]).Some? && Known(schema, ParseOne(buf[pos..]).value))
    ensures !(Parse(buf).Some? && Conforms(schema, Parse(buf).value))
  {
    if Parse(buf).Some? {
      assert Parse(buf).value[|recs|] == ParseOne(buf[pos..]).value;
    }
  }

  lemma ReadOne(buf: seq<Byte>, pos: nat, r: Rec)
    requires pos < |buf| && ParseOne(buf[pos..]) == Some(r)
    ensures pos + Size(r) <= |buf| && buf[..pos] + EncodeOne(r) == buf[..pos + Size(r)]
  {
    EncodedOfParseOne(buf[pos..]);
    assert buf[..pos] + buf[pos..][..Size(r)] == buf[..pos + Size(r)];
  }

  // One record further.
  lemma ParseOn(schema: seq<Entry>, buf: seq<Byte>, recs: seq<Rec>, pos: nat, r: Rec, more: seq<Rec>, end: nat)
    requires pos < |buf| && ParseOne(buf[pos..]) == Some(r) && Parsed(schema, buf, recs, pos) && Known(schema, r)
    requires more == recs + [r] && end == pos + Size(r)
    ensures end <= |buf| && Parsed(schema, buf, more, end)
  {
    assert buf[pos..][Size(r)..] == buf[end..];
    if Parse(buf[end..]).Some? {
      Assoc(recs, [r], Parse(buf[end..]).value);
    }
  }

  lemma CountOne(schema: seq<Entry>, i: nat, recs: seq<Rec>, r: Rec)
    requires i < |schema| && Belongs(schema[i], r)
    requires forall k :: 0 <= k < |schema| && k != i ==> !Belongs(schema[k], r)
    ensures forall k :: 0 <= k < |schema| ==>
      |Collect(schema[k], recs + [r])| == |Collect(schema[k], recs)| + if k == i then 1 else 0
  {
    forall k | 0 <= k < |schema|
      ensures |Collect(schema[k], recs + [r])| == |Collect(schema[k], recs)| + if k == i then 1 else 0
    {
      CollectSnoc(schema[k], recs, r);
    }
  }
}
