/**
  The disassembler object: the frame being cut, the output buffer being filled and
  the latency timer. Its methods are proved to do what FragmentDisassembly describes.
 */
module FragmentDisassembler {
  import opened Bytes
  import opened Lists
  import opened FragmentPieces
  import opened FragmentWire
  import opened D = FragmentDisassembly

  // A pass of the loop that has written ps and goes on from used and outUsed.
  ghost predicate PassSoFar(cfg: Config, frame: seq<Byte>, whole: Pass, ps: seq<Piece>, used: nat, outUsed: nat) {
    && cfg.Ok() && used <= |frame| && cfg.Room(outUsed) > 0
    && var rest := Emit(cfg, frame, used, outUsed);
       whole == Pass(ps + rest.pieces, rest.used, rest.outUsed)
  }

  lemma PassNext(cfg: Config, frame: seq<Byte>, whole: Pass, ps: seq<Piece>, used: nat, outUsed: nat, n: nat, p: Piece)
    requires PassSoFar(cfg, frame, whole, ps, used, outUsed)
    requires n == cfg.ChunkLen(|frame| - used, cfg.Room(outUsed))
    requires p == Piece(used, frame[used..used + n], n == |frame| - used)
    ensures if used + n < |frame| && cfg.Room(outUsed + HEADER + n) > 0
      then PassSoFar(cfg, frame, whole, ps + [p], used + n, outUsed + HEADER + n)
      else whole == Pass(ps + [p], used + n, outUsed + HEADER + n)
  {
    if used + n < |frame| && cfg.Room(outUsed + HEADER + n) > 0 {
      EmitMore(cfg, frame, used, outUsed, n);
      Assoc(ps, [p], Emit(cfg, frame, used + n, outUsed + HEADER + n).pieces);
    }
  }

  lemma TagSnoc(id: U16, ps: seq<Piece>, p: Piece)
    ensures Tag(id, ps + [p]) == Tag(id, ps) + [Record(id, p)]
  {
  }

  // A finished packet is the encoding of its chunks.
  ghost predicate Encodes(packet: Option<seq<Byte>>, rs: Option<seq<Record>>) {
    match rs
    case None => packet == None
    case Some(rs) => (forall r :: r in rs ==> r.Encodable()) && packet == Some(Encode(rs))
  }

  class Disassembler {
    const cfg: Config
    var input: Option<seq<Byte>>
    var inUsed: nat
    var out: array?<Byte>
    var outUsed: nat
    var frameId: U16
    var timer: bool

    // the chunks in the output buffer
    ghost var recs: seq<Record>

    ghost function Abs(): State
      reads this
    {
      State(if input.Some? then Some(Job(input.value, inUsed)) else None,
            if out != null then Some(recs) else None, outUsed, frameId, timer)
    }

    // The output buffer holds the encoding of the chunks.
    ghost predicate Holds()
      reads this, out
    {
      && cfg.Ok()
      && (forall r :: r in recs ==> r.Encodable())
      && (out != null ==> out.Length == cfg.outputMtu && outUsed <= cfg.outputMtu && out[..outUsed] == Encode(recs))
    }

    ghost predicate Valid()
      reads this, out
    {
      Holds() && Inv(cfg, Abs())
    }

    constructor (cfg: Config)
      requires cfg.Ok()
      ensures Valid() && this.cfg == cfg && Abs() == INITIAL && out == null
    {
      this.cfg := cfg;
      input, inUsed, out, outUsed, frameId, timer := None, 0, null, 0, 0, false;
      recs := [];
    }

    // One turn of the loop of write_chunks: a header and its payload.
    method WriteChunk(ghost n: nat, ghost p: Piece)
      requires Holds() && input.Some? && out != null && inUsed <= |input.value| < 0x1_0000 && cfg.Room(outUsed) > 0
      requires n == cfg.ChunkLen(|input.value| - inUsed, cfg.Room(outUsed))
      requires p == Piece(inUsed, input.value[inUsed..inUsed + n], n == |input.value| - inUsed)
      modifies this`inUsed, this`outUsed, this`recs, out
      ensures Holds()
      ensures inUsed == old(inUsed) + n && outUsed == old(outUsed) + HEADER + n
      ensures recs == old(recs) + [Record(frameId, p)]
    {
      var frame := input.value;
      var avail, room := |frame| - inUsed, cfg.Room(outUsed);
      var len := if avail < room then avail else room;
      if cfg.chunkMtu > 0 && cfg.chunkMtu < len {
        len := cfg.chunkMtu;
      }
      var r := Record(frameId, Piece(inUsed, frame[inUsed..inUsed + len], len == avail));
      CopyInto(out, outUsed, EncodeOne(r));
      EncodeSnoc(recs, r);
      recs := recs + [r];
      inUsed := inUsed + len;
      outUsed := outUsed + HEADER + len;
    }

    // The body of the loop of write_chunks and its condition.
    method WriteTurn(ghost whole: Pass, ghost ps: seq<Piece>) returns (more: bool, ghost p: Piece)
      requires Holds() && input.Some? && out != null && |input.value| < 0x1_0000
      requires PassSoFar(cfg, input.value, whole, ps, inUsed, outUsed)
      modifies this`inUsed, this`outUsed, this`recs, out
      ensures Holds() && inUsed <= |input.value| && (more ==> inUsed > old(inUsed))
      ensures recs == old(recs) + [Record(frameId, p)]
      ensures more ==> PassSoFar(cfg, input.value, whole, ps + [p], inUsed, outUsed)
      ensures !more ==> whole == Pass(ps + [p], inUsed, outUsed)
    {
      ghost var frame := input.value;
      ghost var n := cfg.ChunkLen(|frame| - inUsed, cfg.Room(outUsed));
      p := Piece(inUsed, frame[inUsed..inUsed + n], n == |frame| - inUsed);
      PassNext(cfg, frame, whole, ps, inUsed, outUsed, n, p);
      WriteChunk(n, p);
      more := inUsed < |input.value| && cfg.Room(outUsed) > 0;
    }

    // The loop of write_chunks.
    method WritePass(ghost whole: Pass)
      requires Holds() && input.Some? && out != null && |input.value| < 0x1_0000
      requires PassSoFar(cfg, input.value, whole, [], inUsed, outUsed)
      modifies this`inUsed, this`outUsed, this`recs, out
      ensures Holds()
      ensures inUsed == whole.used && outUsed == whole.outUsed && recs == old(recs) + Tag(frameId, whole.pieces)
    {
      ghost var ps, p := [], Piece(0, [], false);
      EmptyUnits(recs, []);
      assert Tag(frameId, []) == [];
      var more := true;
      while more
        invariant Holds() && inUsed <= |input.value|
        invariant recs == old(recs) + Tag(frameId, ps)
        invariant more ==> PassSoFar(cfg, input.value, whole, ps, inUsed, outUsed)
        invariant !more ==> whole == Pass(ps, inUsed, outUsed)
        decreases more, |input.value| - inUsed
      {
        more, p := WriteTurn(whole, ps);
        TagSnoc(frameId, ps, p);
        Assoc(old(recs), Tag(frameId, ps), [Record(frameId, p)]);
        ps := ps + [p];
      }
    }

    // write_chunks; returns the packet it finishes.
    method WriteChunks() returns (packet: Option<seq<Byte>>)
      requires Holds() && input.Some? && out != null && inUsed <= |input.value| < 0x1_0000 && cfg.Room(outUsed) > 0
      modifies this, out
      ensures Holds() && (out == null || out == old(out))
      ensures Abs() == Write(cfg, old(Abs())).0
      ensures Encodes(packet, Write(cfg, old(Abs())).1)
    {
      ghost var pass := Emit(cfg, input.value, inUsed, outUsed);
      assert [] + pass.pieces == pass.pieces;
      WritePass(pass);
      if inUsed == |input.value| {
        input := None;
        frameId := (frameId + 1) % 0x1_0000;
      }
      if cfg.Room(outUsed) <= 0 || cfg.latency < 0 {
        packet := Some(out[..outUsed]);
        out := null;
        timer := false;
      } else {
        packet := None;
        timer := true;
      }
    }

    // input_handler_send
    method Send(data: seq<Byte>) returns (packet: Option<seq<Byte>>)
      requires Valid() && Allowed(Abs(), Input(data))
      modifies this, out
      ensures Valid() && (out == null || out == old(out))
      ensures Abs() == Step(cfg, old(Abs()), Input(data)).0
      ensures Encodes(packet, Step(cfg, old(Abs()), Input(data)).1)
    {
      StepKeeps(cfg, Abs(), Input(data));
      input, inUsed := Some(data), 0;
      if out == null {
        return None;
      }
      packet := WriteChunks();
    }

    // input_handler_requestcancel
    method RequestCancel()
      requires Valid() && Allowed(Abs(), Cancel)
      modifies this`input
      ensures Valid() && Abs() == Step(cfg, old(Abs()), Cancel).0
    {
      input := None;
    }

    // output_handler_recv
    method Recv(data: array<Byte>) returns (packet: Option<seq<Byte>>)
      requires Valid() && Allowed(Abs(), D.Recv) && data.Length == cfg.outputMtu
      modifies this, data
      ensures Valid() && (out == null || out == data)
      ensures Abs() == Step(cfg, old(Abs()), D.Recv).0
      ensures Encodes(packet, Step(cfg, old(Abs()), D.Recv).1)
    {
      StepKeeps(cfg, Abs(), D.Recv);
      out, outUsed, recs := data, 0, [];
      if input.None? {
        return None;
      }
      packet := WriteChunks();
    }

    // timer_handler: there is a packet, and no frame is waiting
    method TimerHandler() returns (packet: seq<Byte>)
      requires Valid() && Allowed(Abs(), Timer)
      modifies this`out, this`timer
      ensures Valid() && old(input).None? && cfg.latency >= 0
      ensures Abs() == Step(cfg, old(Abs()), Timer).0
      ensures Encodes(Some(packet), Step(cfg, old(Abs()), Timer).1)
    {
      packet := out[..outUsed];
      out, timer := null, false;
    }
  }
}
