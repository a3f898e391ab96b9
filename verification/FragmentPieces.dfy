/**
  Chunks of a frame as intervals of byte positions: when intervals that do not
  overlap fill a range, how long they are together, and what bytes they carry.
 */
module FragmentPieces {
  import opened Bytes
  import opened Lists

  // One chunk: where it goes in its frame, its payload, and whether it ends the frame.
  datatype Piece = Piece(start: nat, data: seq<Byte>, last: bool) {
    function End(): nat {
      start + |data|
    }

    predicate Has(k: int) {
      start <= k < End()
    }
  }

  predicate Covered(ps: seq<Piece>, k: int) {
    exists i :: 0 <= i < |ps| && ps[i].Has(k)
  }

  predicate Overlap(a: Piece, b: Piece) {
    a.start + |a.data| > b.start && b.start + |b.data| > a.start
  }

  predicate Disjoint(ps: seq<Piece>) {
    forall i, j :: 0 <= i < j < |ps| ==> !Overlap(ps[i], ps[j])
  }

  function Sum(ps: seq<Piece>): nat {
    if ps == [] then 0 else Sum(ps[..|ps| - 1]) + |ps[|ps| - 1].data|
  }

  // The frame length announced by the piece marked last, -1 while there is none.
  function Length(ps: seq<Piece>): (n: int)
    ensures n >= -1
    ensures n == -1 <==> forall i :: 0 <= i < |ps| ==> !ps[i].last
  {
    if ps == [] then -1
    else if ps[|ps| - 1].last then ps[|ps| - 1].End()
    else Length(ps[..|ps| - 1])
  }

  // The largest end of any piece.
  function MaxEnd(ps: seq<Piece>): (n: nat)
    ensures forall i :: 0 <= i < |ps| ==> ps[i].End() <= n
    ensures n == 0 || exists i :: 0 <= i < |ps| && ps[i].End() == n
  {
    if ps == [] then 0
    else
      var n := MaxEnd(ps[..|ps| - 1]);
      var e := ps[|ps| - 1].End();
      if n < e then e else n
  }

  predicate Complete(ps: seq<Piece>) {
    Length(ps) >= 0 && Sum(ps) >= Length(ps)
  }

  // The byte the pieces put at position k; positions nobody wrote read as zero.
  function ByteAt(ps: seq<Piece>, k: nat): Byte {
    if ps == [] then 0
    else if ps[|ps| - 1].Has(k) then ps[|ps| - 1].data[k - ps[|ps| - 1].start]
    else ByteAt(ps[..|ps| - 1], k)
  }

  function Join(ps: seq<Piece>): (f: seq<Byte>)
    ensures |f| == if Length(ps) >= 0 then Length(ps) else 0
  {
    var n: nat := if Length(ps) >= 0 then Length(ps) else 0;
    seq(n, k requires 0 <= k < n => ByteAt(ps, k))
  }

  // What the assembler demands of a chunk before adding it to the ones it has.
  predicate Fits(ps: seq<Piece>, p: Piece) {
    && (forall i :: 0 <= i < |ps| ==> !Overlap(ps[i], p))
    && if p.last
       then Length(ps) < 0 && MaxEnd(ps) <= p.End()
       else Length(ps) >= 0 ==> p.End() <= Length(ps)
  }

  // What it knows of the chunks it has accepted so far.
  predicate Consistent(ps: seq<Piece>) {
    && Disjoint(ps)
    && (forall i, j :: 0 <= i < j < |ps| ==> !(ps[i].last && ps[j].last))
    && (forall i, j :: 0 <= i < |ps| && 0 <= j < |ps| && ps[i].last ==> ps[j].End() <= ps[i].End())
  }

  /**
    The pieces spell exactly the frame: every piece lies inside it and carries
    its bytes, the piece marked last is unique and ends it, and every position
    is written by exactly one piece.
   */
  ghost predicate Spells(ps: seq<Piece>, f: seq<Byte>) {
    && (forall i :: 0 <= i < |ps| ==> ps[i].End() <= |f| && ps[i].data == f[ps[i].start..ps[i].End()])
    && (exists i :: 0 <= i < |ps| && ps[i].last && ps[i].End() == |f|)
    && (forall i, j :: 0 <= i < j < |ps| ==> !(ps[i].last && ps[j].last))
    && (forall k :: 0 <= k < |f| ==> Covered(ps, k))
    && (forall i, j, k :: 0 <= i < j < |ps| && ps[i].Has(k) ==> !ps[j].Has(k))
    && Sum(ps) == |f|
  }

  ghost function Range(n: nat): (s: set<int>)
    ensures |s| == n
    ensures forall k :: k in s <==> 0 <= k < n
  {
    if n == 0 then {} else Range(n - 1) + {n - 1}
  }

  ghost function Span(start: nat, len: nat): (s: set<int>)
    ensures |s| == len
    ensures forall k :: k in s <==> start <= k < start + len
  {
    if len == 0 then {} else Span(start, len - 1) + {start + len - 1}
  }

  ghost function Cover(ps: seq<Piece>): set<int> {
    if ps == [] then {} else Cover(ps[..|ps| - 1]) + Span(ps[|ps| - 1].start, |ps[|ps| - 1].data|)
  }

  lemma {:induction false} InCover(ps: seq<Piece>, k: int)
    ensures k in Cover(ps) <==> Covered(ps, k)
  {
    if ps != [] {
      var front := ps[..|ps| - 1];
      InCover(front, k);
      if Covered(front, k) {
        var i :| 0 <= i < |front| && front[i].Has(k);
        assert ps[i].Has(k);
      }
      if Covered(ps, k) && !ps[|ps| - 1].Has(k) {
        var i :| 0 <= i < |ps| && ps[i].Has(k);
        assert front[i].Has(k);
      }
    }
  }

  // Pieces that do not overlap cover as many positions as their lengths add up to.
  lemma {:induction false} CoverSize(ps: seq<Piece>)
    requires Disjoint(ps)
    ensures |Cover(ps)| == Sum(ps)
  {
    if ps != [] {
      var front, q := ps[..|ps| - 1], ps[|ps| - 1];
      CoverSize(front);
      assert Cover(front) !! Span(q.start, |q.data|) by {
        forall k | k in Cover(front) ensures k !in Span(q.start, |q.data|) {
          InCover(front, k);
          var i :| 0 <= i < |front| && front[i].Has(k);
          assert !Overlap(ps[i], ps[|ps| - 1]);
        }
      }
      assert |Cover(front) + Span(q.start, |q.data|)| == |Cover(front)| + |Span(q.start, |q.data|)|;
    }
  }

  lemma SubsetSize(a: set<int>, b: set<int>)
    requires a <= b
    ensures |a| <= |b|
    ensures |a| == |b| ==> a == b
  {
    assert b == a + (b - a);
    assert |b| == |a| + |b - a|;
  }

  // Disjoint pieces inside [0, n) are at most n long together, and when they are
  // exactly n long there is no gap.
  lemma Fill(ps: seq<Piece>, n: nat)
    requires Disjoint(ps)
    requires forall i :: 0 <= i < |ps| ==> ps[i].End() <= n
    ensures Sum(ps) <= n
    ensures Sum(ps) == n ==> forall k :: 0 <= k < n ==> Covered(ps, k)
  {
    CoverSize(ps);
    forall k | k in Cover(ps) ensures k in Range(n) {
      InCover(ps, k);
    }
    SubsetSize(Cover(ps), Range(n));
    if Sum(ps) == n {
      forall k | 0 <= k < n ensures Covered(ps, k) {
        InCover(ps, k);
        assert k in Range(n);
      }
    }
  }

  // Disjoint pieces that leave no gap in [0, n) are exactly n long together.
  lemma NoGap(ps: seq<Piece>, n: nat)
    requires Disjoint(ps)
    requires forall i :: 0 <= i < |ps| ==> ps[i].End() <= n
    requires forall k :: 0 <= k < n ==> Covered(ps, k)
    ensures Sum(ps) == n
  {
    CoverSize(ps);
    forall k ensures k in Cover(ps) <==> k in Range(n) {
      InCover(ps, k);
    }
    assert Cover(ps) == Range(n);
  }

  lemma {:induction false} LengthOfLast(ps: seq<Piece>, i: nat)
    requires Consistent(ps) && i < |ps| && ps[i].last
    ensures Length(ps) == ps[i].End()
  {
    if i < |ps| - 1 {
      assert !ps[|ps| - 1].last;
      LengthOfLast(ps[..|ps| - 1], i);
    }
  }

  lemma {:induction false} ByteAtPiece(ps: seq<Piece>, i: nat, k: nat)
    requires Disjoint(ps) && i < |ps| && ps[i].Has(k)
    ensures ByteAt(ps, k) == ps[i].data[k - ps[i].start]
  {
    if i < |ps| - 1 {
      assert !Overlap(ps[i], ps[|ps| - 1]);
      ByteAtPiece(ps[..|ps| - 1], i, k);
    }
  }

  lemma FitsKeepsConsistent(ps: seq<Piece>, p: Piece)
    requires Consistent(ps) && Fits(ps, p)
    ensures Consistent(ps + [p])
  {
    if Length(ps) >= 0 {
      var i :| 0 <= i < |ps| && ps[i].last;
      LengthOfLast(ps, i);
    }
  }

  // A set of accepted chunks never holds more bytes than the frame has, and once
  // it holds as many it spells one frame, the one Join computes.
  lemma CompleteSpells(ps: seq<Piece>)
    requires Consistent(ps) && Length(ps) >= 0
    ensures Sum(ps) <= Length(ps)
    ensures Complete(ps) ==> Spells(ps, Join(ps))
  {
    var last :| 0 <= last < |ps| && ps[last].last;
    LengthOfLast(ps, last);
    Fill(ps, Length(ps));
    if Complete(ps) {
      var f := Join(ps);
      forall i | 0 <= i < |ps| ensures ps[i].End() <= |f| && ps[i].data == f[ps[i].start..ps[i].End()] {
        forall k | ps[i].start <= k < ps[i].End() ensures f[k] == ps[i].data[k - ps[i].start] {
          ByteAtPiece(ps, i, k);
        }
      }
      forall i, j, k | 0 <= i < j < |ps| && ps[i].Has(k) ensures !ps[j].Has(k) {
        assert !Overlap(ps[i], ps[j]);
      }
    }
  }
}
