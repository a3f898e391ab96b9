/**
  The Internet checksum of RFC 1071 as the two Go packages compute it: with 32-bit
  accumulators that could wrap around, and with different ways of folding the carries
  back in. The reference is arithmetic modulo 65535.
 */
module Checksum {
  import opened Bytes

  const TWO16: int := 0x1_0000
  const TWO32: int := 0x1_0000_0000

  // The sum of the big-endian 16-bit words in the first n bytes; an odd last byte is
  // the high half of a word.
  function WordSum(b: seq<Byte>, n: nat): (s: nat)
    requires n <= |b|
  {
    if n == 0 then 0 else WordSum(b, n - 1) + (b[n - 1] as int) * (if (n - 1) % 2 == 0 then 256 else 1)
  }

  function Word(hi: Byte, lo: Byte): (w: U16) {
    256 * (hi as int) + lo as int
  }

  lemma WordSumNext(b: seq<Byte>, n: nat)
    requires n % 2 == 0 && n + 1 < |b|
    ensures WordSum(b, n + 2) == WordSum(b, n) + Word(b[n], b[n + 1])
  {
    assert WordSum(b, n + 1) == WordSum(b, n) + 256 * (b[n] as int);
  }

  /**
    The ones' complement sum of 16-bit words with this plain sum: the number in
    1..65535 congruent to it, or zero if every word is zero.
   */
  function OnesComplement(s: nat): (r: U16) {
    if s == 0 then 0 else 1 + (s - 1) % 65535
  }

  // The checksum of a header whose checksum field is zero (RFC 1071).
  function Reference(b: seq<Byte>): (r: U16) {
    65535 - OnesComplement(WordSum(b, |b|))
  }

  // The pseudo header of RFC 9293, section 3.1.
  function Pseudo(src: seq<Byte>, dst: seq<Byte>, len: U16): (b: seq<Byte>)
    requires |src| == |dst| == 4
    ensures |b| == 12
  {
    src + dst + [0, 6] + Be16(len)
  }

  // ----- sums

  lemma {:induction false} WordSumBound(b: seq<Byte>, n: nat)
    requires n <= |b|
    ensures 2 * WordSum(b, n) <= 65535 * n + 65025
    ensures n % 2 == 0 ==> 2 * WordSum(b, n) <= 65535 * n
  {
    if n > 0 {
      WordSumBound(b, n - 1);
    }
  }

  // Only the first n bytes matter.
  lemma {:induction false} WordSumSame(a: seq<Byte>, b: seq<Byte>, n: nat)
    requires n <= |a| && n <= |b| && a[..n] == b[..n]
    ensures WordSum(a, n) == WordSum(b, n)
  {
    if n > 0 {
      assert a[n - 1] == a[..n][n - 1] == b[..n][n - 1] == b[n - 1];
      assert a[..n - 1] == a[..n][..n - 1] == b[..n][..n - 1] == b[..n - 1];
      WordSumSame(a, b, n - 1);
    }
  }

  // Bytes after an even prefix are summed on their own.
  lemma {:induction false} WordSumConcat(a: seq<Byte>, b: seq<Byte>, n: nat)
    requires |a| % 2 == 0 && n <= |b|
    ensures WordSum(a + b, |a| + n) == WordSum(a, |a|) + WordSum(b, n)
  {
    if n == 0 {
      assert (a + b)[..|a|] == a[..|a|];
      WordSumSame(a + b, a, |a|);
    } else {
      WordSumConcat(a, b, n - 1);
      assert (a + b)[|a| + n - 1] == b[n - 1];
      assert (|a| + n - 1) % 2 == (n - 1) % 2;
    }
  }

  // Storing a word where a zero word was adds that word to the sum.
  lemma {:induction false} WordSumStore(b: seq<Byte>, k: nat, w: U16, n: nat)
    requires k % 2 == 0 && k + 1 < |b| && b[k] == 0 && b[k + 1] == 0 && n <= |b|
    ensures WordSum(Store(b, k, w), n) == WordSum(b, n) + (if n <= k then 0 else if n == k + 1 then w / 256 * 256 else w)
  {
    if n > 0 {
      WordSumStore(b, k, w, n - 1);
    }
  }

  // A word put at position k, high byte first.
  function Store(b: seq<Byte>, k: nat, w: U16): (r: seq<Byte>)
    requires k + 1 < |b|
    ensures |r| == |b|
  {
    b[k := w / 256][k + 1 := w % 256]
  }

  // ----- folding

  // One fold keeps the ones' complement value and, above 16 bits, makes it smaller.
  lemma FoldKeeps(s: nat)
    ensures OnesComplement(s % TWO16 + s / TWO16) == OnesComplement(s)
    ensures s >= TWO16 ==> s % TWO16 + s / TWO16 < s
  {
    var q, m := s / TWO16, s % TWO16;
    assert s == q * TWO16 + m;
    if s > 0 {
      assert q + m > 0;
      assert s - 1 == (q + m - 1) + 65535 * q;
      ModPlus(q + m - 1, q);
    }
  }

  lemma {:induction false} ModPlus(x: nat, q: nat)
    ensures (x + 65535 * q) % 65535 == x % 65535
  {
    if q > 0 {
      ModPlus(x, q - 1);
      assert x + 65535 * q == (x + 65535 * (q - 1)) + 65535;
    }
  }

  lemma Folded(s: nat)
    requires s < TWO16
    ensures OnesComplement(s) == s
  {
  }

  /**
    Storing the checksum makes the sum vanish: the check a receiver makes accepts.
   */
  lemma ChecksumVanishes(s: nat)
    ensures OnesComplement(s + (65535 - OnesComplement(s))) == 65535
  {
    if s > 0 {
      var q := (s - 1) / 65535;
      assert s == 65535 * q + OnesComplement(s);
      assert s + (65535 - OnesComplement(s)) - 1 == 65534 + 65535 * q;
      ModPlus(65534, q);
    }
  }

  lemma StoredVanishes(b: seq<Byte>, k: nat)
    requires k % 2 == 0 && k + 1 < |b| && b[k] == 0 && b[k + 1] == 0
    ensures Reference(Store(b, k, Reference(b))) == 0
  {
    WordSumStore(b, k, Reference(b), |b|);
    ChecksumVanishes(WordSum(b, |b|));
  }

  // ----- the accumulator is 32 bits wide

  function Add32(a: int, b: int): (r: U32)
    ensures 0 <= a && 0 <= b && a + b < TWO32 ==> r == a + b
  {
    (a + b) % TWO32
  }

  lemma Add32Mod(a: nat, b: nat)
    ensures Add32(a % TWO32, b) == (a + b) % TWO32
  {
    var q := a / TWO32;
    assert a == q * TWO32 + a % TWO32;
    assert a + b == (a % TWO32 + b) + q * TWO32;
    ModPlus32(a % TWO32 + b, q);
  }

  lemma {:induction false} ModPlus32(x: nat, q: nat)
    ensures (x + q * TWO32) % TWO32 == x % TWO32
  {
    if q > 0 {
      ModPlus32(x, q - 1);
      assert x + q * TWO32 == (x + (q - 1) * TWO32) + TWO32;
    }
  }

  // The words of b are added to the accumulator. It wraps around if it must.
  method Accumulate(start: U32, b: seq<Byte>) returns (sum: U32)
    ensures sum == (start + WordSum(b, |b|)) % TWO32
  {
    sum := start;
    var i := 0;
    while i + 1 < |b|
      invariant i <= |b| && i % 2 == 0
      invariant sum == (start + WordSum(b, i)) % TWO32
    {
      Add32Mod(start + WordSum(b, i), Word(b[i], b[i + 1]));
      sum := Add32(sum, Word(b[i], b[i + 1]));
      WordSumNext(b, i);
      i := i + 2;
    }
    if i < |b| {
      Add32Mod(start + WordSum(b, i), Word(b[i], 0));
      sum := Add32(sum, Word(b[i], 0));
    }
  }

  // The carries are added back until none is left.
  method FoldAll(s: U32) returns (r: U16)
    ensures r == OnesComplement(s)
  {
    var sum: nat := s;
    while sum / TWO16 != 0
      invariant OnesComplement(sum) == OnesComplement(s)
      decreases sum
    {
      FoldKeeps(sum);
      sum := sum % TWO16 + sum / TWO16;
    }
    Folded(sum);
    r := sum;
  }

  // Two folds in a row, without looking: enough for any 32-bit sum.
  method FoldTwice(s: U32) returns (r: U16)
    ensures r == OnesComplement(s)
  {
    FoldKeeps(s);
    var sum := s / TWO16 + s % TWO16;
    FoldKeeps(sum);
    var next := sum + sum / TWO16;
    assert next % TWO16 == sum % TWO16 + sum / TWO16;
    Folded(next % TWO16);
    r := next % TWO16;
  }

  // The longest input whose words cannot overflow the accumulator.
  const SAFE: nat := 131074

  lemma NoOverflow(b: seq<Byte>)
    requires |b| <= SAFE
    ensures WordSum(b, |b|) < TWO32
  {
    WordSumBound(b, |b|);
  }

  method OnesComplementSum(b: seq<Byte>) returns (r: U16)
    ensures |b| <= SAFE ==> r == Reference(b)
  {
    var sum := Accumulate(0, b);
    if |b| <= SAFE {
      NoOverflow(b);
    }
    var f := FoldAll(sum);
    r := 65535 - f;
  }

  // network.IPChecksum
  method IPChecksum(b: seq<Byte>) returns (r: U16)
    ensures |b| <= SAFE ==> r == Reference(b)
  {
    var sum := Accumulate(0, b);
    if |b| <= SAFE {
      NoOverflow(b);
    }
    var f := FoldTwice(sum);
    r := 65535 - f;
  }

  // The pseudo header is added field by field, the length without cutting it down.
  method AddPseudo(src: seq<Byte>, dst: seq<Byte>, len: nat) returns (sum: U32)
    requires |src| == |dst| == 4
    ensures len <= 65535 ==> sum == WordSum(Pseudo(src, dst, len), 12)
  {
    sum := Add32(0, Word(src[0], src[1]));
    sum := Add32(sum, Word(src[2], src[3]));
    sum := Add32(sum, Word(dst[0], dst[1]));
    sum := Add32(sum, Word(dst[2], dst[3]));
    sum := Add32(sum, 6);
    sum := Add32(sum, len % TWO32);
    if len <= 65535 {
      PseudoSum(src, dst, len);
    }
  }

  method TcpChecksum(tcp: seq<Byte>, src: seq<Byte>, dst: seq<Byte>) returns (r: U16)
    requires |src| == |dst| == 4
    ensures |tcp| <= 65535 ==> r == Reference(Pseudo(src, dst, |tcp|) + tcp)
  {
    var sum := AddPseudo(src, dst, |tcp|);
    sum := Accumulate(sum, tcp);
    if |tcp| <= 65535 {
      SegmentSum(Pseudo(src, dst, |tcp|), tcp);
    }
    var f := FoldAll(sum);
    r := 65535 - f;
  }

  lemma SegmentSum(pseudo: seq<Byte>, tcp: seq<Byte>)
    requires |pseudo| == 12 && |tcp| <= 65535
    ensures (WordSum(pseudo, 12) + WordSum(tcp, |tcp|)) % TWO32 == WordSum(pseudo + tcp, |pseudo + tcp|)
  {
    WholeSum(pseudo, tcp);
    NoOverflow(pseudo + tcp);
  }

  lemma PseudoSum(src: seq<Byte>, dst: seq<Byte>, len: U16)
    requires |src| == |dst| == 4
    ensures WordSum(Pseudo(src, dst, len), 12) ==
      Word(src[0], src[1]) + Word(src[2], src[3]) + Word(dst[0], dst[1]) + Word(dst[2], dst[3]) + 6 + len
  {
    var b := Pseudo(src, dst, len);
    WordSumNext(b, 0);
    WordSumNext(b, 2);
    WordSumNext(b, 4);
    WordSumNext(b, 6);
    WordSumNext(b, 8);
    WordSumNext(b, 10);
  }

  // network.TCPChecksum: the pseudo header is built as bytes and summed with the rest.
  method TcpChecksumBytes(tcp: seq<Byte>, src: seq<Byte>, dst: seq<Byte>) returns (r: U16)
    requires |src| == |dst| == 4
    ensures |tcp| <= 65535 ==> r == Reference(Pseudo(src, dst, |tcp|) + tcp)
  {
    var pseudo: seq<Byte> := src + dst + [0, 6] + [|tcp| / 256 % 256, |tcp| % 256];
    assert |tcp| <= 65535 ==> pseudo == Pseudo(src, dst, |tcp|);
    var all := pseudo + tcp;
    var sum := Accumulate(0, all);
    if |tcp| <= 65535 {
      NoOverflow(all);
    }
    var f := FoldAll(sum);
    r := 65535 - f;
  }

  // ----- whole packets

  predicate IsIpv4(p: seq<Byte>) {
    |p| >= 20 && p[0] / 16 == 4
  }

  function HeaderLength(p: seq<Byte>): nat
    requires |p| >= 1
  {
    p[0] % 16 * 4
  }

  predicate IsTcp(p: seq<Byte>) {
    IsIpv4(p) && p[9] == 6 && HeaderLength(p) >= 20 && |p| >= HeaderLength(p) + 20
  }

  predicate HasHeader(p: seq<Byte>) {
    IsIpv4(p) && 20 <= HeaderLength(p) <= |p|
  }

  // The sum a receiver computes over the header, options included, and over a TCP
  // segment and its pseudo header; both must come out as zero.
  function HeaderCheck(p: seq<Byte>): (r: U16)
    requires HasHeader(p)
  {
    Reference(p[..HeaderLength(p)])
  }

  function Options(p: seq<Byte>): seq<Byte>
    requires HasHeader(p)
  {
    p[20..HeaderLength(p)]
  }

  // The words of the options add up to nothing, as they do when there are none.
  predicate OptionsVanish(p: seq<Byte>)
    requires HasHeader(p)
  {
    Multiple(WordSum(Options(p), |Options(p)|))
  }

  function SegmentCheck(p: seq<Byte>): (r: U16)
    requires IsTcp(p) && |p| <= 65535
  {
    var tcp := p[HeaderLength(p)..];
    Reference(Pseudo(p[12..16], p[16..20], |tcp|) + tcp)
  }

  method StoreWord(pkt: array<Byte>, k: nat, w: U16)
    requires k + 1 < pkt.Length
    modifies pkt
    ensures pkt[..] == Store(old(pkt[..]), k, w)
  {
    pkt[k] := w / 256;
    pkt[k + 1] := w % 256;
  }

  // What the program leaves in the buffer of an IP packet, which is at most 65535 bytes:
  // first the header's checksum is put right, then the segment's.
  function HeaderFixed(p: seq<Byte>): (f: seq<Byte>)
    requires |p| >= 20
    ensures |f| == |p|
  {
    var z := Store(p, 10, 0);
    Store(z, 10, Reference(z[..20]))
  }

  function SegmentFixed(p: seq<Byte>, h: nat): (f: seq<Byte>)
    requires 20 <= h && h + 20 <= |p| <= 65535
    ensures |f| == |p|
  {
    var t := Store(p, h + 16, 0);
    Store(t, h + 16, Reference(Pseudo(p[12..16], p[16..20], |p| - h) + t[h..]))
  }

  function Fixed(p: seq<Byte>): (f: seq<Byte>)
    requires IsIpv4(p) && |p| <= 65535
    ensures |f| == |p|
  {
    if IsTcp(p) then SegmentFixed(HeaderFixed(p), HeaderLength(p)) else HeaderFixed(p)
  }

  method FixHeader(pkt: array<Byte>)
    requires pkt.Length >= 20
    modifies pkt
    ensures pkt[..] == HeaderFixed(old(pkt[..]))
  {
    StoreWord(pkt, 10, 0);
    assert pkt[..20] == pkt[..][..20];
    var ipSum := OnesComplementSum(pkt[..20]);
    StoreWord(pkt, 10, ipSum);
  }

  // The segment starts behind the IP header.
  method FixSegment(pkt: array<Byte>, ihl: nat)
    requires 20 <= ihl && ihl + 20 <= pkt.Length
    modifies pkt
    ensures pkt.Length <= 65535 ==> pkt[..] == SegmentFixed(old(pkt[..]), ihl)
  {
    ghost var p := pkt[..];
    StoreWord(pkt, ihl + 16, 0);
    assert pkt[ihl..] == pkt[..][ihl..];
    assert pkt[12..16] == p[12..16] && pkt[16..20] == p[16..20];
    var sum := TcpChecksum(pkt[ihl..], pkt[12..16], pkt[16..20]);
    StoreWord(pkt, ihl + 16, sum);
  }

  /**
    Both checksums are put right in place, that of the header over its first 20 bytes.
   */
  method FixChecksums(pkt: array<Byte>)
    modifies pkt
    ensures !IsIpv4(old(pkt[..])) ==> pkt[..] == old(pkt[..])
    ensures IsIpv4(old(pkt[..])) && pkt.Length <= 65535 ==> pkt[..] == Fixed(old(pkt[..]))
  {
    if pkt.Length < 20 || pkt[0] / 16 != 4 {
      return;
    }
    ghost var p := pkt[..];
    FixHeader(pkt);
    assert pkt[..][9] == p[9] && pkt[..][0] == p[0];
    if pkt[9] != 6 {
      return;
    }
    var ihl := pkt[0] % 16 * 4;
    if ihl < 20 || pkt.Length < ihl + 20 {
      return;
    }
    FixSegment(pkt, ihl);
  }

  /**
    What a receiver makes of a packet whose checksums have been put right. The program
    sums 20 bytes of the header, so the header is accepted exactly if its options add
    up to nothing; a segment always is.
   */
  lemma FixedVerifies(p: seq<Byte>)
    requires IsIpv4(p) && |p| <= 65535
    ensures IsIpv4(Fixed(p)) && HeaderLength(Fixed(p)) == HeaderLength(p)
    ensures HasHeader(p) ==> (HeaderCheck(Fixed(p)) == 0 <==> OptionsVanish(p)) && Options(Fixed(p)) == Options(p)
    ensures IsTcp(Fixed(p)) <==> IsTcp(p)
    ensures IsTcp(p) ==> SegmentCheck(Fixed(p)) == 0
    ensures forall k :: 0 <= k < |p| && k != 10 && k != 11 ==>
      Fixed(p)[k] == p[k] || (IsTcp(p) && HeaderLength(p) + 16 <= k <= HeaderLength(p) + 17)
  {
    HeaderVerifies(p);
    var f, h := Fixed(p), HeaderFixed(p);
    if IsTcp(p) {
      SegmentVerifies(h, HeaderLength(p));
    }
    if HasHeader(p) {
      var n := HeaderLength(p);
      assert f[..n] == h[..n];
      assert h[20..n] == Options(p) && f[20..n] == Options(p);
      WithOptions(h[..20], Options(p));
      assert h[..n] == h[..20] + Options(p);
    }
  }

  // Bytes after a block that checks out spoil it, unless they add up to nothing.
  lemma WithOptions(a: seq<Byte>, b: seq<Byte>)
    requires |a| % 2 == 0 && Reference(a) == 0
    ensures Reference(a + b) == 0 <==> Multiple(WordSum(b, |b|))
  {
    ReferenceZero(a);
    ReferenceZero(a + b);
    BothMultiple(a, b);
  }

  lemma BothMultiple(a: seq<Byte>, b: seq<Byte>)
    requires |a| % 2 == 0 && Multiple(WordSum(a, |a|))
    ensures Multiple(WordSum(a + b, |a + b|)) <==> Multiple(WordSum(b, |b|))
    ensures WordSum(a, |a|) <= WordSum(a + b, |a + b|)
  {
    WholeSum(a, b);
    AddedToZero(WordSum(a, |a|), WordSum(b, |b|));
  }

  lemma WholeSum(a: seq<Byte>, b: seq<Byte>)
    requires |a| % 2 == 0
    ensures WordSum(a + b, |a + b|) == WordSum(a, |a|) + WordSum(b, |b|)
  {
    WordSumConcat(a, b, |b|);
  }

  predicate Multiple(s: nat) {
    s % 65535 == 0
  }

  lemma ReferenceZero(b: seq<Byte>)
    ensures Reference(b) == 0 <==> WordSum(b, |b|) > 0 && Multiple(WordSum(b, |b|))
  {
    if WordSum(b, |b|) > 0 {
      LikeZero(WordSum(b, |b|));
    }
  }

  lemma AddedToZero(s: nat, t: nat)
    requires Multiple(s)
    ensures Multiple(s + t) <==> Multiple(t)
  {
    ModPlus(t, s / 65535);
  }

  lemma LikeZero(s: nat)
    requires s > 0
    ensures OnesComplement(s) == 65535 <==> Multiple(s)
  {
    var q := s / 65535;
    if s % 65535 == 0 {
      assert s - 1 == 65534 + 65535 * (q - 1);
      ModPlus(65534, q - 1);
    } else {
      assert s - 1 == (s % 65535 - 1) + 65535 * q;
      ModPlus(s % 65535 - 1, q);
    }
  }

  // Without options the header is accepted; with a router alert behind it, say, it is not.
  lemma PlainAccepted(p: seq<Byte>)
    requires HasHeader(p) && |p| <= 65535 && HeaderLength(p) == 20
    ensures HasHeader(Fixed(p)) && HeaderCheck(Fixed(p)) == 0
  {
    FixedVerifies(p);
  }

  lemma AlertRefused(p: seq<Byte>)
    requires HasHeader(p) && |p| <= 65535 && Options(p) == ROUTER_ALERT
    ensures HasHeader(Fixed(p)) && HeaderCheck(Fixed(p)) != 0
  {
    FixedVerifies(p);
    AlertSum();
  }

  const ROUTER_ALERT: seq<Byte> := [0x94, 4, 0, 0]

  lemma AlertSum()
    ensures WordSum(ROUTER_ALERT, 4) == 0x9404
  {
    WordSumNext(ROUTER_ALERT, 0);
    WordSumNext(ROUTER_ALERT, 2);
  }

  lemma HeaderVerifies(p: seq<Byte>)
    requires |p| >= 20
    ensures Reference(HeaderFixed(p)[..20]) == 0
    ensures forall k :: 0 <= k < |p| && k != 10 && k != 11 ==> HeaderFixed(p)[k] == p[k]
  {
    var z := Store(p, 10, 0);
    StoredVanishes(z[..20], 10);
    assert HeaderFixed(p)[..20] == Store(z[..20], 10, Reference(z[..20]));
  }

  lemma SegmentVerifies(p: seq<Byte>, h: nat)
    requires IsTcp(p) && |p| <= 65535 && h == HeaderLength(p)
    ensures var f := SegmentFixed(p, h); IsTcp(f) && HeaderLength(f) == h && SegmentCheck(f) == 0
  {
    var t := Store(p, h + 16, 0);
    var pseudo := Pseudo(p[12..16], p[16..20], |p| - h);
    var w := Reference(pseudo + t[h..]);
    var f := Store(t, h + 16, w);
    StoredVanishes(pseudo + t[h..], 28);
    assert f[12..16] == p[12..16] && f[16..20] == p[16..20];
    assert pseudo + f[h..] == Store(pseudo + t[h..], 28, w);
  }
}
