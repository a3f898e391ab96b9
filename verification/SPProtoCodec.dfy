/**
  SPProto packets: one-time-password data, hash and payload, padded and encrypted. The
  cipher and the hash are functions of which only the sizes and the round trip are
  known.
 */
module SPProtoCodec {
  import opened Bytes
  import opened Lists

  // sizeof(struct spproto_otpdata): seed id and password
  const OTPDATA: nat := 6

  // A hash size or a block size of zero stands for the mode "none".
  datatype Params = Params(haveOtp: bool, hashSize: nat, block: nat) {
    function HashOff(): nat {
      if haveOtp then OTPDATA else 0
    }

    function HeaderLen(): nat {
      HashOff() + hashSize
    }
  }

  datatype Crypto = Crypto(encrypt: (seq<Byte>, seq<Byte>) -> seq<Byte>, decrypt: (seq<Byte>, seq<Byte>) -> seq<Byte>,
                           hash: seq<Byte> -> seq<Byte>)
  {
    ghost predicate Sound(params: Params) {
      && (forall x :: |hash(x)| == params.hashSize)
      && (params.block > 0 ==> forall iv, x :: |iv| == params.block && |x| % params.block == 0 ==>
            |encrypt(iv, x)| == |x| && decrypt(iv, encrypt(iv, x)) == x)
      && (params.block > 0 ==> forall iv, x :: |decrypt(iv, x)| == |x|)
    }
  }

  type Otp = o: seq<Byte> | |o| == 4 witness [0, 0, 0, 0]

  datatype Password = Password(seedId: U16, otp: Otp)

  // ----- padding

  function Zeros(n: nat): (z: seq<Byte>)
    ensures |z| == n && forall i :: 0 <= i < n ==> z[i] == 0
  {
    seq(n, _ => 0)
  }

  // balign_up
  function AlignUp(n: nat, b: nat): nat
    requires b > 0
  {
    if n % b == 0 then n else n + (b - n % b)
  }

  lemma {:induction false} MultipleGap(p: int, q: int, b: nat)
    ensures p < q ==> q * b >= p * b + b
    decreases q - p
  {
    if p < q {
      MultipleGap(p, q - 1, b);
      assert q * b == (q - 1) * b + b;
    }
  }

  lemma MultipleMod(q: nat, b: nat)
    requires b > 0
    ensures (q * b) % b == 0
  {
    var a := q * b;
    var d, r := a / b, a % b;
    assert a == d * b + r;
    MultipleGap(d, q, b);
    MultipleGap(q, d, b);
  }

  lemma AlignUpIs(n: nat, b: nat)
    requires b > 0
    ensures AlignUp(n, b) % b == 0 && n <= AlignUp(n, b) < n + b
  {
    if n % b != 0 {
      var q := n / b;
      assert n == q * b + n % b;
      assert AlignUp(n, b) == (q + 1) * b;
      MultipleMod(q + 1, b);
    }
  }

  // There is one multiple in each window of the block size.
  lemma AlignUpUnique(n: nat, m: nat, b: nat)
    requires b > 0 && m % b == 0 && n <= m < n + b
    ensures AlignUp(n, b) == m
  {
    AlignUpIs(n, b);
    var a := AlignUp(n, b);
    var p, q := a / b, m / b;
    assert a == p * b && m == q * b;
    MultipleGap(p, q, b);
    MultipleGap(q, p, b);
  }

  lemma NextMultiple(n: nat, b: nat)
    requires b > 0 && n % b == 0
    ensures (n + b) % b == 0
  {
    var q := n / b;
    assert n + b == (q + 1) * b;
    MultipleMod(q + 1, b);
  }

  function Pad(x: seq<Byte>, b: nat): (p: seq<Byte>)
    requires b > 0
  {
    AlignUpIs(|x| + 1, b);
    x + [1] + Zeros(AlignUp(|x| + 1, b) - |x| - 1)
  }

  // The length of the padded plaintext, found by scanning the last block backwards.
  function Unpad(p: seq<Byte>, b: nat): Option<nat>
    requires b > 0
  {
    if |p| < b then None else ScanBack(p, |p|, |p| - b)
  }

  // The last byte among lo..hi that is not zero must be a one.
  function ScanBack(p: seq<Byte>, hi: nat, lo: nat): (n: Option<nat>)
    requires lo <= hi <= |p|
    ensures n.Some? ==> lo <= n.value < hi && p[n.value] == 1 && forall i :: n.value < i < hi ==> p[i] == 0
    ensures n.None? ==> (forall i :: lo <= i < hi ==> p[i] == 0) || exists j :: lo <= j < hi && p[j] > 1 && forall i :: j < i < hi ==> p[i] == 0
    decreases hi
  {
    if hi == lo then None
    else if p[hi - 1] == 1 then Some(hi - 1)
    else if p[hi - 1] != 0 then None
    else ScanBack(p, hi - 1, lo)
  }

  lemma PadLast(x: seq<Byte>, b: nat)
    requires b > 0
    ensures var p := Pad(x, b);
      && |p| == AlignUp(|x| + 1, b) && |p| % b == 0 && |x| < |p| <= |x| + b && b <= |p|
      && p[..|x|] == x && p[|x|] == 1 && forall i :: |x| < i < |p| ==> p[i] == 0
  {
    AlignUpIs(|x| + 1, b);
    var p := Pad(x, b);
    assert p == x + ([1] + Zeros(AlignUp(|x| + 1, b) - |x| - 1));
    if |p| < b {
      SmallMod(|p|, b);
    }
  }

  lemma SmallMod(n: nat, b: nat)
    requires 0 < n < b
    ensures n % b != 0
  {
  }

  /**
    The padding check accepts a decrypted buffer exactly if it is the padding of some
    plaintext, and then of that one only.
   */
  lemma UnpadExactly(p: seq<Byte>, b: nat, x: seq<Byte>)
    requires b > 0 && |p| % b == 0
    ensures Pad(x, b) == p <==> Unpad(p, b) == Some(|x|) && |x| <= |p| && x == p[..|x|]
  {
    PadLast(x, b);
    if Pad(x, b) == p {
      var n := ScanBack(p, |p|, |p| - b);
      assert n.Some?;
      assert n.value == |x|;
    }
    if Unpad(p, b) == Some(|x|) && |x| <= |p| && x == p[..|x|] {
      AlignUpUnique(|x| + 1, |p|, b);
      var q := Pad(x, b);
      assert |q| == |p|;
      assert forall i :: 0 <= i < |x| ==> q[i] == p[i] by { assert q[..|x|] == p[..|x|]; }
      assert q == p;
    }
  }

  // ----- packets

  function OtpData(params: Params, pw: Password): (b: seq<Byte>)
    ensures |b| == params.HashOff()
  {
    if params.haveOtp then Le16(pw.seedId) + pw.otp else []
  }

  // The hash is that of the packet with the hash field zeroed.
  function Plaintext(params: Params, c: Crypto, pw: Password, payload: seq<Byte>): seq<Byte> {
    var front := OtpData(params, pw);
    if params.hashSize == 0 then front + payload
    else front + c.hash(front + Zeros(params.hashSize) + payload) + payload
  }

  function Encode(params: Params, c: Crypto, pw: Password, iv: seq<Byte>, payload: seq<Byte>): seq<Byte> {
    var plain := Plaintext(params, c, pw, payload);
    if params.block == 0 then plain else iv + c.encrypt(iv, Pad(plain, params.block))
  }

  // The plaintext inside a packet.
  function Opened(params: Params, c: Crypto, haveKey: bool, packet: seq<Byte>): Option<seq<Byte>> {
    if params.block == 0 then Some(packet)
    else if |packet| % params.block != 0 || |packet| < params.block || !haveKey then None
    else
      var p := c.decrypt(packet[..params.block], packet[params.block..]);
      var n := Unpad(p, params.block);
      if n.None? then None else Some(p[..n.value])
  }

  predicate HashOk(params: Params, c: Crypto, plain: seq<Byte>)
    requires |plain| >= params.HeaderLen()
  {
    var off, len := params.HashOff(), params.HeaderLen();
    params.hashSize == 0 || plain[off..len] == c.hash(plain[..off] + Zeros(params.hashSize) + plain[len..])
  }

  datatype Decoded = Decoded(pw: Option<Password>, payload: seq<Byte>)

  function Decode(params: Params, c: Crypto, haveKey: bool, mtu: nat, packet: seq<Byte>): Option<Decoded> {
    var plain := Opened(params, c, haveKey, packet);
    if plain.None? || |plain.value| < params.HeaderLen() || |plain.value| - params.HeaderLen() > mtu then None
    else if !HashOk(params, c, plain.value) then None
    else
      var pw := if params.haveOtp then Some(Password(FromLe16(plain.value), plain.value[2..6])) else None;
      Some(Decoded(pw, plain.value[params.HeaderLen()..]))
  }

  lemma OpenedOfEncoded(params: Params, c: Crypto, pw: Password, iv: seq<Byte>, payload: seq<Byte>)
    requires c.Sound(params) && |iv| == params.block
    ensures Opened(params, c, true, Encode(params, c, pw, iv, payload)) == Some(Plaintext(params, c, pw, payload))
  {
    if params.block > 0 {
      var plain, b := Plaintext(params, c, pw, payload), params.block;
      var p := Pad(plain, b);
      PadLast(plain, b);
      var e := Encode(params, c, pw, iv, payload);
      assert e[..b] == iv && e[b..] == c.encrypt(iv, p);
      NextMultiple(|p|, b);
      UnpadExactly(p, b, plain);
    }
  }

  /**
    A packet decodes to the payload and the password it was made from, for every
    cipher, hash, password and IV.
   */
  lemma PacketRoundTrip(params: Params, c: Crypto, pw: Password, iv: seq<Byte>, payload: seq<Byte>, mtu: nat)
    requires c.Sound(params) && |iv| == params.block && |payload| <= mtu
    ensures Decode(params, c, true, mtu, Encode(params, c, pw, iv, payload)) ==
      Some(Decoded(if params.haveOtp then Some(pw) else None, payload))
  {
    OpenedOfEncoded(params, c, pw, iv, payload);
    var plain := Plaintext(params, c, pw, payload);
    var front := OtpData(params, pw);
    var off, len := params.HashOff(), params.HeaderLen();
    if params.hashSize > 0 {
      var h := c.hash(front + Zeros(params.hashSize) + payload);
      assert plain[off..len] == h && plain[..off] == front;
    }
    assert plain[len..] == payload;
    if params.haveOtp {
      assert plain[0] == front[0] && plain[1] == front[1];
      assert plain[2..6] == front[2..6] == pw.otp;
    }
  }

  // ----- which packets decode, and to what

  /**
    The bytes of a plaintext: with one-time passwords the seed id, low byte first, and the
    password; then the hash of all of it with the hash field zeroed; then the payload.
   */
  ghost predicate Genuine(params: Params, c: Crypto, d: Decoded, plain: seq<Byte>) {
    && (d.pw.Some? <==> params.haveOtp)
    && exists hash :: LaidOut(params, c, d, plain, hash)
  }

  predicate LaidOut(params: Params, c: Crypto, d: Decoded, plain: seq<Byte>, hash: seq<Byte>) {
    var head := if d.pw.Some? then [d.pw.value.seedId % 256, d.pw.value.seedId / 256] + d.pw.value.otp else [];
    && plain == head + hash + d.payload && |hash| == params.hashSize
    && (params.hashSize > 0 ==> hash == c.hash(head + Zeros(params.hashSize) + d.payload))
  }

  // A packet holds a plaintext: as it is, or padded and encrypted behind an IV.
  ghost predicate Holds(params: Params, c: Crypto, haveKey: bool, packet: seq<Byte>, plain: seq<Byte>) {
    if params.block == 0 then packet == plain
    else
      && haveKey && |packet| >= params.block && |packet| % params.block == 0
      && c.decrypt(packet[..params.block], packet[params.block..]) == Pad(plain, params.block)
  }

  lemma OpenedExactly(params: Params, c: Crypto, haveKey: bool, packet: seq<Byte>, plain: seq<Byte>)
    requires c.Sound(params)
    ensures Opened(params, c, haveKey, packet) == Some(plain) <==> Holds(params, c, haveKey, packet, plain)
  {
    var b := params.block;
    if b > 0 && haveKey && |packet| >= b && |packet| % b == 0 {
      var p := c.decrypt(packet[..b], packet[b..]);
      LessOne(|packet|, b);
      assert |p| % b == 0;
      UnpadExactly(p, b, plain);
      if Unpad(p, b).Some? {
        var n := Unpad(p, b).value;
        assert Some(p[..n]) == Some(plain) ==> n == |plain|;
      }
    }
  }

  lemma LessOne(n: nat, b: nat)
    requires b > 0 && n >= b && n % b == 0
    ensures (n - b) % b == 0
  {
    var q := n / b;
    assert n - b == (q - 1) * b;
    MultipleMod(q - 1, b);
  }

  // What the fields of a plaintext say.
  function Fields(params: Params, plain: seq<Byte>): Decoded
    requires |plain| >= params.HeaderLen()
  {
    Decoded(if params.haveOtp then Some(Password(FromLe16(plain), plain[2..6])) else None, plain[params.HeaderLen()..])
  }

  lemma GenuineExactly(params: Params, c: Crypto, d: Decoded, plain: seq<Byte>)
    ensures Genuine(params, c, d, plain) <==>
      |plain| >= params.HeaderLen() && HashOk(params, c, plain) && d == Fields(params, plain)
  {
    var off, len := params.HashOff(), params.HeaderLen();
    if Genuine(params, c, d, plain) {
      var hash :| LaidOut(params, c, d, plain, hash);
      FieldsRead(params, c, d, plain, hash);
    }
    if |plain| >= len && HashOk(params, c, plain) && d == Fields(params, plain) {
      var hash := plain[off..len];
      if params.haveOtp {
        assert [plain[0], plain[1]] + plain[2..6] == plain[..off];
      }
      assert plain == plain[..off] + hash + plain[len..];
      assert LaidOut(params, c, d, plain, hash);
    }
  }

  lemma FieldsRead(params: Params, c: Crypto, d: Decoded, plain: seq<Byte>, hash: seq<Byte>)
    requires (d.pw.Some? <==> params.haveOtp) && LaidOut(params, c, d, plain, hash)
    ensures |plain| >= params.HeaderLen() && HashOk(params, c, plain) && d == Fields(params, plain)
  {
    var off, len := params.HashOff(), params.HeaderLen();
    var head := if d.pw.Some? then [d.pw.value.seedId % 256, d.pw.value.seedId / 256] + d.pw.value.otp else [];
    assert plain[..off] == head && plain[off..len] == hash && plain[len..] == d.payload;
    if params.haveOtp {
      assert plain[2..6] == head[2..6] == d.pw.value.otp;
      assert plain[0] == head[0] && plain[1] == head[1];
    }
  }

  /**
    A packet decodes to a password and a payload exactly if it holds their plaintext,
    hash included, and the payload is no longer than the limit.
   */
  lemma DecodeExactly(params: Params, c: Crypto, haveKey: bool, mtu: nat, packet: seq<Byte>, d: Decoded)
    requires c.Sound(params)
    ensures Decode(params, c, haveKey, mtu, packet) == Some(d) <==>
      |d.payload| <= mtu && exists plain :: Holds(params, c, haveKey, packet, plain) && Genuine(params, c, d, plain)
  {
    if Decode(params, c, haveKey, mtu, packet) == Some(d) {
      var plain := Opened(params, c, haveKey, packet).value;
      OpenedExactly(params, c, haveKey, packet, plain);
      GenuineExactly(params, c, d, plain);
    }
    if |d.payload| <= mtu && exists plain :: Holds(params, c, haveKey, packet, plain) && Genuine(params, c, d, plain) {
      var plain :| Holds(params, c, haveKey, packet, plain) && Genuine(params, c, d, plain);
      OpenedExactly(params, c, haveKey, packet, plain);
      GenuineExactly(params, c, d, plain);
    }
  }

  // What is encoded is the genuine plaintext, and there is no other.
  lemma PlaintextExactly(params: Params, c: Crypto, pw: Password, payload: seq<Byte>, plain: seq<Byte>)
    requires c.Sound(params)
    ensures Genuine(params, c, Decoded(if params.haveOtp then Some(pw) else None, payload), plain) <==>
      plain == Plaintext(params, c, pw, payload)
  {
    var d := Decoded(if params.haveOtp then Some(pw) else None, payload);
    var head := OtpData(params, pw);
    if params.hashSize == 0 {
      EmptyUnits(head, payload);
      assert LaidOut(params, c, d, Plaintext(params, c, pw, payload), []);
      if Genuine(params, c, d, plain) {
        var hash :| LaidOut(params, c, d, plain, hash);
        assert hash == [];
      }
    } else {
      var hash := c.hash(head + Zeros(params.hashSize) + payload);
      assert LaidOut(params, c, d, Plaintext(params, c, pw, payload), hash);
    }
  }

  /** A packet whose hash field is not the hash of the rest never decodes. */
  lemma WrongHashRefused(params: Params, c: Crypto, haveKey: bool, mtu: nat, packet: seq<Byte>,
                         head: seq<Byte>, hash: seq<Byte>, payload: seq<Byte>)
    requires c.Sound(params) && params.hashSize > 0
    requires |head| == (if params.haveOtp then 6 else 0) && |hash| == params.hashSize
    requires Holds(params, c, haveKey, packet, head + hash + payload) && hash != c.hash(head + Zeros(params.hashSize) + payload)
    ensures Decode(params, c, haveKey, mtu, packet) == None
  {
    var plain := head + hash + payload;
    OpenedExactly(params, c, haveKey, packet, plain);
    var off, len := params.HashOff(), params.HeaderLen();
    assert plain[..off] == head && plain[off..len] == hash && plain[len..] == payload;
  }

  // Encoded packets fit the carrier if the payload fits.
  function CarrierMtu(params: Params, payloadMtu: nat): nat {
    if params.block == 0 then params.HeaderLen() + payloadMtu
    else params.block + AlignUp(params.HeaderLen() + payloadMtu + 1, params.block)
  }

  lemma EncodedFits(params: Params, c: Crypto, pw: Password, iv: seq<Byte>, payload: seq<Byte>, mtu: nat)
    requires c.Sound(params) && |iv| == params.block && |payload| <= mtu
    ensures |Encode(params, c, pw, iv, payload)| <= CarrierMtu(params, mtu)
  {
    var plain := Plaintext(params, c, pw, payload);
    assert |plain| == params.HeaderLen() + |payload|;
    if params.block > 0 {
      PadLast(plain, params.block);
      AlignUpMonotone(|plain| + 1, params.HeaderLen() + mtu + 1, params.block);
    }
  }

  // The longest payload takes all of it.
  lemma EncodedFills(params: Params, c: Crypto, pw: Password, iv: seq<Byte>, payload: seq<Byte>)
    requires c.Sound(params) && |iv| == params.block
    ensures |Encode(params, c, pw, iv, payload)| == CarrierMtu(params, |payload|)
  {
    var plain := Plaintext(params, c, pw, payload);
    assert |plain| == params.HeaderLen() + |payload|;
    if params.block > 0 {
      PadLast(plain, params.block);
    }
  }

  lemma AlignUpMonotone(m: nat, n: nat, b: nat)
    requires b > 0 && m <= n
    ensures AlignUp(m, b) <= AlignUp(n, b)
  {
    AlignUpIs(m, b);
    AlignUpIs(n, b);
    if AlignUp(n, b) < AlignUp(m, b) {
      AlignUpUnique(m, AlignUp(n, b), b);
    }
  }
}
