/**
  The work of encoding and decoding one packet, in place in its buffer, and the
  encoder's bookkeeping: when it starts that work and when it has to wait.
 */
module SPProtoWork {
  import opened Bytes
  import opened Lists
  import opened SPProtoCodec

  // Three fields in a row, the middle one overwritten.
  lemma OverwriteMiddle(b: seq<Byte>, x: seq<Byte>, y: seq<Byte>, z: seq<Byte>, rest: seq<Byte>, s: seq<Byte>)
    requires b == x + y + z + rest && |s| == |y|
    ensures Overwrite(b, |x|, s) == x + s + z + rest
  {
  }

  // The header is written before the payload that is already in the buffer.
  method WriteHeader(params: Params, c: Crypto, pw: Password, buf: array<Byte>, len: nat)
    requires c.Sound(params) && params.HeaderLen() + len <= buf.Length
    modifies buf
    ensures var n := params.HeaderLen() + len;
      buf[..n] == Plaintext(params, c, pw, old(buf[params.HeaderLen()..n])) && buf[n..] == old(buf[n..])
  {
    var off, h := params.HashOff(), params.HeaderLen();
    ghost var payload, rest := buf[h..h + len], buf[h + len..];
    ghost var field, front := buf[off..h], OtpData(params, pw);
    FourParts(buf[..], off, h, h + len);
    WriteOtp(params, pw, buf, field, payload, rest);
    if params.hashSize > 0 {
      WriteHash(params, c, buf, len, front, field, payload, rest);
    } else {
      NoField(front, field, payload, rest);
      TakeDrop(buf[..], front + payload, rest);
    }
  }

  lemma FourParts(b: seq<Byte>, i: nat, j: nat, k: nat)
    requires i <= j <= k <= |b|
    ensures b == b[..i] + b[i..j] + b[j..k] + b[k..]
  {
  }

  lemma NoField(front: seq<Byte>, field: seq<Byte>, payload: seq<Byte>, rest: seq<Byte>)
    requires |field| == 0
    ensures front + field + payload + rest == (front + payload) + rest
  {
  }

  method WriteOtp(params: Params, pw: Password, buf: array<Byte>, ghost field: seq<Byte>, ghost payload: seq<Byte>, ghost rest: seq<Byte>)
    requires params.HeaderLen() <= buf.Length
    requires buf[..] == buf[..params.HashOff()] + field + payload + rest
    modifies buf
    ensures buf[..] == OtpData(params, pw) + field + payload + rest
  {
    if params.haveOtp {
      var data := OtpData(params, pw);
      ghost var was := buf[..OTPDATA];
      Regroup([], was, field, payload, rest);
      Regroup([], data, field, payload, rest);
      OverwriteMiddle(buf[..], [], was, field + payload, rest, data);
      CopyInto(buf, 0, data);
    }
  }

  lemma Regroup(e: seq<Byte>, x: seq<Byte>, y: seq<Byte>, z: seq<Byte>, rest: seq<Byte>)
    requires e == []
    ensures e + x + (y + z) + rest == x + y + z + rest
  {
  }

  method WriteHash(params: Params, c: Crypto, buf: array<Byte>, len: nat,
                   ghost front: seq<Byte>, ghost field: seq<Byte>, ghost payload: seq<Byte>, ghost rest: seq<Byte>)
    requires c.Sound(params) && params.HeaderLen() + len <= buf.Length
    requires |front| == params.HashOff() && |field| == params.hashSize && |payload| == len
    requires buf[..] == front + field + payload + rest
    modifies buf
    ensures var n := params.HeaderLen() + len;
      && buf[..n] == front + c.hash(front + Zeros(params.hashSize) + payload) + payload
      && buf[n..] == rest
  {
    var off, n := params.HashOff(), params.HeaderLen() + len;
    OverwriteMiddle(buf[..], front, field, payload, rest, Zeros(params.hashSize));
    CopyInto(buf, off, Zeros(params.hashSize));
    assert buf[..n] == front + Zeros(params.hashSize) + payload by { TakeDrop(buf[..], front + Zeros(params.hashSize) + payload, rest); }
    var hash := c.hash(buf[..n]);
    OverwriteMiddle(buf[..], front, Zeros(params.hashSize), payload, rest, hash);
    CopyInto(buf, off, hash);
    TakeDrop(buf[..], front + hash + payload, rest);
  }

  lemma TakeDrop(b: seq<Byte>, x: seq<Byte>, rest: seq<Byte>)
    requires b == x + rest
    ensures b[..|x|] == x && b[|x|..] == rest
  {
  }

  // A one and then zeros up to the end of the block.
  method WritePadding(buf: array<Byte>, n: nat, end: nat)
    requires n < end <= buf.Length
    modifies buf
    ensures buf[..end] == old(buf[..n]) + [1] + Zeros(end - n - 1)
  {
    buf[n] := 1;
    for i := n + 1 to end
      invariant buf[..n] == old(buf[..n]) && buf[n] == 1
      invariant forall k :: n < k < i ==> buf[k] == 0
    {
      buf[i] := 0;
    }
    assert buf[..end] == buf[..n] + [buf[n]] + buf[n + 1..end];
    assert buf[n + 1..end] == Zeros(end - n - 1);
  }

  /** encode_work_func: the payload is in the buffer behind the space for the header. */
  method EncodeWork(params: Params, c: Crypto, pw: Password, iv: seq<Byte>, buf: array<Byte>, len: nat)
    returns (out: seq<Byte>)
    requires c.Sound(params) && |iv| == params.block
    requires params.HeaderLen() + len <= buf.Length
    requires params.block > 0 ==> AlignUp(params.HeaderLen() + len + 1, params.block) <= buf.Length
    modifies buf
    ensures out == Encode(params, c, pw, iv, old(buf[params.HeaderLen()..params.HeaderLen() + len]))
  {
    var n := params.HeaderLen() + len;
    ghost var payload := buf[params.HeaderLen()..n];
    WriteHeader(params, c, pw, buf, len);
    ghost var plain := Plaintext(params, c, pw, payload);
    if params.block > 0 {
      var end := AlignUp(n + 1, params.block);
      AlignUpIs(n + 1, params.block);
      WritePadding(buf, n, end);
      assert buf[..end] == Pad(plain, params.block);
      out := iv + c.encrypt(iv, buf[..end]);
    } else {
      out := buf[..n];
    }
  }

  // The loop over the last block, from its end.
  method ScanPadding(p: seq<Byte>, b: nat) returns (n: Option<nat>)
    requires b > 0
    ensures n == Unpad(p, b)
  {
    if |p| < b {
      return None;
    }
    var i := |p|;
    while i > |p| - b
      invariant |p| - b <= i <= |p|
      invariant ScanBack(p, |p|, |p| - b) == ScanBack(p, i, |p| - b)
    {
      if p[i - 1] == 1 {
        return Some(i - 1);
      }
      if p[i - 1] != 0 {
        return None;
      }
      i := i - 1;
    }
    return None;
  }

  // The hash field is zeroed for the calculation and restored afterwards.
  method CheckHash(params: Params, c: Crypto, buf: array<Byte>) returns (ok: bool)
    requires c.Sound(params) && params.HeaderLen() <= buf.Length
    modifies buf
    ensures buf[..] == old(buf[..]) && ok == HashOk(params, c, buf[..])
  {
    var off, h := params.HashOff(), params.HeaderLen();
    if params.hashSize == 0 {
      return true;
    }
    ghost var front, rest := buf[..off], buf[h..];
    var hash := buf[off..h];
    assert buf[..] == front + hash + rest + [];
    OverwriteMiddle(buf[..], front, hash, rest, [], Zeros(params.hashSize));
    CopyInto(buf, off, Zeros(params.hashSize));
    assert buf[..] == front + Zeros(params.hashSize) + rest;
    var computed := c.hash(buf[..]);
    OverwriteMiddle(buf[..], front, Zeros(params.hashSize), rest, [], hash);
    CopyInto(buf, off, hash);
    assert buf[..] == front + hash + rest;
    ok := hash == computed;
    HashIs(params, c, buf[..], front, hash, rest);
  }

  lemma HashIs(params: Params, c: Crypto, plain: seq<Byte>, front: seq<Byte>, hash: seq<Byte>, rest: seq<Byte>)
    requires plain == front + hash + rest && |front| == params.HashOff() && |hash| == params.hashSize > 0
    ensures HashOk(params, c, plain) <==> hash == c.hash(front + Zeros(params.hashSize) + rest)
  {
    assert plain[..params.HashOff()] == front;
    assert plain[params.HashOff()..params.HeaderLen()] == hash;
    assert plain[params.HeaderLen()..] == rest;
  }

  /** decode_work_func, without the check of the password, which comes later. */
  method DecodeWork(params: Params, c: Crypto, haveKey: bool, mtu: nat, packet: seq<Byte>) returns (r: Option<Decoded>)
    requires c.Sound(params)
    ensures r == Decode(params, c, haveKey, mtu, packet)
  {
    var plain := packet;
    if params.block > 0 {
      if |packet| % params.block != 0 || |packet| < params.block || !haveKey {
        return None;
      }
      var p := c.decrypt(packet[..params.block], packet[params.block..]);
      var n := ScanPadding(p, params.block);
      if n.None? {
        return None;
      }
      plain := p[..n.value];
    }
    if |plain| < params.HeaderLen() || |plain| - params.HeaderLen() > mtu {
      return None;
    }
    var buf := new Byte[|plain|](i requires 0 <= i < |plain| => plain[i]);
    assert buf[..] == plain;
    var ok := CheckHash(params, c, buf);
    if !ok {
      return None;
    }
    var pw := if params.haveOtp then Some(Password(FromLe16(plain), plain[2..6])) else None;
    r := Some(Decoded(pw, buf[params.HeaderLen()..]));
  }

  // ----- the encoder

  /**
    The encoder holds an input packet and room for the output until a work item has
    encoded one into the other. It needs an encryption key, and an unused password.
   */
  class Encoder {
    const haveOtp: bool
    const haveEncryption: bool
    const otpNum: nat
    const warningCount: nat
    var inLen: int
    var outHave: bool
    var twHave: bool
    var haveKey: bool
    var position: nat        // passwords used up
    var generating: bool     // a new seed's passwords are being generated
    var seedId: U16
    var pendingSeedId: U16
    var warned: bool         // the warning job is set

    predicate CanEncode()
      reads this
    {
      (!haveOtp || position < otpNum) && (!haveEncryption || haveKey)
    }

    // Output is asked for before input; work has what it needs; and the encoder never
    // sits on a packet it could encode.
    ghost predicate Valid()
      reads this
    {
      && inLen >= -1 && position <= otpNum
      && (inLen >= 0 ==> outHave)
      && (twHave ==> inLen >= 0 && (haveEncryption ==> haveKey))
      && !(inLen >= 0 && outHave && !twHave && CanEncode())
    }

    constructor (haveOtp: bool, haveEncryption: bool, otpNum: nat, warningCount: nat)
      ensures Valid() && inLen == -1 && !outHave && !twHave
    {
      this.haveOtp, this.haveEncryption, this.otpNum, this.warningCount := haveOtp, haveEncryption, otpNum, warningCount;
      inLen, outHave, twHave, haveKey := -1, false, false, false;
      position, generating, seedId, pendingSeedId, warned := otpNum, false, 0, 0, false;
    }

    // Starting work uses up a password, and may be the occasion for a warning.
    twostate predicate Started()
      reads this
    {
      && twHave && position == old(position) + (if haveOtp then 1 else 0)
      && warned == (old(warned) || (haveOtp && position == warningCount))
    }

    method EncodePacket()
      requires inLen >= 0 && outHave && !twHave && CanEncode() && position <= otpNum
      modifies this`position, this`twHave, this`warned
      ensures Valid() && Started()
    {
      if haveOtp {
        position := position + 1;
      }
      twHave := true;
      if haveOtp && position == warningCount {
        warned := true;
      }
    }

    method MaybeEncode()
      requires inLen >= -1 && position <= otpNum && (inLen >= 0 ==> outHave) && (twHave ==> inLen >= 0 && (haveEncryption ==> haveKey))
      modifies this`position, this`twHave, this`warned
      ensures Valid()
      ensures if old(inLen >= 0 && outHave && !twHave && CanEncode()) then Started()
        else twHave == old(twHave) && position == old(position) && warned == old(warned)
    {
      if inLen >= 0 && outHave && !twHave && CanEncode() {
        EncodePacket();
      }
    }

    method OutputHandlerRecv()
      requires Valid() && inLen == -1 && !outHave && !twHave
      modifies this`outHave
      ensures Valid() && outHave
    {
      outHave := true;
    }

    method InputHandlerDone(len: nat)
      requires Valid() && inLen == -1 && outHave && !twHave
      modifies this`inLen, this`position, this`twHave, this`warned
      ensures Valid() && inLen == len
      ensures if old(CanEncode()) then Started() else !twHave && position == old(position) && warned == old(warned)
    {
      inLen := len;
      if CanEncode() {
        EncodePacket();
      }
    }

    // The packet is done and goes out.
    method WorkHandler()
      requires Valid() && twHave
      modifies this`inLen, this`outHave, this`twHave
      ensures Valid() && inLen == -1 && !outHave && !twHave
    {
      twHave := false;
      inLen := -1;
      outHave := false;
    }

    // New passwords: a packet that waited for one is encoded.
    method OtpGeneratorHandler()
      requires Valid() && haveOtp && generating
      modifies this`generating, this`position, this`seedId, this`twHave, this`warned
      ensures Valid() && seedId == pendingSeedId && !generating
      ensures if inLen >= 0 && !old(twHave) && otpNum > 0 && (!haveEncryption || haveKey) then twHave && position == 1
        else twHave == old(twHave) && position == 0
    {
      generating := false;
      position := 0;
      seedId := pendingSeedId;
      MaybeEncode();
    }

    // A new key: work with the old one is given up, and done again with the new one,
    // which takes another password.
    method SetEncryptionKey()
      requires Valid() && haveEncryption
      modifies this`twHave, this`haveKey, this`position, this`warned
      ensures Valid() && haveKey
      ensures if inLen >= 0 && (!haveOtp || old(position) < otpNum) then Started()
        else !twHave && position == old(position) && warned == old(warned)
    {
      twHave := false;
      haveKey := true;
      MaybeEncode();
    }

    method RemoveEncryptionKey()
      requires Valid() && haveEncryption
      modifies this`twHave, this`haveKey
      ensures Valid() && !haveKey && !twHave
    {
      twHave := false;
      haveKey := false;
    }

    method SetOtpSeed(id: U16)
      requires Valid() && haveOtp
      modifies this`generating, this`pendingSeedId
      ensures Valid() && generating && pendingSeedId == id
    {
      generating := true;
      pendingSeedId := id;
    }

    method RemoveOtpSeed()
      requires Valid() && haveOtp
      modifies this`generating, this`position
      ensures Valid() && !generating && position == otpNum
    {
      generating := false;
      position := otpNum;
    }
  }
}
