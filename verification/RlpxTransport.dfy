/** `rlpxFrameRW` of p2p/rlpx.go: cipher positions, running hashes and the connection, changed by
    every message. */
module RlpxTransport {
  import opened Basics
  import opened RlpSpec
  import opened RlpxFrames

  class FrameRW {
    const crypto: Crypto
    var enc: nat
    var dec: nat
    var egress: seq<byte>
    var ingress: seq<byte>
    var out: seq<byte>     // written to the connection
    var input: seq<byte>   // on the connection, not read yet

    constructor (crypto: Crypto, egress: seq<byte>, ingress: seq<byte>)
      ensures this.crypto == crypto && this.egress == egress && this.ingress == ingress
      ensures enc == 0 && dec == 0 && out == [] && input == []
    {
      this.crypto, this.egress, this.ingress := crypto, egress, ingress;
      enc, dec, out, input := 0, 0, [], [];
    }

    ghost function Writing(): (s: Side)
      reads this`enc, this`egress
    {
      Side(enc, egress)
    }

    ghost function Reading(): (s: Side)
      reads this`dec, this`ingress
    {
      Side(dec, ingress)
    }

    /** `XORKeyStream` over the front of a buffer. */
    method XorKeyStream(buf: array<byte>, n: nat, pos: nat)
      requires n <= buf.Length
      modifies buf
      ensures buf[..n] == Cipher(crypto, pos, old(buf[..n])) && buf[n..] == old(buf[n..])
    {
      ghost var was := buf[..n];
      var key := KeyStream(crypto, pos, n);
      for i := 0 to n
        invariant forall k :: 0 <= k < i ==> buf[k] == Xor(was[k], key[k])
        invariant forall k :: i <= k < buf.Length ==> buf[k] == old(buf[k])
      {
        buf[i] := Xor(buf[i], key[i]);
      }
      assert buf[..n] == XorAll(was, key);
    }

    /** `updateMAC` */
    method UpdateMac(mac: seq<byte>, seed: seq<byte>) returns (mac': seq<byte>, tag: seq<byte>)
      requires |seed| >= 16
      ensures mac' == mac + Whitened(crypto, mac, seed) && tag == Tag16(crypto, mac')
    {
      var block := Fixed(crypto.block(SumOf(crypto, mac)), 16);
      var aesbuf := new byte[16](i requires 0 <= i < 16 => block[i]);
      for i := 0 to 16
        invariant forall k :: 0 <= k < i ==> aesbuf[k] == Xor(block[k], seed[k])
        invariant forall k :: i <= k < 16 ==> aesbuf[k] == block[k]
      {
        aesbuf[i] := Xor(aesbuf[i], seed[i]);
      }
      assert aesbuf[..] == XorAll(block, seed[..16]);
      mac' := mac + aesbuf[..];
      tag := SumOf(crypto, mac')[..16];
    }

    /** `putInt24` and the constant header data, in place. */
    static method PutHeader(fsize: nat, buf: array<byte>)
      requires fsize <= MAX_UINT24 && buf.Length == 32 && forall i :: 0 <= i < 32 ==> buf[i] == 0
      modifies buf
      ensures buf[..16] == HeaderOf(fsize) && buf[16..] == old(buf[16..])
    {
      buf[0] := fsize / 0x10000;
      buf[1] := fsize / 0x100 % 0x100;
      buf[2] := fsize % 0x100;
      buf[3], buf[4], buf[5] := 0xC2, 0x80, 0x80;
    }

    /** Encrypts a piece of a frame on its way to the connection and to the hash. */
    method Tee(data: seq<byte>)
      modifies this`enc, this`egress, this`out
      ensures enc == old(enc) + |data|
      ensures egress == old(egress) + Cipher(crypto, old(enc), data)
      ensures out == old(out) + Cipher(crypto, old(enc), data)
    {
      var sealed := Cipher(crypto, enc, data);
      enc, egress, out := enc + |data|, egress + sealed, out + sealed;
    }

    method WriteHeader(fsize: nat)
      requires fsize <= MAX_UINT24
      modifies this`enc, this`egress, this`out
      ensures Writing() == AfterHeader(crypto, old(Writing()), SealedHeader(crypto, old(Writing()), fsize))
      ensures out == old(out) + SealedHeader(crypto, old(Writing()), fsize) + Tag16(crypto, egress)
    {
      hide Cipher, Whitened, Tag16, HeaderOf;
      var headbuf := new byte[32](i => 0);
      PutHeader(fsize, headbuf);
      XorKeyStream(headbuf, 16, enc);
      enc := enc + 16;
      var tag;
      egress, tag := UpdateMac(egress, headbuf[..16]);
      forall i | 0 <= i < 16 {
        headbuf[16 + i] := tag[i];
      }
      assert headbuf[..] == headbuf[..16] + tag;
      out := out + headbuf[..];
    }

    /** Body, padding and closing hash of a frame. */
    method WriteBody(code: seq<byte>, payload: seq<byte>, fsize: nat)
      modifies this`enc, this`egress, this`out
      ensures var sealed := SealedBody(crypto, old(Writing()), code + payload, Padding(fsize));
              && Writing() == AfterBody(crypto, old(Writing()), sealed)
              && out == old(out) + sealed + Tag16(crypto, egress)
    {
      hide Cipher, Whitened, Tag16, SumOf;
      Tee(code);
      Tee(payload);
      if fsize % 16 > 0 {
        Tee(Zeros(16 - fsize % 16));
      } else {
        Tee([]);
        assert Zeros(0) == [];
      }
      Joined(crypto, old(enc), code, payload, Zeros(Padding(fsize)));
      ghost var sealed := SealedBody(crypto, old(Writing()), code + payload, Padding(fsize));
      SeqAssoc(old(egress), Cipher(crypto, old(enc), code), Cipher(crypto, old(enc) + |code|, payload),
               Cipher(crypto, old(enc) + |code| + |payload|, Zeros(Padding(fsize))));
      SeqAssoc(old(out), Cipher(crypto, old(enc), code), Cipher(crypto, old(enc) + |code|, payload),
               Cipher(crypto, old(enc) + |code| + |payload|, Zeros(Padding(fsize))));
      assert egress == old(egress) + sealed && out == old(out) + sealed;
      var seed, tag := SumOf(crypto, egress), [];
      egress, tag := UpdateMac(egress, seed);
      out := out + tag;
    }

    /** `WriteMsg` without compression. The message states a size; the whole payload is written. */
    method WriteMsg(msg: Msg, size: nat) returns (ok: bool)
      requires msg.code < U64 && size < U32
      modifies this`enc, this`egress, this`out
      ensures ok <==> Announced(msg, size) <= MAX_UINT24
      ensures !ok ==> Writing() == old(Writing()) && out == old(out)
      ensures ok ==> Writing() == AfterFrame(crypto, old(Writing()), BodyOf(msg), Announced(msg, size))
      ensures ok ==> out == old(out) + Frame(crypto, old(Writing()), BodyOf(msg), Announced(msg, size))
    {
      hide SealedHeader, SealedBody, AfterHeader, AfterBody, Tag16, CodeBytes;
      var ptype := CodeBytes(msg.code);
      var fsize := (|ptype| + size) % U32;
      if fsize > MAX_UINT24 {
        return false;
      }
      WriteHeader(fsize);
      ghost var out1 := out;
      WriteBody(ptype, msg.payload, fsize);
      Whole(old(out), out1, out, crypto, old(Writing()), BodyOf(msg), fsize);
      return true;
    }

    /** `io.ReadFull` */
    method ReadFull(n: nat) returns (ok: bool, buf: array<byte>)
      modifies this`input
      ensures ok <==> n <= |old(input)|
      ensures fresh(buf) && (ok ==> buf[..] == old(input)[..n] && input == old(input)[n..])
    {
      if |input| < n {
        buf := new byte[0];
        return false, buf;
      }
      var front := input[..n];
      buf := new byte[n](i requires 0 <= i < n => front[i]);
      assert buf[..] == front;
      input := input[n..];
      return true, buf;
    }

    /** `ReadMsg` without compression. */
    method ReadMsg() returns (msg: Msg, err: Option<FrameError>)
      modifies this`dec, this`ingress, this`input
      ensures var p := Parse(crypto, old(Reading()), old(input));
              if p.Got? then err == None && msg == p.msg && Reading() == p.side && input == p.rest
              else err == Some(p.error)
    {
      hide Cipher, Whitened, Tag16, OpenBody, SumOf, ParseBody, ReadInt24;
      msg := Msg(0, []);
      ghost var wire := input;
      var ok, headbuf := ReadFull(32);
      if !ok {
        return msg, Some(ShortRead);
      }
      var should;
      assert headbuf[..16] == wire[..16] && headbuf[16..] == wire[16..32];
      ingress, should := UpdateMac(ingress, headbuf[..16]);
      if should != headbuf[16..] {
        return msg, Some(BadHeaderMac);
      }
      XorKeyStream(headbuf, 16, dec);
      dec := dec + 16;
      msg, err := ReadBody(ReadInt24(headbuf[..16]));
    }

    method ReadBody(fsize: nat) returns (msg: Msg, err: Option<FrameError>)
      requires fsize <= MAX_UINT24
      modifies this`dec, this`ingress, this`input
      ensures var p := ParseBody(crypto, old(Reading()), fsize, old(input));
              if p.Got? then err == None && msg == p.msg && Reading() == p.side && input == p.rest
              else err == Some(p.error)
    {
      hide Cipher, Tag16, OpenBody, AfterBody;
      msg := Msg(0, []);
      var rsize := fsize;
      if fsize % 16 > 0 {
        rsize := rsize + 16 - fsize % 16;
      }
      var framebuf;
      err, framebuf := ReadSealed(rsize);
      if err.Some? {
        return;
      }
      assert framebuf[..rsize] == framebuf[..];
      XorKeyStream(framebuf, rsize, dec);
      dec := dec + rsize;
      assert framebuf[..fsize] == framebuf[..rsize][..fsize];
      var r := OpenBody(framebuf[..fsize], Side(dec, ingress), input);
      if r.Failed? {
        return msg, Some(r.error);
      }
      return r.msg, None;
    }

    /** Reads the encrypted body with its padding and checks the hash behind it. */
    method ReadSealed(rsize: nat) returns (err: Option<FrameError>, buf: array<byte>)
      modifies this`ingress, this`input
      ensures var w, s := old(input), old(Reading());
              if |w| < rsize + 16 then err == Some(ShortRead)
              else if Tag16(crypto, AfterBody(crypto, s, w[..rsize]).mac) != w[rsize..rsize + 16] then
                err == Some(BadFrameMac)
              else
                && err == None && fresh(buf) && buf[..] == w[..rsize] && input == w[rsize + 16..]
                && Side(dec + rsize, ingress) == AfterBody(crypto, s, w[..rsize])
    {
      hide Whitened, SumOf;
      ghost var wire := input;
      var ok, tagbuf;
      ok, buf := ReadFull(rsize);
      if !ok {
        return Some(ShortRead), buf;
      }
      ingress := ingress + buf[..];
      var seed := SumOf(crypto, ingress);
      ok, tagbuf := ReadFull(16);
      if !ok {
        return Some(ShortRead), buf;
      }
      assert wire[rsize..][..16] == wire[rsize..rsize + 16] && wire[rsize..][16..] == wire[rsize + 16..];
      var should;
      ingress, should := UpdateMac(ingress, seed);
      if should != tagbuf[..] {
        return Some(BadFrameMac), buf;
      }
      err := None;
    }
  }

  lemma SeqAssoc(a: seq<byte>, b: seq<byte>, c: seq<byte>, d: seq<byte>)
    ensures a + b + c + d == a + (b + c + d)
  {}

  lemma Joined(c: Crypto, pos: nat, x: seq<byte>, y: seq<byte>, z: seq<byte>)
    ensures Cipher(c, pos, x + y + z) == Cipher(c, pos, x) + Cipher(c, pos + |x|, y) + Cipher(c, pos + |x| + |y|, z)
  {
    hide Cipher;
    CipherJoin(c, pos, x + y, z);
    CipherJoin(c, pos, x, y);
  }

  lemma Whole(out0: seq<byte>, out1: seq<byte>, out2: seq<byte>, c: Crypto, s: Side, body: seq<byte>, fsize: nat)
    requires fsize <= MAX_UINT24
    requires var s1 := AfterHeader(c, s, SealedHeader(c, s, fsize));
             var sealed := SealedBody(c, s1, body, Padding(fsize));
             && out1 == out0 + SealedHeader(c, s, fsize) + Tag16(c, s1.mac)
             && out2 == out1 + sealed + Tag16(c, AfterBody(c, s1, sealed).mac)
    ensures out2 == out0 + Frame(c, s, body, fsize)
  {
    hide SealedHeader, SealedBody, AfterHeader, AfterBody, Tag16;
  }

  // ---------- two parties ----------

  /** What one side will read next is what the other wrote, and cipher and hash are in step. */
  ghost predicate InStep(a: FrameRW, b: FrameRW)
    reads a, b
  {
    a.crypto == b.crypto && a.Writing() == b.Reading()
  }

  predicate Sendable(msg: Msg)
  {
    msg.code < U64 && |BodyOf(msg)| <= MAX_UINT24
  }

  ghost predicate AllSendable(msgs: seq<Msg>)
  {
    forall m :: m in msgs ==> Sendable(m)
  }

  /** The frames of messages sent one after the other, and the side after them. */
  ghost function Frames(c: Crypto, s: Side, msgs: seq<Msg>): (r: seq<byte>)
    requires AllSendable(msgs)
    decreases |msgs|
  {
    if |msgs| == 0 then [] else
      var body := BodyOf(msgs[0]);
      assert Sendable(msgs[0]);
      Frame(c, s, body, |body|) + Frames(c, AfterFrame(c, s, body, |body|), msgs[1..])
  }

  ghost function AfterFrames(c: Crypto, s: Side, msgs: seq<Msg>): (r: Side)
    requires AllSendable(msgs)
    decreases |msgs|
  {
    if |msgs| == 0 then s else
      var body := BodyOf(msgs[0]);
      assert Sendable(msgs[0]);
      AfterFrames(c, AfterFrame(c, s, body, |body|), msgs[1..])
  }

  method SendAll(a: FrameRW, msgs: seq<Msg>)
    requires AllSendable(msgs)
    modifies a`enc, a`egress, a`out
    ensures a.out == old(a.out) + Frames(a.crypto, old(a.Writing()), msgs)
    ensures a.Writing() == AfterFrames(a.crypto, old(a.Writing()), msgs)
    decreases |msgs|
  {
    hide BodyOf, Frame, AfterFrame;
    if |msgs| != 0 {
      assert Sendable(msgs[0]);
      SmallBody(msgs[0]);
      var ok := a.WriteMsg(msgs[0], |msgs[0].payload|);
      ghost var body := BodyOf(msgs[0]);
      SendAll(a, msgs[1..]);
      ghost var s := AfterFrame(a.crypto, old(a.Writing()), body, |body|);
      Assoc3(old(a.out), Frame(a.crypto, old(a.Writing()), body, |body|), Frames(a.crypto, s, msgs[1..]));
    }
  }

  lemma Assoc3(a: seq<byte>, b: seq<byte>, c: seq<byte>)
    ensures a + b + c == a + (b + c)
  {}

  /** Reads as many messages as asked for. If the wire holds frames that a side in step has
      written, it gets exactly their messages and leaves what comes after. */
  method ReceiveAll(b: FrameRW, n: nat, ghost msgs: seq<Msg>, ghost rest: seq<byte>) returns (got: seq<Msg>)
    requires AllSendable(msgs) && n == |msgs| && b.input == Frames(b.crypto, b.Reading(), msgs) + rest
    modifies b`dec, b`ingress, b`input
    ensures got == msgs && b.input == rest && b.Reading() == AfterFrames(b.crypto, old(b.Reading()), msgs)
    decreases n
  {
    hide BodyOf, Frame, AfterFrame, Parse;
    got := [];
    if n != 0 {
      assert Sendable(msgs[0]);
      ghost var body := BodyOf(msgs[0]);
      ghost var s := b.Reading();
      ghost var tail := Frames(b.crypto, AfterFrame(b.crypto, s, body, |body|), msgs[1..]) + rest;
      Assoc3(Frame(b.crypto, s, body, |body|), Frames(b.crypto, AfterFrame(b.crypto, s, body, |body|), msgs[1..]),
             rest);
      RoundTrip(b.crypto, s, msgs[0], tail);
      var msg, err := b.ReadMsg();
      var more := ReceiveAll(b, n - 1, msgs[1..], rest);
      got := [msg] + more;
    }
  }

  /** Any messages within the size limit arrive as they were sent, and the two sides are in step
      again. */
  method Transfer(a: FrameRW, b: FrameRW, msgs: seq<Msg>) returns (got: seq<Msg>)
    requires a != b && InStep(a, b) && b.input == [] && AllSendable(msgs)
    modifies a`enc, a`egress, a`out, b`dec, b`ingress, b`input
    ensures got == msgs && InStep(a, b) && b.input == []
  {
    hide Frames, AfterFrames;
    var before := |a.out|;
    ghost var s := a.Writing();
    SendAll(a, msgs);
    b.input := a.out[before..];
    assert b.input == Frames(a.crypto, s, msgs) + [];
    got := ReceiveAll(b, |msgs|, msgs, []);
  }

  lemma SmallBody(msg: Msg)
    requires Sendable(msg)
    ensures |msg.payload| < U32 && Announced(msg, |msg.payload|) == |BodyOf(msg)|
  {}
}
