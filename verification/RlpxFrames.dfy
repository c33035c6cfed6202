/** RLPx framing of p2p/rlpx.go ("Framing" in the devp2p RLPx Transport Protocol). The stream
    cipher is exclusive-or with a key stream, the running hash is any function of the bytes it
    has been given, and the block cipher is any function on blocks. */
module RlpxFrames {
  import opened Basics
  import opened RlpSpec
  import opened RlpRaw
  import opened RlpStream

  // ---------- exclusive or ----------

  function XorBits(a: nat, b: nat, n: nat): (r: nat)
  {
    if n == 0 then 0 else 2 * XorBits(a / 2, b / 2, n - 1) + (a + b) % 2
  }

  function Pow2(n: nat): (p: nat)
  {
    if n == 0 then 1 else 2 * Pow2(n - 1)
  }

  lemma {:induction false} XorBitsBound(a: nat, b: nat, n: nat)
    ensures XorBits(a, b, n) < Pow2(n)
  {
    if n != 0 {
      XorBitsBound(a / 2, b / 2, n - 1);
    }
  }

  lemma LowBit(q: nat, a: nat, b: nat)
    ensures var r := 2 * q + (a + b) % 2; r / 2 == q && (r + b) % 2 == a % 2
  {}

  /** The same key twice gives the text back. */
  lemma {:induction false} XorBitsTwice(a: nat, b: nat, n: nat)
    requires a < Pow2(n)
    ensures XorBits(XorBits(a, b, n), b, n) == a
  {
    if n != 0 {
      XorBitsTwice(a / 2, b / 2, n - 1);
      LowBit(XorBits(a / 2, b / 2, n - 1), a, b);
    }
  }

  function Xor(a: byte, b: byte): (r: byte)
  {
    XorBitsBound(a, b, 8);
    XorBits(a, b, 8)
  }

  lemma XorTwice(a: byte, b: byte)
    ensures Xor(Xor(a, b), b) == a
  {
    XorBitsTwice(a, b, 8);
  }

  // ---------- the cryptography ----------

  datatype Crypto = Crypto(stream: nat -> byte, sum: seq<byte> -> seq<byte>, block: seq<byte> -> seq<byte>)

  /** The first n bytes, with zeros if there are fewer. */
  function Fixed(s: seq<byte>, n: nat): (r: seq<byte>)
    ensures |r| == n
  {
    if |s| >= n then s[..n] else s + Zeros(n - |s|)
  }

  function Zeros(n: nat): (r: seq<byte>)
    ensures |r| == n
  {
    seq(n, (i: nat) => 0)
  }

  /** Sum of the running hash that has been given the bytes of `mac`. */
  function SumOf(c: Crypto, mac: seq<byte>): (r: seq<byte>)
    ensures |r| == 32
  {
    Fixed(c.sum(mac), 32)
  }

  function KeyStream(c: Crypto, pos: nat, n: nat): (r: seq<byte>)
    ensures |r| == n
  {
    seq<byte>(n, (i: nat) => c.stream(pos + i))
  }

  function XorAll(a: seq<byte>, k: seq<byte>): (r: seq<byte>)
    requires |a| == |k|
    ensures |r| == |a|
  {
    seq(|a|, i requires 0 <= i < |a| => Xor(a[i], k[i]))
  }

  lemma XorAllTwice(a: seq<byte>, k: seq<byte>)
    requires |a| == |k|
    ensures XorAll(XorAll(a, k), k) == a
  {
    forall i | 0 <= i < |a| ensures Xor(Xor(a[i], k[i]), k[i]) == a[i] {
      XorTwice(a[i], k[i]);
    }
  }

  /** Encryption and decryption from a position of the key stream on. */
  function Cipher(c: Crypto, pos: nat, s: seq<byte>): (r: seq<byte>)
    ensures |r| == |s|
  {
    XorAll(s, KeyStream(c, pos, |s|))
  }

  lemma CipherTwice(c: Crypto, pos: nat, s: seq<byte>)
    ensures Cipher(c, pos, Cipher(c, pos, s)) == s
  {
    XorAllTwice(s, KeyStream(c, pos, |s|));
  }

  lemma CipherJoin(c: Crypto, pos: nat, a: seq<byte>, b: seq<byte>)
    ensures Cipher(c, pos, a + b) == Cipher(c, pos, a) + Cipher(c, pos + |a|, b)
  {
    var x, y := Cipher(c, pos, a + b), Cipher(c, pos, a) + Cipher(c, pos + |a|, b);
    forall i | 0 <= i < |x| ensures x[i] == y[i] {
      if i >= |a| {
        assert pos + i == pos + |a| + (i - |a|);
      }
    }
  }

  /** What `updateMAC` feeds into the hash. */
  function Whitened(c: Crypto, mac: seq<byte>, seed: seq<byte>): (r: seq<byte>)
    requires |seed| >= 16
    ensures |r| == 16
  {
    XorAll(Fixed(c.block(SumOf(c, mac)), 16), seed[..16])
  }

  function Tag16(c: Crypto, mac: seq<byte>): (r: seq<byte>)
    ensures |r| == 16
  {
    SumOf(c, mac)[..16]
  }

  // ---------- frames ----------

  const MAX_UINT24: nat := 0xFFFFFF
  const U32: nat := 0x1_0000_0000

  function Int24(v: nat): (r: seq<byte>)
    requires v <= MAX_UINT24
    ensures |r| == 3
  {
    [v / 0x10000, v / 0x100 % 0x100, v % 0x100]
  }

  function ReadInt24(b: seq<byte>): (v: nat)
    requires |b| >= 3
    ensures v <= MAX_UINT24
  {
    b[2] as int + b[1] as int * 0x100 + b[0] as int * 0x10000
  }

  lemma Int24Inverse(v: nat, rest: seq<byte>)
    requires v <= MAX_UINT24
    ensures ReadInt24(Int24(v) + rest) == v
  {
    var b := Int24(v) + rest;
    assert b[0] == v / 0x10000 && b[1] == v / 0x100 % 0x100 && b[2] == v % 0x100;
  }

  /** Header before encryption. */
  function HeaderOf(fsize: nat): (r: seq<byte>)
    requires fsize <= MAX_UINT24
    ensures |r| == 16
  {
    Int24(fsize) + [0xC2, 0x80, 0x80] + Zeros(10)
  }

  /** Zero bytes needed to fill the last block of 16. */
  function Padding(n: nat): (p: nat)
    ensures p < 16 && (n + p) % 16 == 0
  {
    if n % 16 > 0 then 16 - n % 16 else 0
  }

  datatype Msg = Msg(code: nat, payload: seq<byte>)

  function CodeBytes(code: nat): (r: seq<byte>)
  {
    EncodeStr(BigEndian(code))
  }

  function BodyOf(msg: Msg): (r: seq<byte>)
  {
    CodeBytes(msg.code) + msg.payload
  }

  /** A side's cipher position and what its running hash has been given. */
  datatype Side = Side(pos: nat, mac: seq<byte>)

  function AfterHeader(c: Crypto, s: Side, sealed: seq<byte>): (r: Side)
    requires |sealed| == 16
  {
    Side(s.pos + 16, s.mac + Whitened(c, s.mac, sealed))
  }

  function AfterBody(c: Crypto, s: Side, sealed: seq<byte>): (r: Side)
  {
    var mac := s.mac + sealed;
    Side(s.pos + |sealed|, mac + Whitened(c, mac, SumOf(c, mac)))
  }

  function SealedHeader(c: Crypto, s: Side, fsize: nat): (r: seq<byte>)
    requires fsize <= MAX_UINT24
    ensures |r| == 16
  {
    Cipher(c, s.pos, HeaderOf(fsize))
  }

  function SealedBody(c: Crypto, s: Side, body: seq<byte>, pad: nat): (r: seq<byte>)
    ensures |r| == |body| + pad
  {
    Cipher(c, s.pos, body + Zeros(pad))
  }

  /** The frame of a body under an announced size, and the side after it. */
  function Frame(c: Crypto, s: Side, body: seq<byte>, fsize: nat): (r: seq<byte>)
    requires fsize <= MAX_UINT24
  {
    var header := SealedHeader(c, s, fsize);
    var s1 := AfterHeader(c, s, header);
    var sealed := SealedBody(c, s1, body, Padding(fsize));
    header + Tag16(c, s1.mac) + sealed + Tag16(c, AfterBody(c, s1, sealed).mac)
  }

  function AfterFrame(c: Crypto, s: Side, body: seq<byte>, fsize: nat): (r: Side)
    requires fsize <= MAX_UINT24
  {
    var s1 := AfterHeader(c, s, SealedHeader(c, s, fsize));
    AfterBody(c, s1, SealedBody(c, s1, body, Padding(fsize)))
  }

  // ---------- reading ----------

  datatype FrameError = ShortRead | BadHeaderMac | BadFrameMac | BadCode

  datatype Received = Got(msg: Msg, side: Side, rest: seq<byte>) | Failed(error: FrameError)

  function OpenBody(content: seq<byte>, s: Side, rest: seq<byte>): (r: Received)
    requires |content| < U64
    ensures r.Got? ==> r.msg.code < U64 && BodyOf(r.msg) == content && r.side == s && r.rest == rest
    ensures r.Failed? ==> r.error == BadCode
    ensures forall m: Msg :: m.code < U64 && BodyOf(m) == content ==> r == Got(m, s, rest)
  {
    var code := UintAt(content, false, 8);
    OpenExact(content);
    if code.Err? then Failed(BadCode)
    else Got(Msg(code.value, content[|CodeBytes(code.value)|..]), s, rest)
  }

  /** The code in front of a body can be read in one way only. */
  lemma OpenExact(content: seq<byte>)
    requires |content| < U64
    ensures var code := UintAt(content, false, 8);
            code.Ok? ==> code.value < U64 && CodeBytes(code.value) <= content
    ensures forall m: Msg :: m.code < U64 && BodyOf(m) == content ==>
              UintAt(content, false, 8) == Ok(m.code) && content[|CodeBytes(m.code)|..] == m.payload
  {
    Pow256Values();
    var code := UintAt(content, false, 8);
    if code.Ok? {
      UintExact(content, false, 8, code.value);
    }
    forall m: Msg | m.code < U64 && BodyOf(m) == content
      ensures UintAt(content, false, 8) == Ok(m.code) && content[|CodeBytes(m.code)|..] == m.payload
    {
      UintExact(content, false, 8, m.code);
    }
  }

  /** What `ReadMsg` makes of the bytes on the wire. */
  function Parse(c: Crypto, s: Side, input: seq<byte>): (r: Received)
  {
    if |input| < 32 then Failed(ShortRead)
    else
      var header := input[..16];
      var s1 := AfterHeader(c, s, header);
      if Tag16(c, s1.mac) != input[16..32] then Failed(BadHeaderMac)
      else ParseBody(c, s1, ReadInt24(Cipher(c, s.pos, header)), input[32..])
  }

  function ParseBody(c: Crypto, s: Side, fsize: nat, input: seq<byte>): (r: Received)
    requires fsize <= MAX_UINT24
  {
    var rsize := fsize + Padding(fsize);
    if |input| < rsize then Failed(ShortRead)
    else
      var sealed := input[..rsize];
      var s2 := AfterBody(c, s, sealed);
      if |input| < rsize + 16 then Failed(ShortRead)
      else if Tag16(c, s2.mac) != input[rsize..rsize + 16] then Failed(BadFrameMac)
      else OpenBody(Cipher(c, s.pos, sealed)[..fsize], s2, input[rsize + 16..])
  }

  // ---------- round trip ----------

  lemma ReadBody(c: Crypto, s: Side, msg: Msg, tail: seq<byte>)
    requires msg.code < U64 && |BodyOf(msg)| <= MAX_UINT24
    ensures var body := BodyOf(msg);
            var sealed := SealedBody(c, s, body, Padding(|body|));
            var s2 := AfterBody(c, s, sealed);
            ParseBody(c, s, |body|, sealed + Tag16(c, s2.mac) + tail) == Got(msg, s2, tail)
  {
    hide Cipher, Tag16, AfterBody, OpenBody, BodyOf;
    var body := BodyOf(msg);
    var plain := body + Zeros(Padding(|body|));
    var sealed := SealedBody(c, s, body, Padding(|body|));
    var s2 := AfterBody(c, s, sealed);
    var input := sealed + Tag16(c, s2.mac) + tail;
    CipherTwice(c, s.pos, plain);
    var n := |sealed|;
    assert input[..n] == sealed && input[n..n + 16] == Tag16(c, s2.mac) && input[n + 16..] == tail;
    assert plain[..|body|] == body;
  }

  /** A reader in step with the writer gets the message that was sent, leaves the following bytes
      alone, and is in step again. */
  lemma RoundTrip(c: Crypto, s: Side, msg: Msg, tail: seq<byte>)
    requires msg.code < U64 && |BodyOf(msg)| <= MAX_UINT24
    ensures var n := |BodyOf(msg)|;
            Parse(c, s, Frame(c, s, BodyOf(msg), n) + tail) == Got(msg, AfterFrame(c, s, BodyOf(msg), n), tail)
  {
    hide Cipher, Tag16, AfterBody, AfterHeader, BodyOf, ParseBody, SealedBody, ReadInt24, HeaderOf;
    var body := BodyOf(msg);
    var header := SealedHeader(c, s, |body|);
    var s1 := AfterHeader(c, s, header);
    var sealed := SealedBody(c, s1, body, Padding(|body|));
    var tag1, tag2 := Tag16(c, s1.mac), Tag16(c, AfterBody(c, s1, sealed).mac);
    var input := header + tag1 + sealed + tag2 + tail;
    assert input[..16] == header && input[16..32] == tag1;
    assert input[32..] == sealed + tag2 + tail;
    HeaderInverse(c, s, |body|);
    ReadBody(c, s1, msg, tail);
  }

  lemma HeaderInverse(c: Crypto, s: Side, fsize: nat)
    requires fsize <= MAX_UINT24
    ensures ReadInt24(Cipher(c, s.pos, SealedHeader(c, s, fsize))) == fsize
  {
    hide Cipher;
    CipherTwice(c, s.pos, HeaderOf(fsize));
    assert HeaderOf(fsize) == Int24(fsize) + ([0xC2, 0x80, 0x80] + Zeros(10));
    Int24Inverse(fsize, [0xC2, 0x80, 0x80] + Zeros(10));
  }

  /** Whatever is read from a frame is no longer than the size the frame announces. */
  lemma ReadIsShort(c: Crypto, s: Side, body: seq<byte>, fsize: nat, tail: seq<byte>)
    requires fsize <= MAX_UINT24
    ensures var r := Parse(c, s, Frame(c, s, body, fsize) + tail);
            r.Got? ==> |BodyOf(r.msg)| == fsize
  {
    hide Cipher, Tag16, AfterBody, AfterHeader, BodyOf, SealedBody, ReadInt24, HeaderOf, OpenBody;
    var header := SealedHeader(c, s, fsize);
    var input := Frame(c, s, body, fsize) + tail;
    assert input[..16] == header;
    HeaderInverse(c, s, fsize);
  }

  /** What the writer announces: the size it is told, plus the code, in 32 bits. */
  function Announced(msg: Msg, size: nat): (n: nat)
  {
    (|CodeBytes(msg.code)| + size) % U32
  }

  /** What the writer sends comes back exactly when the announced size is the true one. */
  lemma FrameExact(c: Crypto, s: Side, msg: Msg, size: nat, tail: seq<byte>)
    requires msg.code < U64 && Announced(msg, size) <= MAX_UINT24
    ensures var n := Announced(msg, size);
            Parse(c, s, Frame(c, s, BodyOf(msg), n) + tail) == Got(msg, AfterFrame(c, s, BodyOf(msg), n), tail) <==>
              |BodyOf(msg)| == n
  {
    hide Parse, Frame, AfterFrame, BodyOf, CodeBytes;
    var n := Announced(msg, size);
    if |BodyOf(msg)| == n {
      RoundTrip(c, s, msg, tail);
    } else {
      ReadIsShort(c, s, BodyOf(msg), n, tail);
    }
  }

  /** For a message that states its size truly, that is when the sum has not wrapped around. */
  lemma WrapBreaks(c: Crypto, s: Side, msg: Msg, tail: seq<byte>)
    requires msg.code < U64 && Announced(msg, |msg.payload|) <= MAX_UINT24
    ensures var n := Announced(msg, |msg.payload|);
            Parse(c, s, Frame(c, s, BodyOf(msg), n) + tail) == Got(msg, AfterFrame(c, s, BodyOf(msg), n), tail) <==>
              |BodyOf(msg)| < U32
  {
    hide Parse, Frame, AfterFrame, CodeBytes;
    FrameExact(c, s, msg, |msg.payload|, tail);
  }

  /** A message that does wrap around: the writer accepts it as an empty frame. */
  lemma WrapExample(c: Crypto, s: Side, tail: seq<byte>)
    ensures var msg := Msg(0, Zeros(U32 - 1));
            && msg.code < U64 && |msg.payload| < U32 && Announced(msg, |msg.payload|) == 0
            && Parse(c, s, Frame(c, s, BodyOf(msg), 0) + tail) != Got(msg, AfterFrame(c, s, BodyOf(msg), 0), tail)
  {
    hide Parse, Frame, AfterFrame, Zeros;
    var msg := Msg(0, Zeros(U32 - 1));
    assert CodeBytes(0) == [0x80];
    assert |BodyOf(msg)| == U32;
    WrapBreaks(c, s, msg, tail);
  }
}
