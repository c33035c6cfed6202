/** The RLP code of Appendix B of the Ethereum Yellow Paper, as the plain recursive
    definition that the split-buffer encoder and both parsers are compared with. */
module RlpSpec {
  import opened Basics

  type byte = x: int | 0 <= x < 256

  /** What `rlp.Decode` stores in an interface value: a byte string or a list. */
  datatype Item = Str(data: seq<byte>) | Lst(items: seq<Item>)

  // ---------- big-endian integers ----------

  /** Big-endian digits without leading zeros; zero has none. */
  function BigEndian(n: nat): (s: seq<byte>)
    decreases n
  {
    if n == 0 then [] else BigEndian(n / 256) + [n % 256]
  }

  function FromBigEndian(s: seq<byte>): (n: nat)
  {
    if s == [] then 0 else FromBigEndian(s[..|s| - 1]) * 256 + s[|s| - 1]
  }

  function Pow256(k: nat): (p: nat)
    ensures p >= 1
  {
    if k == 0 then 1 else 256 * Pow256(k - 1)
  }

  lemma {:induction false} BigEndianInverse(n: nat)
    ensures FromBigEndian(BigEndian(n)) == n
    ensures n > 0 ==> BigEndian(n) != [] && BigEndian(n)[0] != 0
    decreases n
  {
    if n > 0 {
      BigEndianInverse(n / 256);
      var s := BigEndian(n);
      assert s[..|s| - 1] == BigEndian(n / 256);
    }
  }

  lemma {:induction false} FromBigEndianInverse(s: seq<byte>)
    requires s == [] || s[0] != 0
    ensures BigEndian(FromBigEndian(s)) == s
    ensures s != [] ==> FromBigEndian(s) > 0
  {
    if s != [] {
      var t := s[..|s| - 1];
      FromBigEndianInverse(t);
      assert s == t + [s[|s| - 1]];
    }
  }

  /** A number has at most k digits exactly when it is below 256 to the k. */
  lemma {:induction false} DigitCount(n: nat, k: nat)
    ensures |BigEndian(n)| <= k <==> n < Pow256(k)
    decreases k
  {
    if n > 0 {
      if k > 0 {
        DigitCount(n / 256, k - 1);
      }
    }
  }

  lemma {:induction false} FromBigEndianBound(s: seq<byte>)
    ensures FromBigEndian(s) < Pow256(|s|)
  {
    if s != [] {
      FromBigEndianBound(s[..|s| - 1]);
    }
  }

  lemma Pow256Values()
    ensures Pow256(1) == 0x100 && Pow256(2) == 0x1_0000 && Pow256(3) == 0x100_0000
    ensures Pow256(4) == 0x1_0000_0000 && Pow256(5) == 0x100_0000_0000
    ensures Pow256(6) == 0x1_0000_0000_0000 && Pow256(7) == 0x100_0000_0000_0000
    ensures Pow256(8) == U64
  {
    assert Pow256(2) == 256 * Pow256(1);
    assert Pow256(3) == 256 * Pow256(2);
    assert Pow256(4) == 256 * Pow256(3);
    assert Pow256(5) == 256 * Pow256(4);
    assert Pow256(6) == 256 * Pow256(5);
    assert Pow256(7) == 256 * Pow256(6);
    assert Pow256(8) == 256 * Pow256(7);
  }

  // ---------- the code ----------

  /** A tag byte. For sizes below 2^64 the sum always fits; the code has no header for
      larger ones. */
  function Tag(base: byte, n: nat): (r: byte)
  {
    if base + n < 256 then base + n else 0
  }

  /** Header of a string or list whose content has `size` bytes. */
  function Head(small: byte, large: byte, size: nat): (h: seq<byte>)
    ensures |h| >= 1
  {
    if size < 56 then [Tag(small, size)]
    else [Tag(large, |BigEndian(size)|)] + BigEndian(size)
  }

  function StrHead(size: nat): (h: seq<byte>)
    ensures |h| >= 1
  {
    Head(0x80, 0xB7, size)
  }

  function ListHead(size: nat): (h: seq<byte>)
    ensures |h| >= 1
  {
    Head(0xC0, 0xF7, size)
  }

  function EncodeStr(b: seq<byte>): (e: seq<byte>)
    ensures |e| >= 1
  {
    if |b| == 1 && b[0] <= 0x7F then b else StrHead(|b|) + b
  }

  function Encode(v: Item): (e: seq<byte>)
    ensures |e| >= 1
    decreases v, 0
  {
    match v
    case Str(b) => EncodeStr(b)
    case Lst(xs) => ListHead(|EncodeAll(xs)|) + EncodeAll(xs)
  }

  function EncodeAll(xs: seq<Item>): (e: seq<byte>)
    ensures |e| >= |xs|
    decreases xs, 1
  {
    if xs == [] then [] else Encode(xs[0]) + EncodeAll(xs[1..])
  }

  lemma Assoc<T>(a: seq<T>, b: seq<T>, c: seq<T>)
    ensures a + b + c == a + (b + c)
  {}

  lemma {:induction false} EncodeAllConcat(xs: seq<Item>, ys: seq<Item>)
    ensures EncodeAll(xs + ys) == EncodeAll(xs) + EncodeAll(ys)
  {
    if xs == [] {
      assert xs + ys == ys;
    } else {
      assert (xs + ys)[0] == xs[0] && (xs + ys)[1..] == xs[1..] + ys;
      EncodeAllConcat(xs[1..], ys);
      Assoc(Encode(xs[0]), EncodeAll(xs[1..]), EncodeAll(ys));
    }
  }

  lemma EncodeAllSnoc(xs: seq<Item>, x: Item)
    ensures EncodeAll(xs + [x]) == EncodeAll(xs) + Encode(x)
  {
    EncodeAllConcat(xs, [x]);
    assert [x][1..] == [];
    assert EncodeAll([x]) == Encode(x);
  }
}
