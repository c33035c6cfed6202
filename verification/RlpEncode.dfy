/** The split-buffer encoder of rlp/encode.go: string data goes into one buffer, list headers
    are recorded aside with the offset where they belong, and three different routines splice
    the two together afterwards. */
module RlpEncode {
  import opened Basics
  import opened RlpSpec

  /** A list header: its place in the string data, and the size of the list's content. Until
      the list is closed, `size` holds the header bytes counted before it was opened. */
  datatype ListMark = ListMark(offset: nat, size: nat)

  // ---------- integers and headers ----------

  /** What `putint` writes: the shortest big-endian form, where zero takes one byte. */
  function MinBytes(i: nat): (s: seq<byte>)
    ensures |s| >= 1
  {
    if i == 0 then [0] else BigEndian(i)
  }

  method IntSize(i: nat) returns (size: nat)
    requires i < U64
    ensures size == |MinBytes(i)|
  {
    var n := i;
    size := 1;
    while n / 256 != 0
      invariant |MinBytes(i)| == size - 1 + |MinBytes(n)|
      decreases n
    {
      n := n / 256;
      size := size + 1;
    }
    assert BigEndian(n / 256) == [];
  }

  /** Number of bytes chosen by the comparisons of `putint`. */
  function IntLen(i: nat): (n: nat)
    ensures 1 <= n <= 8
  {
    if i < 0x100 then 1 else if i < 0x1_0000 then 2 else if i < 0x100_0000 then 3
    else if i < 0x1_0000_0000 then 4 else if i < 0x100_0000_0000 then 5
    else if i < 0x1_0000_0000_0000 then 6 else if i < 0x100_0000_0000_0000 then 7 else 8
  }

  /** `i >> (8 * k)` */
  function Shift(i: nat, k: nat): (r: nat)
  {
    if k == 0 then i else Shift(i / 256, k - 1)
  }

  /** The k-th byte from the right: `byte(i >> (8 * k))`. */
  function ByteAt(i: nat, k: nat): (b: byte)
  {
    Shift(i, k) % 256
  }

  lemma {:induction false} DigitsByShift(i: nat, j: nat)
    requires j < |BigEndian(i)|
    ensures BigEndian(i)[j] == ByteAt(i, |BigEndian(i)| - 1 - j)
    decreases i
  {
    var n := |BigEndian(i)|;
    if j < n - 1 {
      DigitsByShift(i / 256, j);
    }
  }

  /** The bytes `putint` writes, most significant first. */
  function IntBytes(i: nat): (s: seq<byte>)
  {
    seq(IntLen(i), j requires 0 <= j < IntLen(i) => ByteAt(i, IntLen(i) - 1 - j))
  }

  lemma IntLenIsMin(i: nat)
    requires i < U64
    ensures IntLen(i) == |MinBytes(i)|
  {
    Pow256Values();
    if i > 0 {
      var n := IntLen(i);
      DigitCount(i, n);
      DigitCount(i, n - 1);
    }
  }

  /** The shifts and comparisons of `putint` give the shortest big-endian form. */
  lemma IntBytesIsMin(i: nat)
    requires i < U64
    ensures IntBytes(i) == MinBytes(i)
  {
    IntLenIsMin(i);
    if i > 0 {
      forall j | 0 <= j < IntLen(i) ensures IntBytes(i)[j] == BigEndian(i)[j] {
        DigitsByShift(i, j);
      }
    } else {
      assert ByteAt(0, 0) == 0;
    }
  }

  method PutInt(b: array<byte>, at: nat, i: nat) returns (size: nat)
    requires i < U64 && at + |MinBytes(i)| <= b.Length
    modifies b
    ensures size == |MinBytes(i)| && b[at..at + size] == MinBytes(i)
    ensures b[..at] == old(b[..at]) && b[at + size..] == old(b[at + size..])
  {
    IntBytesIsMin(i);
    size := |IntBytes(i)|;
    CopyInto(b, at, IntBytes(i));
  }

  lemma HeadLength(small: byte, large: byte, size: nat)
    requires size < U64
    ensures |Head(small, large, size)| == (if size < 56 then 1 else 1 + |MinBytes(size)|) <= 9
  {
    DigitCount(size, 8);
    Pow256Values();
  }

  method HeadSize(size: nat) returns (n: nat)
    requires size < U64
    ensures n == |ListHead(size)| == |StrHead(size)|
  {
    HeadLength(0x80, 0xB7, size);
    HeadLength(0xC0, 0xF7, size);
    if size < 56 {
      return 1;
    }
    n := IntSize(size);
    n := n + 1;
  }

  /** Writes a header at position `at`; what it needs of the buffer is exactly the header's length. */
  method PutHead(b: array<byte>, at: nat, small: byte, large: byte, size: nat) returns (n: nat)
    requires size < U64 && small <= 0xC0 && large <= 0xF7
    requires at + |Head(small, large, size)| <= b.Length
    modifies b
    ensures n == |Head(small, large, size)| && b[at..at + n] == Head(small, large, size)
    ensures b[..at] == old(b[..at]) && b[at + n..] == old(b[at + n..])
  {
    if size < 56 {
      SetTag(b, at, 1, small + size);
      return 1;
    }
    n := PutLongHead(b, at, small, large, size);
  }

  lemma LongHead(small: byte, large: byte, size: nat)
    requires 56 <= size < U64 && large <= 0xF7
    ensures |MinBytes(size)| <= 8 && Head(small, large, size) == [large + |MinBytes(size)|] + MinBytes(size)
  {
    HeadLength(small, large, size);
  }

  method PutLongHead(b: array<byte>, at: nat, ghost small: byte, large: byte, size: nat) returns (n: nat)
    requires 56 <= size < U64 && large <= 0xF7
    requires at + |Head(small, large, size)| <= b.Length
    modifies b
    ensures n == |Head(small, large, size)| && b[at..at + n] == Head(small, large, size)
    ensures b[..at] == old(b[..at]) && b[at + n..] == old(b[at + n..])
  {
    hide Head, MinBytes;
    LongHead(small, large, size);
    var k := PutInt(b, at + 1, size);
    n := 1 + k;
    SetTag(b, at, n, large + k);
  }

  /** Puts the tag byte in front of a size field that is already in place. */
  method SetTag(b: array<byte>, at: nat, n: nat, tag: byte)
    requires n >= 1 && at + n <= b.Length
    modifies b
    ensures b[at..at + n] == [tag] + old(b[at + 1..at + n])
    ensures b[..at] == old(b[..at]) && b[at + n..] == old(b[at + n..])
  {
    b[at] := tag;
    assert b[at..at + n] == [b[at]] + b[at + 1..at + n];
  }

  /** Go's `copy` for a source that fits. */
  method CopyInto(dst: array<byte>, at: nat, src: seq<byte>)
    requires at + |src| <= dst.Length
    modifies dst
    ensures dst[at..at + |src|] == src
    ensures dst[..at] == old(dst[..at]) && dst[at + |src|..] == old(dst[at + |src|..])
  {
    for k := 0 to |src|
      modifies dst
      invariant dst[at..at + k] == src[..k]
      invariant dst[..at] == old(dst[..at]) && dst[at + |src|..] == old(dst[at + |src|..])
    {
      dst[at + k] := src[k];
      assert dst[at..at + k + 1] == dst[at..at + k] + [dst[at + k]];
    }
  }

  /** The three forms of an integer's code. */
  lemma UintCode(i: nat)
    requires i < U64
    ensures |MinBytes(i)| <= 8
    ensures EncodeStr(BigEndian(i)) == if i == 0 then [0x80] else if i < 128 then [i]
            else [0x80 + |BigEndian(i)|] + BigEndian(i)
  {
    DigitCount(i, 8);
    Pow256Values();
    if 0 < i < 256 {
      assert BigEndian(i / 256) == [];
      assert BigEndian(i) == [i];
    } else if i > 0 {
      DigitCount(i, 1);
    }
  }

  // ---------- string data with headers spliced in ----------

  /** Offsets ascend from `from` to at most `to`. */
  ghost predicate Ordered(marks: seq<ListMark>, from: nat, to: nat)
  {
    if marks == [] then from <= to
    else from <= marks[0].offset && Ordered(marks[1..], marks[0].offset, to)
  }

  ghost function Splice(str: seq<byte>, marks: seq<ListMark>, from: nat): (out: seq<byte>)
    requires Ordered(marks, from, |str|)
    decreases |marks|
  {
    OrderedRange(marks, from, |str|);
    if marks == [] then str[from..]
    else str[from..marks[0].offset] + ListHead(marks[0].size) + Splice(str, marks[1..], marks[0].offset)
  }

  lemma {:induction false} OrderedRange(marks: seq<ListMark>, from: nat, to: nat)
    requires Ordered(marks, from, to)
    ensures from <= to
    ensures marks != [] ==> marks[0].offset <= to
    decreases |marks|
  {
    if marks != [] {
      OrderedRange(marks[1..], marks[0].offset, to);
    }
  }

  lemma {:induction false} OrderedConcat(a: seq<ListMark>, b: seq<ListMark>, from: nat, mid: nat, to: nat)
    requires Ordered(a, from, mid) && Ordered(b, mid, to)
    ensures Ordered(a + b, from, to)
    decreases |a|
  {
    if a == [] {
      assert a + b == b;
      OrderedRange(b, mid, to);
    } else {
      assert (a + b)[1..] == a[1..] + b;
      OrderedConcat(a[1..], b, a[0].offset, mid, to);
    }
  }

  /** Data in front of the first header is copied as it is. */
  lemma SpliceSkip(str: seq<byte>, marks: seq<ListMark>, from: nat, mid: nat)
    requires from <= mid && Ordered(marks, mid, |str|)
    ensures Ordered(marks, from, |str|) && mid <= |str|
    ensures Splice(str, marks, from) == str[from..mid] + Splice(str, marks, mid)
  {
    OrderedRange(marks, mid, |str|);
    if marks == [] {
      assert str[from..] == str[from..mid] + str[mid..];
    } else {
      var off := marks[0].offset;
      assert str[from..off] == str[from..mid] + str[mid..off];
      Assoc(str[from..mid], str[mid..off], ListHead(marks[0].size));
      Assoc(str[from..mid], str[mid..off] + ListHead(marks[0].size), Splice(str, marks[1..], off));
    }
  }

  /** Splicing two stretches of data one after the other. */
  lemma {:induction false} SpliceConcat(s: seq<byte>, t: seq<byte>, a: seq<ListMark>, b: seq<ListMark>, from: nat)
    requires Ordered(a, from, |s|) && Ordered(b, |s|, |s + t|)
    ensures Ordered(a + b, from, |s + t|)
    ensures Splice(s + t, a + b, from) == Splice(s, a, from) + Splice(s + t, b, |s|)
    decreases |a|
  {
    OrderedConcat(a, b, from, |s|, |s + t|);
    OrderedRange(a, from, |s|);
    if a == [] {
      assert a + b == b;
      SpliceSkip(s + t, b, from, |s|);
      assert (s + t)[from..|s|] == s[from..];
    } else {
      assert (a + b)[1..] == a[1..] + b && (a + b)[0] == a[0];
      SpliceConcat(s, t, a[1..], b, a[0].offset);
      assert (s + t)[from..a[0].offset] == s[from..a[0].offset];
      Assoc(s[from..a[0].offset] + ListHead(a[0].size), Splice(s, a[1..], a[0].offset), Splice(s + t, b, |s|));
    }
  }

  lemma SpliceJoin(str1: seq<byte>, str: seq<byte>, a: seq<ListMark>, b: seq<ListMark>, from: nat)
    requires str1 <= str && Ordered(a, from, |str1|) && Ordered(b, |str1|, |str|)
    ensures Ordered(a + b, from, |str|)
    ensures Splice(str, a + b, from) == Splice(str1, a, from) + Splice(str, b, |str1|)
  {
    assert str == str1 + str[|str1|..];
    SpliceConcat(str1, str[|str1|..], a, b, from);
  }

  // ---------- the buffer ----------

  ghost predicate Small(marks: seq<ListMark>)
  {
    forall i :: 0 <= i < |marks| ==> marks[i].size < U64
  }

  class EncBuf {
    var str: seq<byte>
    var lheads: seq<ListMark>
    var lhsize: nat
    const sizebuf: array<byte>

    constructor ()
      ensures str == [] && lheads == [] && lhsize == 0
      ensures sizebuf.Length == 9 && fresh(sizebuf)
    {
      str, lheads, lhsize := [], [], 0;
      sizebuf := new byte[9](_ => 0);
    }

    function Size(): (n: nat)
      reads this
    {
      |str| + lhsize
    }

    /** All lists are closed, and the recorded size is the length of the spliced data. */
    ghost predicate Complete()
      reads this
    {
      && sizebuf.Length == 9
      && Ordered(lheads, 0, |str|)
      && Small(lheads)
      && Size() == |Splice(str, lheads, 0)|
    }

    method EncodeStringHeader(size: nat)
      requires size < U64 && sizebuf.Length == 9
      modifies this, sizebuf
      ensures str == old(str) + StrHead(size)
      ensures lheads == old(lheads) && lhsize == old(lhsize)
    {
      if size < 56 {
        str := str + [0x80 + size];
      } else {
        HeadLength(0x80, 0xB7, size);
        var n := PutInt(sizebuf, 1, size);
        SetTag(sizebuf, 0, n + 1, 0xB7 + n);
        str := str + sizebuf[..n + 1];
      }
    }

    method EncodeString(b: seq<byte>)
      requires |b| < U64 && sizebuf.Length == 9
      modifies this, sizebuf
      ensures str == old(str) + EncodeStr(b)
      ensures lheads == old(lheads) && lhsize == old(lhsize)
    {
      if |b| == 1 && b[0] <= 0x7F {
        str := str + [b[0]];
      } else {
        EncodeStringHeader(|b|);
        str := str + b;
        Assoc(old(str), StrHead(|b|), b);
      }
    }

    /** An unsigned integer is written as the string of its big-endian digits. */
    method WriteUint(i: nat)
      requires i < U64 && sizebuf.Length == 9
      modifies this, sizebuf
      ensures str == old(str) + EncodeStr(BigEndian(i))
      ensures lheads == old(lheads) && lhsize == old(lhsize)
    {
      UintCode(i);
      if i == 0 {
        str := str + [0x80];
      } else if i < 128 {
        str := str + [i];
      } else {
        var n := PutInt(sizebuf, 1, i);
        SetTag(sizebuf, 0, n + 1, 0x80 + n);
        str := str + sizebuf[..n + 1];
      }
    }

    /** Opens a list; the handle is the place of its header among `lheads`. */
    method List() returns (lh: nat)
      modifies this
      ensures lh == |old(lheads)|
      ensures lheads == old(lheads) + [ListMark(|str|, lhsize)]
      ensures str == old(str) && lhsize == old(lhsize)
    {
      lh := |lheads|;
      lheads := lheads + [ListMark(|str|, lhsize)];
    }

    method ListEnd(lh: nat)
      requires lh < |lheads|
      requires lheads[lh].offset + lheads[lh].size <= Size() < lheads[lh].offset + lheads[lh].size + U64
      modifies this
      ensures var m := old(lheads[lh]);
              var size := old(Size()) - m.offset - m.size;
              lheads == old(lheads)[lh := ListMark(m.offset, size)] && lhsize == old(lhsize) + |ListHead(size)|
      ensures str == old(str)
    {
      var m := lheads[lh];
      var size := Size() - m.offset - m.size;
      lheads := lheads[lh := ListMark(m.offset, size)];
      var n := HeadSize(size);
      lhsize := lhsize + n;
    }

    /** What writing `e` into the buffer leaves: the stretch of data and headers added since
        (`str0`, `heads0`, `size0`) splices to exactly `e`. */
    ghost predicate Added(str0: seq<byte>, heads0: seq<ListMark>, size0: nat, e: seq<byte>)
      reads this
    {
      && str0 <= str && heads0 <= lheads
      && Ordered(lheads[|heads0|..], |str0|, |str|)
      && Small(lheads[|heads0|..])
      && Splice(str, lheads[|heads0|..], |str0|) == e
      && Size() == size0 + |e|
    }

    /** Writes a value: `writeBytes` for strings, the slice writer for lists. */
    method EncodeItem(v: Item)
      requires |Encode(v)| < U64 && sizebuf.Length == 9
      modifies this, sizebuf
      ensures Added(old(str), old(lheads), old(Size()), Encode(v))
      decreases v, 0
    {
      match v
      case Str(b) =>
        EncodeString(b);
        assert lheads[|old(lheads)|..] == [];
        assert str[|old(str)|..] == EncodeStr(b);
      case Lst(xs) =>
        var lh := List();
        var heads1 := lheads;
        EncodeItems(xs);
        ghost var e := EncodeAll(xs);
        assert lheads[lh] == heads1[lh];
        ListEnd(lh);
        assert lheads[lh..][1..] == lheads[|heads1|..] == old(lheads)[..0] + lheads[lh + 1..];
        assert str[|old(str)|..|old(str)|] == [];
    }

    method EncodeItems(xs: seq<Item>)
      requires |EncodeAll(xs)| < U64 && sizebuf.Length == 9
      modifies this, sizebuf
      ensures Added(old(str), old(lheads), old(Size()), EncodeAll(xs))
      decreases xs, 1
    {
      assert lheads[|lheads|..] == [] && str[|str|..] == [];
      for i := 0 to |xs|
        invariant Added(old(str), old(lheads), old(Size()), EncodeAll(xs[..i]))
      {
        ItemFits(xs, i);
        ghost var str1, heads1 := str, lheads;
        EncodeItem(xs[i]);
        SpliceJoin(str1, str, heads1[|old(lheads)|..], lheads[|heads1|..], |old(str)|);
        assert lheads[|old(lheads)|..] == heads1[|old(lheads)|..] + lheads[|heads1|..];
        assert xs[..i + 1] == xs[..i] + [xs[i]];
        EncodeAllSnoc(xs[..i], xs[i]);
      }
      assert xs[..|xs|] == xs;
    }

    /** Bytes of `all` from `pos` on are still to be spliced from header k and data `strpos` on. */
    ghost predicate Left(all: seq<byte>, pos: nat, k: nat, strpos: nat)
      reads this
    {
      && k <= |lheads| && Ordered(lheads[k..], strpos, |str|)
      && pos <= |all| && all[pos..] == Splice(str, lheads[k..], strpos)
    }

    method ToBytes() returns (out: array<byte>)
      requires Complete()
      ensures fresh(out) && out[..] == Splice(str, lheads, 0)
    {
      out := new byte[Size()](_ => 0);
      var strpos: nat, pos: nat := 0, 0;
      ghost var all := Splice(str, lheads, 0);
      assert lheads[0..] == lheads;
      for k := 0 to |lheads|
        invariant Left(all, pos, k, strpos)
        invariant out.Length == |all| && out[..pos] == all[..pos]
      {
        pos, strpos := PutMark(out, all, pos, k, strpos);
      }
      SpliceEnd(all, pos, str, lheads, strpos);
      CopyNext(out, all, pos, str[strpos..]);
      assert out[..] == out[..|all|] && all == all[..|all|];
    }

    /** One round of `toBytes`: the data in front of header k, then the header. */
    method PutMark(out: array<byte>, ghost all: seq<byte>, pos: nat, k: nat, strpos: nat)
        returns (pos': nat, strpos': nat)
      requires k < |lheads| && lheads[k].size < U64 && Left(all, pos, k, strpos)
      requires out.Length == |all| && out[..pos] == all[..pos]
      modifies out
      ensures Left(all, pos', k + 1, strpos') && out[..pos'] == all[..pos']
    {
      var head := lheads[k];
      SpliceNext(all, pos, str, lheads, k, strpos);
      CopyNext(out, all, pos, str[strpos..head.offset]);
      pos' := pos + (head.offset - strpos);
      strpos' := head.offset;
      var n := PutHeadPart(out, all, pos', head.size);
      pos' := pos' + n;
    }

    /** Writes to a sink that may run out of room part-way. */
    method ToWriter(w: Sink) returns (ok: bool)
      requires Complete() && w as object != this
      modifies w, sizebuf
      ensures ok <==> |Splice(str, lheads, 0)| <= old(w.room)
      ensures w.data == old(w.data) + Splice(str, lheads, 0)[..if ok then |Splice(str, lheads, 0)| else old(w.room)]
    {
      var strpos: nat := 0;
      ghost var all := Splice(str, lheads, 0);
      ghost var done: nat := 0;
      assert lheads[0..] == lheads;
      for k := 0 to |lheads|
        invariant Left(all, done, k, strpos)
        invariant w.data == old(w.data) + all[..done] && w.room == old(w.room) - done
      {
        ok, done, strpos := WriteMark(w, old(w.data), all, done, k, strpos);
        if !ok { return; }
      }
      SpliceEnd(all, done, str, lheads, strpos);
      ok := true;
      if strpos < |str| {
        ok := WritePart(w, old(w.data), all, done, str[strpos..]);
      }
    }

    /** One round of `toWriter`. */
    method WriteMark(w: Sink, ghost data0: seq<byte>, ghost all: seq<byte>, ghost done: nat, k: nat, strpos: nat)
      returns (ok: bool, ghost done': nat, strpos': nat)
      requires sizebuf.Length == 9 && w as object != this
      requires k < |lheads| && lheads[k].size < U64 && Left(all, done, k, strpos)
      requires w.data == data0 + all[..done]
      modifies w, sizebuf
      ensures ok ==> Left(all, done', k + 1, strpos')
      ensures ok ==> w.data == data0 + all[..done'] && w.room == old(w.room) + done - done'
      ensures !ok ==> done + old(w.room) < |all| && w.data == data0 + all[..done + old(w.room)]
    {
      var head := lheads[k];
      SpliceNext(all, done, str, lheads, k, strpos);
      done', strpos' := done, strpos;
      if head.offset > strpos {
        ok := WritePart(w, data0, all, done, str[strpos..head.offset]);
        if !ok { return; }
        done' := done + (head.offset - strpos);
        strpos' := head.offset;
      }
      var h := HeaderBytes(head.size);
      ok := WritePart(w, data0, all, done', h);
      done' := done' + |h|;
    }

    /** `head.encode(w.sizebuf)` */
    method HeaderBytes(size: nat) returns (h: seq<byte>)
      requires size < U64 && sizebuf.Length == 9
      modifies sizebuf
      ensures h == ListHead(size) && |h| <= 9 && sizebuf[..|h|] == h
    {
      HeadLength(0xC0, 0xF7, size);
      var n := PutHead(sizebuf, 0, 0xC0, 0xF7, size);
      h := sizebuf[..n];
      assert sizebuf[..n] == sizebuf[0..0 + n];
    }
  }

  /** What comes out next: the data up to the header at place k, the header, then the rest. */
  lemma SpliceNext(all: seq<byte>, pos: nat, str: seq<byte>, marks: seq<ListMark>, k: nat, from: nat)
    requires k < |marks| && Ordered(marks[k..], from, |str|)
    requires pos <= |all| && all[pos..] == Splice(str, marks[k..], from)
    ensures from <= marks[k].offset <= |str| && Ordered(marks[k + 1..], marks[k].offset, |str|)
    ensures var p, h := pos + (marks[k].offset - from), ListHead(marks[k].size);
            && p + |h| <= |all|
            && all[pos..p] == str[from..marks[k].offset]
            && all[p..p + |h|] == h
            && all[p + |h|..] == Splice(str, marks[k + 1..], marks[k].offset)
  {
    OrderedRange(marks[k..], from, |str|);
    assert marks[k..][1..] == marks[k + 1..];
    var part, h := str[from..marks[k].offset], ListHead(marks[k].size);
    var rest := Splice(str, marks[k + 1..], marks[k].offset);
    assert all[pos..] == part + h + rest;
    Cut(all, pos, part, h, rest);
  }

  /** After the last header only string data is left. */
  lemma SpliceEnd(all: seq<byte>, pos: nat, str: seq<byte>, marks: seq<ListMark>, from: nat)
    requires Ordered(marks[|marks|..], from, |str|)
    requires pos <= |all| && all[pos..] == Splice(str, marks[|marks|..], from)
    ensures from <= |str| && pos + (|str| - from) == |all|
    ensures all[pos..|all|] == str[from..]
  {
    assert marks[|marks|..] == [];
    assert all[pos..|all|] == all[pos..];
  }

  lemma Cut(all: seq<byte>, pos: nat, a: seq<byte>, b: seq<byte>, c: seq<byte>)
    requires pos <= |all| && all[pos..] == a + b + c
    ensures pos + |a| + |b| <= |all|
    ensures all[pos..pos + |a|] == a
    ensures all[pos + |a|..pos + |a| + |b|] == b
    ensures all[pos + |a| + |b|..] == c
  {
    var t := all[pos..];
    assert all[pos..pos + |a|] == t[..|a|];
    assert all[pos + |a|..pos + |a| + |b|] == t[|a|..|a| + |b|];
    assert all[pos + |a| + |b|..] == t[|a| + |b|..];
  }

  /** Copies the next part of `all` into an output that holds what came before. */
  method CopyNext(out: array<byte>, ghost all: seq<byte>, pos: nat, p: seq<byte>)
    requires pos + |p| <= |all| && pos + |p| <= out.Length
    requires out[..pos] == all[..pos] && all[pos..pos + |p|] == p
    modifies out
    ensures out[..pos + |p|] == all[..pos + |p|]
  {
    CopyInto(out, pos, p);
    assert out[..pos + |p|] == out[..pos] + out[pos..pos + |p|];
    assert all[..pos + |p|] == all[..pos] + all[pos..pos + |p|];
  }

  method PutHeadPart(out: array<byte>, ghost all: seq<byte>, pos: nat, size: nat) returns (n: nat)
    requires size < U64 && pos + |ListHead(size)| <= |all| == out.Length
    requires out[..pos] == all[..pos] && all[pos..pos + |ListHead(size)|] == ListHead(size)
    modifies out
    ensures n == |ListHead(size)| && out[..pos + n] == all[..pos + n]
  {
    n := PutHead(out, pos, 0xC0, 0xF7, size);
    assert out[..pos + n] == out[..pos] + out[pos..pos + n];
    assert all[..pos + n] == all[..pos] + all[pos..pos + n];
  }

  /** An `io.Writer` with a limited amount of room. */
  class Sink {
    var data: seq<byte>
    var room: nat

    constructor (room: nat)
      ensures data == [] && this.room == room
    {
      data := [];
      this.room := room;
    }

    method Write(p: seq<byte>) returns (n: nat, ok: bool)
      modifies this
      ensures n == if |p| <= old(room) then |p| else old(room)
      ensures ok <==> |p| <= old(room)
      ensures data == old(data) + p[..n] && room == old(room) - n
    {
      n := if |p| <= room then |p| else room;
      data := data + p[..n];
      ok := n == |p|;
      room := room - n;
    }
  }

  /** One `out.Write` of `toWriter`: `p` is the next part of `all`. */
  method WritePart(w: Sink, ghost data0: seq<byte>, ghost all: seq<byte>, ghost done: nat, p: seq<byte>)
      returns (ok: bool)
    requires done + |p| <= |all| && all[done..done + |p|] == p
    requires w.data == data0 + all[..done]
    modifies w
    ensures ok <==> |p| <= old(w.room)
    ensures ok ==> w.data == data0 + all[..done + |p|] && w.room == old(w.room) - |p|
    ensures !ok ==> w.data == data0 + all[..done + old(w.room)]
  {
    var n, ok' := w.Write(p);
    ok := ok';
    assert all[..done + n] == all[..done] + all[done..done + |p|][..n];
  }

  lemma ItemFits(xs: seq<Item>, i: nat)
    requires i < |xs|
    ensures |Encode(xs[i])| <= |EncodeAll(xs)|
  {
    assert xs == xs[..i] + ([xs[i]] + xs[i + 1..]);
    EncodeAllConcat(xs[..i], [xs[i]] + xs[i + 1..]);
    EncodeAllConcat([xs[i]], xs[i + 1..]);
    EncodeAllSnoc([], xs[i]);
    assert [] + [xs[i]] == [xs[i]];
  }
}
