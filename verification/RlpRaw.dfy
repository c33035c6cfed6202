/** The slice parser of rlp/raw.go, and what its header reader says about the RLP code. */
module RlpRaw {
  import opened Basics
  import opened RlpSpec

  datatype Kind = Byte | String | List

  datatype Error =
    | UnexpectedEOF | EOF | EOL
    | ExpectedString | ExpectedList | CanonInt | CanonSize | ElemTooLarge
    | ValueTooLarge | MoreThanOneValue | NotInList | NotAtEOL | UintOverflow

  datatype Result<+T> = Ok(value: T) | Err(error: Error)

  /** Kind of a value, length of its header, length of its content. A single byte below
      0x80 is its own content and has no header. */
  datatype ValueHead = ValueHead(kind: Kind, tag: nat, size: nat)

  /** Big-endian size field of `slen` bytes; small sizes and leading zeros are refused. */
  function ReadSize(b: seq<byte>, slen: nat): (r: Result<nat>)
    requires slen >= 1
    ensures r.Ok? ==> slen <= |b| && BigEndian(r.value) == b[..slen] && r.value >= 56
  {
    if slen > |b| then Err(UnexpectedEOF)
    else
      var s := FromBigEndian(b[..slen]);
      if s < 56 || b[0] == 0 then Err(CanonSize)
      else FromBigEndianInverse(b[..slen]); Ok(s)
  }

  function ReadKind(buf: seq<byte>): (r: Result<ValueHead>)
    ensures r.Ok? ==> 1 <= r.value.tag + r.value.size <= |buf|
  {
    if |buf| == 0 then Err(UnexpectedEOF)
    else
      var b := buf[0];
      var h :=
        if b < 0x80 then Ok(ValueHead(Byte, 0, 1))
        else if b < 0xB8 then
          if b - 0x80 == 1 && |buf| > 1 && buf[1] < 128 then Err(CanonSize)
          else Ok(ValueHead(String, 1, b - 0x80))
        else if b < 0xC0 then
          var s := ReadSize(buf[1..], b - 0xB7);
          if s.Err? then Err(s.error) else Ok(ValueHead(String, b - 0xB7 + 1, s.value))
        else if b < 0xF8 then Ok(ValueHead(List, 1, b - 0xC0))
        else
          var s := ReadSize(buf[1..], b - 0xF7);
          if s.Err? then Err(s.error) else Ok(ValueHead(List, b - 0xF7 + 1, s.value));
      if h.Ok? && h.value.size > |buf| - h.value.tag then Err(ValueTooLarge) else h
  }

  /** Content of the first value of `buf`, and the bytes after it. */
  function Split(buf: seq<byte>): (r: Result<(Kind, seq<byte>, seq<byte>)>)
  {
    var h := ReadKind(buf);
    if h.Err? then Err(h.error)
    else
      var ValueHead(k, ts, cs) := h.value;
      Ok((k, buf[ts..ts + cs], buf[ts + cs..]))
  }

  function SplitString(buf: seq<byte>): (r: Result<(seq<byte>, seq<byte>)>)
  {
    var s := Split(buf);
    if s.Err? then Err(s.error)
    else if s.value.0 == List then Err(ExpectedString)
    else Ok((s.value.1, s.value.2))
  }

  function SplitList(buf: seq<byte>): (r: Result<(seq<byte>, seq<byte>)>)
  {
    var s := Split(buf);
    if s.Err? then Err(s.error)
    else if s.value.0 != List then Err(ExpectedList)
    else Ok((s.value.1, s.value.2))
  }

  // ---------- headers and the code ----------

  /** A header that was accepted is the header the code puts there. */
  lemma TagSound(buf: seq<byte>)
    requires ReadKind(buf).Ok? && ReadKind(buf).value.kind != Byte
    ensures var ValueHead(k, ts, cs) := ReadKind(buf).value;
            buf[..ts] == if k == List then ListHead(cs) else StrHead(cs)
  {
    hide BigEndian, FromBigEndian, ReadSize;
    var ValueHead(k, ts, cs) := ReadKind(buf).value;
    var b := buf[0];
    if b < 0xB8 || 0xC0 <= b < 0xF8 {
      assert buf[..ts] == [b];
    } else {
      var slen := ts - 1;
      assert BigEndian(cs) == buf[1..][..slen];
      assert buf[..ts] == [b] + buf[1..][..slen];
    }
  }

  lemma HeadSound(buf: seq<byte>)
    requires ReadKind(buf).Ok?
    ensures var ValueHead(k, ts, cs) := ReadKind(buf).value;
            var content := buf[ts..ts + cs];
            buf[..ts + cs] == if k == List then ListHead(cs) + content else EncodeStr(content)
  {
    hide BigEndian, FromBigEndian, ReadSize;
    var ValueHead(k, ts, cs) := ReadKind(buf).value;
    if k != Byte {
      TagSound(buf);
      assert buf[..ts + cs] == buf[..ts] + buf[ts..ts + cs];
      if k == String && cs == 1 {
        assert buf[ts..ts + cs] == [buf[1]];
      }
    }
  }

  /** Long size fields written by the code are accepted again. */
  lemma LongSize(size: nat, rest: seq<byte>)
    requires 56 <= size < U64
    ensures 1 <= |BigEndian(size)| <= 8
    ensures ReadSize(BigEndian(size) + rest, |BigEndian(size)|) == Ok(size)
  {
    BigEndianInverse(size);
    DigitCount(size, 8);
    Pow256Values();
    var d := BigEndian(size);
    assert (d + rest)[..|d|] == d;
  }

  lemma LongSizeAt(tag: byte, size: nat, buf: seq<byte>)
    requires 56 <= size < U64
    requires [tag] + BigEndian(size) <= buf
    ensures 1 <= |BigEndian(size)| <= 8
    ensures ReadSize(buf[1..], |BigEndian(size)|) == Ok(size)
  {
    var d := BigEndian(size);
    assert buf[1..] == d + buf[1 + |d|..] by {
      assert buf == buf[..1 + |d|] + buf[1 + |d|..];
      assert buf[..1 + |d|] == [tag] + d;
    }
    LongSize(size, buf[1 + |d|..]);
  }

  lemma ListHeadComplete(p: seq<byte>, buf: seq<byte>)
    requires ListHead(|p|) + p <= buf && |p| < U64
    ensures ReadKind(buf) == Ok(ValueHead(List, |ListHead(|p|)|, |p|))
    ensures SplitList(buf) == Ok((p, buf[|ListHead(|p|)| + |p|..]))
  {
    hide BigEndian, FromBigEndian, ReadSize;
    var h := ListHead(|p|);
    assert buf[..|h|] == h && buf[|h|..|h| + |p|] == p by {
      assert buf[..|h| + |p|] == h + p;
    }
    LongHead(0xF7, |p|, buf, h);
  }

  /** Reading back the size field of a header with a long size. */
  lemma LongHead(large: byte, size: nat, buf: seq<byte>, h: seq<byte>)
    requires h == [Tag(large, |BigEndian(size)|)] + BigEndian(size) || size < 56
    requires h <= buf && size < U64 && large <= 0xF7
    ensures size >= 56 ==> 1 <= |BigEndian(size)| <= 8
    ensures size >= 56 ==> buf != [] && buf[0] == large + |BigEndian(size)|
    ensures size >= 56 ==> ReadSize(buf[1..], buf[0] - large) == Ok(size)
  {
    if size >= 56 {
      LongSizeAt(h[0], size, buf);
      assert buf[0] == h[0];
    }
  }

  lemma StrHeadComplete(c: seq<byte>, buf: seq<byte>)
    requires EncodeStr(c) <= buf && |c| < U64
    ensures SplitString(buf) == Ok((c, buf[|EncodeStr(c)|..]))
  {
    if |c| == 1 && c[0] <= 0x7F {
      assert buf[..1] == c;
      assert buf[0] == c[0];
    } else {
      var h := StrHead(|c|);
      assert buf[..|h|] == h && buf[|h|..|h| + |c|] == c by {
        assert buf[..|h| + |c|] == h + c;
      }
      LongHead(0xB7, |c|, buf, h);
      assert |c| == 1 ==> buf[1] == c[0];
      StrTag(|c|, buf, h);
    }
  }

  lemma StrTag(size: nat, buf: seq<byte>, h: seq<byte>)
    requires h == StrHead(size) && h <= buf && |h| + size <= |buf|
    requires size == 1 ==> buf[1] >= 128
    requires size >= 56 ==> 1 <= |BigEndian(size)| <= 8 && buf[0] == 0xB7 + |BigEndian(size)|
    requires size >= 56 ==> ReadSize(buf[1..], buf[0] - 0xB7) == Ok(size)
    ensures ReadKind(buf) == Ok(ValueHead(String, |h|, size))
  {
    assert buf[0] == h[0];
  }

  /** `SplitString` accepts exactly the buffers that start with the code of a string, and
      cuts them there. */
  lemma SplitStringExact(buf: seq<byte>, c: seq<byte>, rest: seq<byte>)
    requires |buf| < U64
    ensures SplitString(buf) == Ok((c, rest)) <==> buf == EncodeStr(c) + rest
  {
    if SplitString(buf) == Ok((c, rest)) {
      HeadSound(buf);
      var ValueHead(_, ts, cs) := ReadKind(buf).value;
      assert buf == buf[..ts + cs] + buf[ts + cs..];
    }
    if buf == EncodeStr(c) + rest {
      StrHeadComplete(c, buf);
    }
  }

  lemma SplitListExact(buf: seq<byte>, p: seq<byte>, rest: seq<byte>)
    requires |buf| < U64
    ensures SplitList(buf) == Ok((p, rest)) <==> buf == ListHead(|p|) + p + rest
  {
    if SplitList(buf) == Ok((p, rest)) {
      HeadSound(buf);
      var ValueHead(_, ts, cs) := ReadKind(buf).value;
      assert buf == buf[..ts + cs] + buf[ts + cs..];
    }
    if buf == ListHead(|p|) + p + rest {
      ListHeadComplete(p, buf);
    }
  }

  // ---------- the code is prefix free ----------

  /** No encoding is the start of another one: a buffer starts with at most one value. */
  lemma {:induction false} PrefixFree(u: Item, v: Item, buf: seq<byte>)
    requires Encode(u) <= buf && Encode(v) <= buf && |buf| < U64
    ensures u == v
    decreases u, 0
  {
    HeadDetermines(u, buf);
    HeadDetermines(v, buf);
    if u.Lst? {
      SamePayload(u.items, v.items);
    }
  }

  /** What the first header of a buffer says about the value the buffer starts with. */
  lemma HeadDetermines(v: Item, buf: seq<byte>)
    requires Encode(v) <= buf && |buf| < U64
    ensures v.Str? ==> SplitString(buf) == Ok((v.data, buf[|Encode(v)|..]))
    ensures v.Lst? ==> SplitList(buf) == Ok((EncodeAll(v.items), buf[|Encode(v)|..]))
  {
    match v
    case Str(b) => StrHeadComplete(b, buf);
    case Lst(xs) => ListHeadComplete(EncodeAll(xs), buf);
  }

  lemma {:induction false} SamePayload(us: seq<Item>, vs: seq<Item>)
    requires EncodeAll(us) == EncodeAll(vs) && |EncodeAll(us)| < U64
    ensures us == vs
    decreases us, 1
  {
    if us == [] {
    } else if vs == [] {
    } else {
      var p := EncodeAll(us);
      PrefixFree(us[0], vs[0], p);
      assert p[|Encode(us[0])|..] == EncodeAll(us[1..]);
      assert p[|Encode(vs[0])|..] == EncodeAll(vs[1..]);
      SamePayload(us[1..], vs[1..]);
      assert us == [us[0]] + us[1..] && vs == [vs[0]] + vs[1..];
    }
  }

  // ---------- counting values ----------

  /** Number of values after cutting the buffer value by value. */
  function Count(buf: seq<byte>): (r: Result<nat>)
  {
    if buf == [] then Ok(0)
    else
      var h := ReadKind(buf);
      if h.Err? then Err(h.error)
      else
        var rest := Count(buf[h.value.tag + h.value.size..]);
        if rest.Err? then rest else Ok(rest.value + 1)
  }

  method CountValues(buf: seq<byte>) returns (r: Result<nat>)
    ensures r == Count(buf)
  {
    var b, i := buf, 0;
    while |b| > 0
      invariant Count(buf) == if Count(b).Ok? then Ok(i + Count(b).value) else Count(b)
      decreases |b|
    {
      var h := ReadKind(b);
      if h.Err? {
        return Err(h.error);
      }
      b := b[h.value.tag + h.value.size..];
      i := i + 1;
    }
    return Ok(i);
  }

  /** Counting a concatenation of encodings gives their number. */
  lemma {:induction false} CountEncodings(xs: seq<Item>)
    requires |EncodeAll(xs)| < U64
    ensures Count(EncodeAll(xs)) == Ok(|xs|)
  {
    if xs != [] {
      var buf := EncodeAll(xs);
      HeadDetermines(xs[0], buf);
      assert buf[|Encode(xs[0])|..] == EncodeAll(xs[1..]);
      HeadSpan(xs[0], buf);
      CountEncodings(xs[1..]);
    }
  }

  lemma HeadSpan(v: Item, buf: seq<byte>)
    requires Encode(v) <= buf && |buf| < U64
    ensures ReadKind(buf).Ok?
    ensures ReadKind(buf).value.tag + ReadKind(buf).value.size == |Encode(v)|
  {
    HeadDetermines(v, buf);
    var ValueHead(_, ts, cs) := ReadKind(buf).value;
    assert |buf[ts + cs..]| == |buf[|Encode(v)|..]|;
  }
}
