/** The streaming decoder of rlp/decode.go over a byte slice, whose length is its input limit.
    The two parsers are compared header by header; decoding into an interface value is proved
    to accept exactly the encodings. */
module RlpStream {
  import opened Basics
  import opened RlpSpec
  import opened RlpRaw
  import opened RlpEncode

  /** Position in an open list, and the size of its content. */
  datatype ListPos = ListPos(pos: nat, size: nat)

  // ---------- what a stream reads from the bytes it may use ----------

  /** Error for reading past the enclosing list, or past the input. */
  function TooBig(inList: bool): (e: Error)
  {
    if inList then ElemTooLarge else ValueTooLarge
  }

  /** `readUint` on a size field of n bytes, with the check of its callers. */
  function SizeField(w: seq<byte>, n: nat, inList: bool): (r: Result<nat>)
    requires 1 <= n
    ensures r.Ok? ==> n <= |w|
  {
    if n > |w| then Err(TooBig(inList))
    else if n > 1 && w[0] == 0 then Err(CanonSize)
    else if FromBigEndian(w[..n]) < 56 then Err(CanonSize)
    else Ok(FromBigEndian(w[..n]))
  }

  /** `Stream.readKind` on the bytes `w` up to the end of the list or input. In a stream a
      single byte counts as a header without content. */
  function TagAt(w: seq<byte>, inList: bool): (r: Result<ValueHead>)
    ensures r.Ok? ==> 1 <= r.value.tag <= |w|
    ensures r.Ok? && r.value.kind == Byte ==> r.value == ValueHead(Byte, 1, 0)
    ensures w == [] ==> r == Err(if inList then EOL else EOF)
    ensures w != [] ==> r != Err(EOL)
  {
    if |w| == 0 then Err(if inList then EOL else EOF)
    else
      var b := w[0];
      if b < 0x80 then Ok(ValueHead(Byte, 1, 0))
      else if b < 0xB8 then Ok(ValueHead(String, 1, b - 0x80))
      else if b < 0xC0 then
        var s := SizeField(w[1..], b - 0xB7, inList);
        if s.Err? then Err(s.error) else Ok(ValueHead(String, b - 0xB7 + 1, s.value))
      else if b < 0xF8 then Ok(ValueHead(List, 1, b - 0xC0))
      else
        var s := SizeField(w[1..], b - 0xF7, inList);
        if s.Err? then Err(s.error) else Ok(ValueHead(List, b - 0xF7 + 1, s.value))
  }

  /** `Stream.Kind`: the header, provided the content fits as well. */
  function StreamHead(w: seq<byte>, inList: bool): (r: Result<ValueHead>)
    ensures r.Ok? ==> 1 <= r.value.tag && r.value.tag + r.value.size <= |w|
    ensures r == Err(EOL) <==> w == [] && inList
  {
    var h := TagAt(w, inList);
    if h.Ok? && h.value.size > |w| - h.value.tag then Err(TooBig(inList)) else h
  }

  /** The string behind a header. */
  function ContentAt(w: seq<byte>, h: ValueHead): (r: Result<seq<byte>>)
    requires 1 <= h.tag && h.tag + h.size <= |w|
    ensures r != Err(EOL)
  {
    if h.kind == Byte then Ok([w[0]])
    else if h.kind == List then Err(ExpectedString)
    else
      var c := w[h.tag..h.tag + h.size];
      if h.size == 1 && c[0] < 128 then Err(CanonSize) else Ok(c)
  }

  /** `Stream.Bytes` on the bytes `w`. */
  function StringAt(w: seq<byte>, inList: bool): (r: Result<seq<byte>>)
    ensures r == Err(EOL) <==> w == [] && inList
  {
    var h := StreamHead(w, inList);
    if h.Err? then Err(h.error) else ContentAt(w, h.value)
  }

  /** The integer behind a header. */
  function NumberAt(w: seq<byte>, h: ValueHead, n: nat): (r: Result<nat>)
    requires 1 <= h.tag && h.tag + h.size <= |w|
  {
    if h.kind == Byte then
      if w[0] == 0 then Err(CanonInt) else Ok(w[0])
    else if h.kind == List then Err(ExpectedString)
    else if h.size > n then Err(UintOverflow)
    else
      var c := w[h.tag..h.tag + h.size];
      if h.size > 1 && c[0] == 0 then Err(CanonInt)
      else if h.size > 0 && FromBigEndian(c) < 128 then Err(CanonSize)
      else Ok(FromBigEndian(c))
  }

  /** `Stream.uint` on the bytes `w`. */
  function UintAt(w: seq<byte>, inList: bool, n: nat): (r: Result<nat>)
  {
    var h := StreamHead(w, inList);
    if h.Err? then Err(h.error) else NumberAt(w, h.value, n)
  }

  /** The two header readers differ in nothing but the place where a single byte with a
      needless header is refused. */
  lemma SizeFieldsAgree(w: seq<byte>, n: nat, inList: bool)
    requires 1 <= n
    ensures SizeField(w, n, inList).Ok? <==> ReadSize(w, n).Ok?
    ensures SizeField(w, n, inList).Ok? ==> SizeField(w, n, inList) == ReadSize(w, n)
  {
    if n <= |w| && n == 1 {
      assert w[..1] == [w[0]];
      assert FromBigEndian([w[0]]) == w[0] by { assert [w[0]][..0] == []; }
    }
  }

  lemma HeadsAgree(w: seq<byte>, inList: bool)
    ensures var s, r := StreamHead(w, inList), ReadKind(w);
            && (r.Ok? ==> s.Ok?)
            && (s.Ok? ==> r.Ok? || (s.value == ValueHead(String, 1, 1) && w[1] < 128))
            && (s.Ok? && r.Ok? ==>
                  if r.value.kind == Byte then s.value == ValueHead(Byte, 1, 0) && r.value == ValueHead(Byte, 0, 1)
                                   else s.value == r.value)
  {
    if |w| > 0 && 0xB8 <= w[0] < 0xC0 {
      SizeFieldsAgree(w[1..], w[0] - 0xB7, inList);
    } else if |w| > 0 && w[0] >= 0xF8 {
      SizeFieldsAgree(w[1..], w[0] - 0xF7, inList);
    }
  }

  /** Both parsers cut the same strings off the same bytes. */
  lemma StringsAgree(w: seq<byte>, inList: bool)
    ensures StringAt(w, inList).Ok? <==> SplitString(w).Ok?
    ensures SplitString(w).Ok? ==> SplitString(w) == Ok((StringAt(w, inList).value, w[SpanOf(w, inList)..]))
  {
    HeadsAgree(w, inList);
    var s := StreamHead(w, inList);
    if s.Ok? && s.value == ValueHead(String, 1, 1) {
      assert w[1..2] == [w[1]];
    }
    if ReadKind(w).Ok? && ReadKind(w).value.kind == Byte {
      assert w[0..1] == [w[0]];
    }
  }

  lemma ListsAgree(w: seq<byte>, inList: bool)
    ensures (StreamHead(w, inList).Ok? && StreamHead(w, inList).value.kind == List) <==> SplitList(w).Ok?
    ensures SplitList(w).Ok? ==>
              var ValueHead(_, tag, size) := StreamHead(w, inList).value;
              SplitList(w) == Ok((w[tag..tag + size], w[tag + size..]))
  {
    HeadsAgree(w, inList);
  }

  // ---------- the stream ----------

  /** The open lists after n more bytes of the innermost one. */
  function Bumped(stack: seq<ListPos>, n: nat): (r: seq<ListPos>)
    ensures |r| == |stack|
  {
    if stack == [] then []
    else
      var top := stack[|stack| - 1];
      stack[..|stack| - 1] + [ListPos(top.pos + n, top.size)]
  }

  class Stream {
    const input: seq<byte>
    var pos: nat               // place of the reader
    var remaining: nat
    var kind: Option<Kind>     // None: the next header has not been read
    var size: nat
    var byteval: byte
    var stack: seq<ListPos>
    ghost var start: nat       // where the header that was read last began

    constructor (b: seq<byte>)
      requires |b| < U64
      ensures input == b && Valid() && pos == 0 && stack == [] && kind == None
    {
      input, pos, remaining := b, 0, |b|;
      kind, size, byteval, stack, start := None, 0, 0, [], 0;
    }

    /** The innermost list never asks for more than the input has. */
    ghost predicate Sound()
      reads this
    {
      && pos + remaining == |input| < U64
      && (stack != [] ==>
            var top := stack[|stack| - 1];
            top.pos <= top.size && top.size - top.pos <= remaining)
    }

    /** Number of bytes up to the end of the innermost list, or of the input. */
    ghost function Limit(): (n: nat)
      requires Sound()
      reads this
      ensures n <= remaining
    {
      if stack == [] then remaining else stack[|stack| - 1].size - stack[|stack| - 1].pos
    }

    /** Where the next value begins. */
    ghost function Begin(): (n: nat)
      reads this
    {
      if kind == None then pos else start
    }

    /** A header that was read ahead is the one at `start`. */
    ghost predicate Valid()
      reads this
    {
      && Sound()
      && (kind.Some? ==>
            && start < pos
            && StreamHead(input[start..pos + Limit()], stack != []) == Ok(ValueHead(kind.value, pos - start, size))
            && (kind.value == Byte ==> byteval == input[start]))
    }

    /** The bytes the next value may use, from its header on. */
    ghost function Window(): (w: seq<byte>)
      requires Valid()
      reads this
    {
      input[Begin()..pos + Limit()]
    }

    method WillRead(n: nat) returns (err: Option<Error>)
      requires Sound()
      modifies this`kind, this`remaining, this`stack
      ensures kind == None && |stack| == |old(stack)|
      ensures err == if n <= old(Limit()) then None else Some(TooBig(old(stack) != []))
      ensures err == None ==> remaining == old(remaining) - n && stack == Bumped(old(stack), n)
    {
      kind := None;
      if |stack| > 0 {
        var tos := stack[|stack| - 1];
        if n > tos.size - tos.pos {
          return Some(ElemTooLarge);
        }
        stack := stack[|stack| - 1 := ListPos(tos.pos + n, tos.size)];
      }
      if n > remaining {
        return Some(ValueTooLarge);
      }
      remaining := remaining - n;
      err := None;
    }

    /** Reads n bytes, or fails when the list or the input has fewer. */
    method ReadFull(n: nat) returns (r: Result<seq<byte>>)
      requires Sound()
      modifies this`kind, this`remaining, this`stack, this`pos
      ensures kind == None
      ensures r.Err? ==> n > old(Limit()) && r.error == TooBig(old(stack) != [])
      ensures r.Ok? ==> n <= old(Limit()) && Sound() && pos == old(pos) + n && Limit() == old(Limit()) - n
      ensures r.Ok? ==> r.value == input[old(pos)..pos] && stack == Bumped(old(stack), n)
    {
      var err := WillRead(n);
      if err.Some? {
        return Err(err.value);
      }
      r := Ok(input[pos..pos + n]);
      pos := pos + n;
    }

    method ReadByte() returns (r: Result<byte>)
      requires Sound()
      modifies this`kind, this`remaining, this`stack, this`pos
      ensures kind == None && |stack| == |old(stack)|
      ensures r.Err? ==> 1 > old(Limit()) && r.error == TooBig(old(stack) != [])
      ensures r.Ok? ==> 1 <= old(Limit()) && Sound() && pos == old(pos) + 1 && Limit() == old(Limit()) - 1
      ensures r.Ok? ==> r.value == input[old(pos)] && stack == Bumped(old(stack), 1)
    {
      var err := WillRead(1);
      if err.Some? {
        return Err(err.value);
      }
      r := Ok(input[pos]);
      pos := pos + 1;
    }

    /** Big-endian number of n bytes without leading zero; one byte is taken as it is. */
    method ReadUint(n: nat) returns (r: Result<nat>)
      requires Sound() && n <= 8
      modifies this`kind, this`remaining, this`stack, this`pos
      ensures kind == None
      ensures r.Err? ==> if n > old(Limit()) then r.error == TooBig(old(stack) != [])
                         else n > 1 && input[old(pos)] == 0 && r.error == CanonSize
      ensures r.Ok? ==> n <= old(Limit()) && Sound() && pos == old(pos) + n && Limit() == old(Limit()) - n
      ensures r.Ok? ==> r.value == FromBigEndian(input[old(pos)..pos]) && stack == Bumped(old(stack), n)
      ensures r.Ok? && n > 1 ==> input[old(pos)] != 0
    {
      if n == 0 {
        kind := None;
        return Ok(0);
      }
      if n == 1 {
        var b := ReadByte();
        if b.Err? {
          return Err(b.error);
        }
        assert input[old(pos)..pos] == [b.value];
        assert FromBigEndian([b.value]) == b.value by { assert [b.value][..0] == []; }
        return Ok(b.value);
      }
      var d := ReadFull(n);
      if d.Err? {
        return Err(d.error);
      }
      if d.value[0] == 0 {
        return Err(CanonSize);
      }
      r := Ok(FromBigEndian(d.value));
    }

    /** A size field with its check for needless length. */
    method ReadSizeField(n: nat) returns (r: Result<nat>)
      requires Sound() && 1 <= n <= 8
      modifies this`kind, this`remaining, this`stack, this`pos
      ensures r == SizeField(input[old(pos)..old(pos + Limit())], n, old(stack) != [])
      ensures r.Ok? ==> Sound() && pos == old(pos) + n && Limit() == old(Limit()) - n
      ensures r.Ok? ==> stack == Bumped(old(stack), n)
    {
      ghost var w := input[pos..pos + Limit()];
      r := ReadUint(n);
      if r.Ok? {
        assert w[..n] == input[old(pos)..pos];
        if r.value < 56 {
          r := Err(CanonSize);
        }
      }
    }

    /** n bytes further on in the same list, and nothing read ahead. */
    ghost predicate Moved(pos0: nat, end: nat, stack0: seq<ListPos>, n: nat)
      reads this
    {
      && Sound() && pos == pos0 + n && pos + Limit() == end
      && stack == Bumped(stack0, n)
    }

    method ReadKind() returns (r: Result<(Kind, nat)>)
      requires Sound()
      modifies this`kind, this`remaining, this`stack, this`pos, this`byteval
      ensures var t := TagAt(input[old(pos)..old(pos + Limit())], old(stack) != []);
              && (r.Err? ==> if old(Limit()) == 0 then r.error == (if old(stack) == [] then EOF else ElemTooLarge)
                             else t == Err(r.error))
              && (r.Ok? ==> t.Ok? && t.value == ValueHead(r.value.0, t.value.tag, r.value.1))
              && (r.Ok? ==> Moved(old(pos), old(pos + Limit()), old(stack), t.value.tag))
      ensures r.Ok? && r.value.0 == Byte ==> byteval == input[old(pos)]
    {
      ghost var w := input[pos..pos + Limit()];
      var t := ReadByte();
      if t.Err? {
        return Err(if |stack| == 0 && t.error == ValueTooLarge then EOF else t.error);
      }
      assert w[1..] == input[pos..pos + Limit()];
      r := KindOfTag(t.value, w, old(stack));
    }

    /** The five cases of the tag byte; it has been read, the size field has not. */
    method KindOfTag(b: byte, ghost w: seq<byte>, ghost stack0: seq<ListPos>) returns (r: Result<(Kind, nat)>)
      requires Sound() && w != [] && w[0] == b && w[1..] == input[pos..pos + Limit()]
      requires stack == Bumped(stack0, 1) && pos >= 1
      modifies this`kind, this`remaining, this`stack, this`pos, this`byteval
      ensures var t := TagAt(w, stack0 != []);
              && (r.Err? ==> t == Err(r.error))
              && (r.Ok? ==> t.Ok? && t.value == ValueHead(r.value.0, t.value.tag, r.value.1))
              && (r.Ok? ==> Moved(old(pos) - 1, old(pos + Limit()), stack0, t.value.tag))
      ensures r.Ok? && r.value.0 == Byte ==> byteval == b
    {
      hide SizeField, Bumped;
      byteval := 0;
      if b < 0x80 {
        byteval := b;
        return Ok((Byte, 0));
      } else if b < 0xB8 {
        return Ok((String, b - 0x80));
      } else if b < 0xC0 {
        var s := ReadSizeField(b - 0xB7);
        BumpedSum(stack0, 1, b - 0xB7);
        return if s.Err? then Err(s.error) else Ok((String, s.value));
      } else if b < 0xF8 {
        return Ok((List, b - 0xC0));
      } else {
        var s := ReadSizeField(b - 0xF7);
        BumpedSum(stack0, 1, b - 0xF7);
        return if s.Err? then Err(s.error) else Ok((List, s.value));
      }
    }

    /** Kind and size of the next value; reads its header unless that was done before. */
    method Kind() returns (r: Result<(Kind, nat)>)
      requires Valid()
      modifies this
      ensures r.Err? ==> StreamHead(old(Window()), old(stack) != []) == Err(r.error)
      ensures r == Err(EOL) ==> Valid() && pos == old(pos) && stack == old(stack) && kind == None
      ensures r.Ok? ==> Ahead(old(Begin()), old(pos + Limit()), old(pos), old(stack), r.value.0, r.value.1)
    {
      hide TagAt;
      if kind == None {
        if |stack| > 0 && stack[|stack| - 1].pos == stack[|stack| - 1].size {
          return Err(EOL);
        }
        start := pos;
        var k := ReadKind();
        if k.Err? {
          return Err(k.error);
        }
        kind, size := Some(k.value.0), k.value.1;
        if |stack| == 0 {
          if size > remaining {
            return Err(ValueTooLarge);
          }
        } else if size > stack[|stack| - 1].size - stack[|stack| - 1].pos {
          return Err(ElemTooLarge);
        }
      } else {
        BumpedZero(stack);
      }
      r := Ok((kind.value, size));
    }

    /** The header at `from` has been read, the content has not. */
    ghost predicate Ahead(from: nat, end: nat, pos0: nat, stack0: seq<ListPos>, k: Kind, n: nat)
      reads this
    {
      && Valid() && kind == Some(k) && size == n
      && start == from && pos + Limit() == end
      && pos >= pos0 && stack == Bumped(stack0, pos - pos0)
    }

    /** The n bytes from `from` on have been read and nothing is read ahead. */
    ghost predicate Behind(from: nat, end: nat, pos0: nat, stack0: seq<ListPos>, n: nat)
      reads this
    {
      && Valid() && kind == None
      && pos == from + n && pos + Limit() == end
      && pos >= pos0 && stack == Bumped(stack0, pos - pos0)
    }

    /** Reads the content announced by the header that was read last. */
    method ReadContent() returns (b: seq<byte>)
      requires Valid() && kind.Some?
      modifies this
      ensures b == old(Window())[old(pos - start)..old(pos - start + size)]
      ensures Behind(old(start), old(pos + Limit()), old(pos), old(stack), old(pos - start + size))
    {
      ghost var end := pos + Limit();
      var c := ReadFull(size);
      b := c.value;
      SliceSlice(input, start, end, old(pos) - start, pos - start);
    }

    /** Reads a string. On success the stream stands behind it, in the same list. */
    method Bytes() returns (r: Result<seq<byte>>)
      requires Valid()
      modifies this
      ensures r == StringAt(old(Window()), old(stack) != [])
      ensures r == Err(EOL) ==> Valid() && pos == old(pos) && stack == old(stack) && kind == None
      ensures r.Ok? ==>
                Behind(old(Begin()), old(pos + Limit()), old(pos), old(stack), SpanOf(old(Window()), old(stack) != []))
    {
      hide TagAt, ContentAt, Bumped;
      var k := Kind();
      if k.Err? {
        return Err(k.error);
      }
      BumpedSum(old(stack), pos - old(pos), size);
      r := TakeString();
    }

    /** The part of `Bytes` behind the header. */
    method TakeString() returns (r: Result<seq<byte>>)
      requires Valid() && kind.Some? && (kind.value == Byte ==> pos == start + 1 && size == 0)
      modifies this
      ensures r == ContentAt(old(Window()), ValueHead(old(kind).value, old(pos - start), old(size)))
      ensures r.Ok? ==> Behind(old(start), old(pos + Limit()), old(pos), old(stack), old(pos - start + size))
    {
      hide TagAt, StreamHead;
      match kind.value
      case Byte =>
        BumpedZero(stack);
        kind := None;
        r := Ok([byteval]);
      case String =>
        var b := ReadContent();
        if |b| == 1 && b[0] < 128 {
          return Err(CanonSize);
        }
        r := Ok(b);
      case List =>
        r := Err(ExpectedString);
    }

    /** Enters a list. Everything in it comes before the end of the enclosing one. */
    method ListBegin() returns (r: Result<nat>)
      requires Valid()
      modifies this
      ensures var h := StreamHead(old(Window()), old(stack) != []);
              && (r.Err? ==> h == Err(r.error) || (h.Ok? && h.value.kind != List && r.error == ExpectedList))
              && (r.Ok? ==> h.Ok? && h.value == ValueHead(List, h.value.tag, r.value))
              && (r.Ok? ==> pos == old(Begin()) + h.value.tag)
      ensures r.Ok? ==> Valid() && kind == None && pos >= old(pos) && pos + r.value <= old(pos + Limit())
      ensures r.Ok? ==> stack == Bumped(old(stack), pos - old(pos)) + [ListPos(0, r.value)]
    {
      hide TagAt;
      var k := Kind();
      if k.Err? {
        return Err(k.error);
      }
      if k.value.0 != List {
        return Err(ExpectedList);
      }
      r := Ok(size);
      stack := stack + [ListPos(0, size)];
      kind, size := None, 0;
    }

    /** Leaves the innermost list, whose content must have been read. */
    method ListEnd() returns (err: Option<Error>)
      modifies this
      ensures old(stack) == [] ==> err == Some(NotInList)
      ensures old(stack) != [] ==>
                var top := old(stack)[|old(stack)| - 1];
                err == if top.pos != top.size then Some(NotAtEOL) else None
      ensures err == None ==> stack == Bumped(old(stack)[..|old(stack)| - 1], old(stack)[|old(stack)| - 1].size)
      ensures err == None ==> kind == None && pos == old(pos) && remaining == old(remaining)
    {
      if |stack| == 0 {
        return Some(NotInList);
      }
      var tos := stack[|stack| - 1];
      if tos.pos != tos.size {
        return Some(NotAtEOL);
      }
      stack := stack[..|stack| - 1];
      if |stack| > 0 {
        var top := stack[|stack| - 1];
        stack := stack[|stack| - 1 := ListPos(top.pos + tos.size, top.size)];
      }
      kind, size := None, 0;
      err := None;
    }

    /** Reads a whole value, header included: exactly the bytes it takes up. */
    method Raw() returns (r: Result<seq<byte>>)
      requires Valid()
      modifies this
      ensures r.Err? ==> StreamHead(old(Window()), old(stack) != []) == Err(r.error)
      ensures r.Ok? ==> r.value == old(Window())[..SpanOf(old(Window()), old(stack) != [])]
      ensures r.Ok? ==> Behind(old(Begin()), old(pos + Limit()), old(pos), old(stack), |r.value|)
    {
      hide TagAt;
      var k := Kind();
      if k.Err? {
        return Err(k.error);
      }
      BumpedSum(old(stack), pos - old(pos), size);
      var b := TakeRaw();
      r := Ok(b);
    }

    /** The part of `Raw` behind the header: content with a new header in front, since the old
        one is gone. */
    method TakeRaw() returns (b: seq<byte>)
      requires Valid() && kind.Some? && (kind.value == Byte ==> pos == start + 1 && size == 0)
      modifies this
      ensures b == old(Window())[..old(pos - start + size)]
      ensures Behind(old(start), old(pos + Limit()), old(pos), old(stack), |b|)
    {
      hide TagAt, StreamHead, ListHead, StrHead;
      if kind.value == Byte {
        BumpedZero(stack);
        kind := None;
        b := [byteval];
      } else {
        HeaderRebuilt(Window(), stack != []);
        Prefixes(Window(), pos - start, pos - start + size);
        var h := HeaderFor(kind.value, size);
        var c := ReadContent();
        b := h + c;
      }
    }

    /** `puthead` into a fresh buffer. */
    method HeaderFor(k: RlpRaw.Kind, n: nat) returns (h: seq<byte>)
      requires n < U64
      ensures h == if k == List then ListHead(n) else StrHead(n)
    {
      HeadLength(0x80, 0xB7, n);
      HeadLength(0xC0, 0xF7, n);
      var buf := new byte[9](_ => 0);
      var len;
      if k == List {
        len := PutHead(buf, 0, 0xC0, 0xF7, n);
      } else {
        len := PutHead(buf, 0, 0x80, 0xB7, n);
      }
      h := buf[0..len];
    }

    /** `Stream.uint` for integers of up to n bytes. */
    method Uint(n: nat) returns (r: Result<nat>)
      requires Valid() && 1 <= n <= 8
      modifies this
      ensures r == UintAt(old(Window()), old(stack) != [], n)
      ensures r.Ok? ==>
                Behind(old(Begin()), old(pos + Limit()), old(pos), old(stack), SpanOf(old(Window()), old(stack) != []))
    {
      hide TagAt, NumberAt, Bumped;
      var k := Kind();
      if k.Err? {
        return Err(k.error);
      }
      BumpedSum(old(stack), pos - old(pos), size);
      r := TakeUint(n);
    }

    method TakeUint(n: nat) returns (r: Result<nat>)
      requires Valid() && kind.Some? && (kind.value == Byte ==> pos == start + 1 && size == 0) && n <= 8
      modifies this
      ensures r == NumberAt(old(Window()), ValueHead(old(kind).value, old(pos - start), old(size)), n)
      ensures r.Ok? ==> Behind(old(start), old(pos + Limit()), old(pos), old(stack), old(pos - start + size))
    {
      hide TagAt, StreamHead, FromBigEndian;
      match kind.value
      case Byte =>
        if byteval == 0 {
          return Err(CanonInt);
        }
        BumpedZero(stack);
        kind := None;
        r := Ok(byteval);
      case String =>
        if size > n {
          return Err(UintOverflow);
        }
        ghost var from, end, tag := start, pos + Limit(), pos - start;
        SliceSlice(input, from, end, tag, tag + size);
        var v := ReadUint(size);
        if v.Err? {
          r := Err(CanonInt);
        } else if size > 0 && v.value < 128 {
          r := Err(CanonSize);
        } else {
          r := v;
        }
      case List =>
        r := Err(ExpectedString);
    }

    /** `decodeInterface`: reads one value of any shape. It fails only where no encoding
        starts, and reports the end of the list only there. */
    method DecodeInterface() returns (r: Result<Item>)
      requires Valid() && kind == None
      modifies this
      ensures r == Err(EOL) <==> old(stack) != [] && old(Limit()) == 0
      ensures r == Err(EOL) ==> Valid() && pos == old(pos) && stack == old(stack) && kind == None
      ensures r.Ok? ==> Encode(r.value) <= old(Window())
      ensures r.Ok? ==> Behind(old(pos), old(pos + Limit()), old(pos), old(stack), |Encode(r.value)|)
      ensures r.Err? ==> NoValue(old(Window()))
      decreases |input| - pos, 2
    {
      hide TagAt, Encode, StreamHead, NoValue, Bumped;
      ghost var w, inList := Window(), stack != [];
      var k := Kind();
      if k.Err? {
        BadHeader(w, inList);
        return Err(k.error);
      }
      ghost var pos1 := pos;
      if k.value.0 == List {
        var xs := DecodeListSlice();
        r := if xs.Err? then Err(xs.error) else Ok(Lst(xs.value));
      } else {
        r := DecodeString();
      }
      if r.Ok? {
        BumpedSum(old(stack), pos1 - old(pos), pos - pos1);
      }
    }

    /** A string as an interface value, with its header already read. */
    method DecodeString() returns (r: Result<Item>)
      requires Valid() && kind.Some? && kind != Some(List)
      modifies this
      ensures r.Ok? ==> Encode(r.value) <= old(Window())
      ensures r.Ok? ==> Behind(old(start), old(pos + Limit()), old(pos), old(stack), |Encode(r.value)|)
      ensures r.Err? ==> NoValue(old(Window())) && r.error != EOL
    {
      hide TagAt, Encode, EncodeStr, StreamHead, NoValue, ContentAt;
      StringValue(Window(), stack != []);
      var b := Bytes();
      r := if b.Err? then Err(b.error) else Ok(Str(b.value));
    }

    /** `decodeListSlice`, with the header of the list already read. */
    method DecodeListSlice() returns (r: Result<seq<Item>>)
      requires Valid() && kind == Some(List)
      modifies this
      ensures r.Ok? ==> Encode(Lst(r.value)) <= old(Window())
      ensures r.Ok? ==> Behind(old(start), old(pos + Limit()), old(pos), old(stack), |Encode(Lst(r.value))|)
      ensures r.Err? ==> NoValue(old(Window())) && r.error != EOL
      decreases |input| - start, 1
    {
      hide TagAt, Encode, EncodeAll, NoValue, StreamHead;
      ghost var w, inList := Window(), stack != [];
      var xs := ListContent();
      ListValue(w, inList, xs);
      if xs.Err? {
        return Err(xs.error);
      }
      assert stack[..|stack| - 1] == old(stack);
      var e := ListEnd();
      r := xs;
    }

    /** Opens the list whose header has been read and reads what is in it. */
    method ListContent() returns (r: Result<seq<Item>>)
      requires Valid() && kind == Some(List)
      modifies this
      ensures var tag, size := old(pos - start), old(size);
              var p := old(Window())[tag..tag + size];
              if r.Ok? then EncodeAll(r.value) == p else r.error != EOL && forall ys :: EncodeAll(ys) != p
      ensures r.Ok? ==>
                pos == old(pos + size) && remaining == old(remaining - size)
                && stack == old(stack) + [ListPos(old(size), old(size))]
      decreases |input| - start, 0
    {
      hide TagAt, Encode, EncodeAll, StreamHead, Bumped;
      ghost var w, from, end := Window(), start, pos + Limit();
      var n := ListBegin();
      ghost var tag := pos - from;
      SliceSlice(input, from, end, tag, tag + n.value);
      assert Window() == w[tag..tag + n.value];
      BumpedZero(old(stack));
      ListDone(old(stack), n.value);
      NoItems();
      r := Ok([]);
      if n.value != 0 {
        r := DecodeSliceElems();
      }
    }

    /** `decodeSliceElems`: values up to the end of the innermost list. */
    method DecodeSliceElems() returns (r: Result<seq<Item>>)
      requires Valid() && kind == None && stack != []
      modifies this
      ensures r.Ok? ==> EncodeAll(r.value) == old(Window())
      ensures r.Ok? ==> Behind(old(pos), old(pos + Limit()), old(pos), old(stack), old(Limit()))
      ensures r.Err? ==> r.error != EOL && forall ys :: EncodeAll(ys) != old(Window())
      decreases |input| - pos, 4
    {
      hide TagAt, StreamHead, Encode, EncodeAll;
      ghost var pos0, end, stack0, w := pos, pos + Limit(), stack, Window();
      BumpedZero(stack);
      NoItems();
      var xs: seq<Item> := [];
      while true
        invariant AmongElems(pos0, end, stack0, w, xs)
        decreases |input| - pos
      {
        var x := NextElem(pos0, end, stack0, w, xs);
        if x == Err(EOL) {
          break;
        } else if x.Err? {
          return Err(x.error);
        }
        xs := xs + [x.value];
      }
      return Ok(xs);
    }

    /** The elements `xs` of the innermost list with content `w` have been read. */
    ghost predicate AmongElems(pos0: nat, end: nat, stack0: seq<ListPos>, w: seq<byte>, xs: seq<Item>)
      reads this
    {
      && stack0 != [] && Behind(pos0, end, pos0, stack0, |EncodeAll(xs)|)
      && EncodeAll(xs) + Window() == w
    }

    /** One round of the element loop. */
    method NextElem(ghost pos0: nat, ghost end: nat, ghost stack0: seq<ListPos>, ghost w: seq<byte>,
                    ghost xs: seq<Item>)
      returns (x: Result<Item>)
      requires AmongElems(pos0, end, stack0, w, xs)
      modifies this
      ensures x == Err(EOL) ==> AmongElems(pos0, end, stack0, w, xs) && Limit() == 0
      ensures x.Err? && x != Err(EOL) ==> forall ys :: EncodeAll(ys) != w
      ensures x.Ok? ==> AmongElems(pos0, end, stack0, w, xs + [x.value]) && pos > old(pos)
      decreases |input| - pos, 3
    {
      hide TagAt, StreamHead, Encode, EncodeAll, Bumped, NoValue;
      ghost var pos1, rest := pos, Window();
      x := DecodeInterface();
      if x.Ok? {
        BumpedSum(stack0, pos1 - pos0, pos - pos1);
        EncodeAllSnoc(xs, x.value);
        SliceSlice(input, pos1, end, pos - pos1, end - pos1);
        Regroup(EncodeAll(xs), Encode(x.value), rest);
      } else if x.error != EOL {
        StuckList(xs, rest, w);
      }
    }
  }

  lemma ListDone(outer: seq<ListPos>, n: nat)
    ensures Bumped(outer + [ListPos(0, n)], n) == outer + [ListPos(n, n)]
  {}

  lemma NoItems()
    ensures EncodeAll([]) == []
  {}

  lemma Regroup<T>(a: seq<T>, b: seq<T>, rest: seq<T>)
    requires b <= rest
    ensures (a + b) + rest[|b|..] == a + rest
  {
    assert rest == b + rest[|b|..];
  }

  /** Where some values have been read and none follows, the rest is no list content. */
  lemma StuckList(xs: seq<Item>, rest: seq<byte>, w: seq<byte>)
    requires w == EncodeAll(xs) + rest && rest != [] && NoValue(rest) && |w| < U64
    ensures forall ys :: EncodeAll(ys) != w
  {
    forall ys ensures EncodeAll(ys) != w {
      if EncodeAll(ys) == w {
        StuckAt(xs, ys, rest);
      }
    }
  }

  lemma {:induction false} StuckAt(xs: seq<Item>, ys: seq<Item>, rest: seq<byte>)
    requires rest != [] && NoValue(rest) && |EncodeAll(xs) + rest| < U64
    ensures EncodeAll(ys) != EncodeAll(xs) + rest
    decreases |xs|
  {
    var w := EncodeAll(xs) + rest;
    if xs == [] {
      assert w == rest;
      if ys != [] {
        assert Encode(ys[0]) <= EncodeAll(ys);
      }
    } else if ys != [] && EncodeAll(ys) == w {
      Assoc(Encode(xs[0]), EncodeAll(xs[1..]), rest);
      PrefixFree(xs[0], ys[0], w);
      assert w[|Encode(xs[0])|..] == EncodeAll(xs[1..]) + rest;
      assert w[|Encode(ys[0])|..] == EncodeAll(ys[1..]);
      StuckAt(xs[1..], ys[1..], rest);
    }
  }

  /** `DecodeBytes` into an interface value: the input must be one value and nothing else. It
      accepts exactly the encodings, and gives back the value that was encoded. */
  method DecodeBytes(b: seq<byte>) returns (r: Result<Item>)
    requires |b| < U64
    ensures r.Ok? ==> Encode(r.value) == b
    ensures forall v: Item :: Encode(v) == b ==> r == Ok(v)
  {
    var s := new Stream(b);
    assert s.Window() == b;
    r := s.DecodeInterface();
    if r.Ok? {
      forall v: Item | Encode(v) == b ensures v == r.value {
        PrefixFree(v, r.value, b);
      }
      if s.pos < |b| {
        r := Err(MoreThanOneValue);
      }
    }
  }

  /** No encoding starts here. */
  ghost predicate NoValue(w: seq<byte>)
  {
    forall v: Item :: !(Encode(v) <= w)
  }

  lemma NotAValue(w: seq<byte>)
    requires |w| < U64 && SplitString(w).Err? && SplitList(w).Err?
    ensures NoValue(w)
  {
    forall v: Item ensures !(Encode(v) <= w) {
      if Encode(v) <= w {
        HeadDetermines(v, w);
      }
    }
  }

  lemma BadHeader(w: seq<byte>, inList: bool)
    requires |w| < U64 && StreamHead(w, inList).Err?
    ensures NoValue(w)
  {
    HeadsAgree(w, inList);
    NotAValue(w);
  }

  lemma StringValue(w: seq<byte>, inList: bool)
    requires |w| < U64 && StreamHead(w, inList).Ok? && StreamHead(w, inList).value.kind != List
    ensures var s := StringAt(w, inList);
            && (s.Err? ==> NoValue(w))
            && (s.Ok? ==> Encode(Str(s.value)) <= w && |Encode(Str(s.value))| == SpanOf(w, inList))
  {
    StringsAgree(w, inList);
    HeadsAgree(w, inList);
    var s := StringAt(w, inList);
    if s.Err? {
      ListsAgree(w, inList);
      NotAValue(w);
    } else {
      HeadSound(w);
      SplitStringExact(w, s.value, SplitString(w).value.1);
    }
  }

  /** Decoding the content of a list decides the list. */
  lemma ListValue(w: seq<byte>, inList: bool, xs: Result<seq<Item>>)
    requires |w| < U64 && StreamHead(w, inList).Ok? && StreamHead(w, inList).value.kind == List
    requires var ValueHead(_, tag, size) := StreamHead(w, inList).value;
             var p := w[tag..tag + size];
             if xs.Ok? then EncodeAll(xs.value) == p else forall ys :: EncodeAll(ys) != p
    ensures xs.Ok? ==> Encode(Lst(xs.value)) <= w && |Encode(Lst(xs.value))| == SpanOf(w, inList)
    ensures xs.Err? ==> NoValue(w)
  {
    hide StreamHead, SplitList, ListHead, EncodeStr, NoValue, EncodeAll;
    ListsAgree(w, inList);
    var ValueHead(_, tag, size) := StreamHead(w, inList).value;
    SplitListExact(w, w[tag..tag + size], w[tag + size..]);
    if xs.Err? {
      NoListValue(w, w[tag..tag + size], w[tag + size..]);
    }
  }

  lemma OneKind(w: seq<byte>)
    ensures SplitList(w).Ok? ==> SplitString(w).Err?
  {
    hide RlpRaw.ReadKind;
  }

  lemma NoListValue(w: seq<byte>, p: seq<byte>, rest: seq<byte>)
    requires |w| < U64 && SplitList(w) == Ok((p, rest)) && forall ys :: EncodeAll(ys) != p
    ensures NoValue(w)
  {
    hide SplitString, SplitList, EncodeAll, Encode;
    OneKind(w);
    forall v: Item ensures !(Encode(v) <= w) {
      if Encode(v) <= w {
        HeadDetermines(v, w);
      }
    }
  }

  /** A header the stream accepts is the one the code has for that size, so it can be put
      together again from kind and size. */
  lemma HeaderRebuilt(w: seq<byte>, inList: bool)
    requires StreamHead(w, inList).Ok? && StreamHead(w, inList).value.kind != Byte
    ensures var ValueHead(k, tag, size) := StreamHead(w, inList).value;
            w[..tag] == if k == List then ListHead(size) else StrHead(size)
  {
    HeadsAgree(w, inList);
    if ReadKind(w).Ok? {
      TagSound(w);
    } else {
      assert w[..1] == [w[0]];
    }
  }

  /** Length of the first value of `w`. */
  ghost function SpanOf(w: seq<byte>, inList: bool): (n: nat)
  {
    var h := StreamHead(w, inList);
    if h.Ok? then h.value.tag + h.value.size else 0
  }

  lemma SliceSlice<T>(s: seq<T>, a: nat, e: nat, i: nat, j: nat)
    requires i <= j <= e - a && e <= |s|
    ensures s[a..e][i..j] == s[a + i..a + j]
  {
    var l, r := s[a..e][i..j], s[a + i..a + j];
    assert forall k :: 0 <= k < |l| ==> l[k] == s[a..e][i + k] == r[k];
  }

  lemma Prefixes<T>(s: seq<T>, i: nat, j: nat)
    requires i <= j <= |s|
    ensures s[..j] == s[..i] + s[i..j]
  {}

  lemma BumpedSum(stack: seq<ListPos>, m: nat, n: nat)
    ensures Bumped(Bumped(stack, m), n) == Bumped(stack, m + n)
  {}

  lemma BumpedZero(stack: seq<ListPos>)
    ensures Bumped(stack, 0) == stack
  {}

  // ---------- integers ----------

  /** An integer is a string of at most n bytes without leading zero. */
  lemma UintIsString(w: seq<byte>, inList: bool, n: nat)
    requires n >= 1
    ensures var u, s := UintAt(w, inList, n), StringAt(w, inList);
            u.Ok? <==> s.Ok? && |s.value| <= n && (s.value == [] || s.value[0] != 0)
    ensures UintAt(w, inList, n).Ok? ==> UintAt(w, inList, n).value == FromBigEndian(StringAt(w, inList).value)
  {
    hide TagAt;
    var h := StreamHead(w, inList);
    if h.Ok? && h.value.kind == Byte {
      OneByte(w[0]);
    } else if h.Ok? && h.value.kind == String {
      var c := w[h.value.tag..h.value.tag + h.value.size];
      if |c| == 1 {
        assert c == [c[0]];
        OneByte(c[0]);
      } else if |c| > 1 && c[0] != 0 {
        AtLeastTwoBytes(c);
      }
    }
  }

  lemma OneByte(b: byte)
    ensures FromBigEndian([b]) == b
  {
    assert [b][..0] == [];
  }

  lemma {:induction false} AtLeastTwoBytes(c: seq<byte>)
    requires |c| > 1 && c[0] != 0
    ensures FromBigEndian(c) >= 256
  {
    FromBigEndianInverse(c[..|c| - 1]);
  }

  /** Reading an integer succeeds exactly on the code of an integer that fits, and gives it. */
  lemma UintExact(w: seq<byte>, inList: bool, n: nat, i: nat)
    requires 1 <= n && |w| < U64
    ensures UintAt(w, inList, n) == Ok(i) <==> i < Pow256(n) && EncodeStr(BigEndian(i)) <= w
  {
    UintIsString(w, inList, n);
    StringsAgree(w, inList);
    DigitCount(i, n);
    BigEndianInverse(i);
    if UintAt(w, inList, n) == Ok(i) {
      var c := StringAt(w, inList).value;
      FromBigEndianInverse(c);
      SplitStringExact(w, c, SplitString(w).value.1);
    }
    if i < Pow256(n) && EncodeStr(BigEndian(i)) <= w {
      StrHeadComplete(BigEndian(i), w);
    }
  }
}
