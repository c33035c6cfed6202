/** The reader form of the encoder (`encReader`), and the three ways to get an encoding out. */
module RlpOutput {
  import opened Basics
  import opened RlpSpec
  import opened RlpEncode

  // ---------- reading the encoding piecewise ----------

  /** The unread rest of a piece: a stretch of the string data, or of the header buffer that
      every header is written to in turn. */
  datatype Piece = NoPiece | OfStr(lo: nat, hi: nat) | OfHead(lo: nat, hi: nat)

  class EncReader {
    var buf: EncBuf?   // null after the end was reported
    var lhpos: nat
    var strpos: nat
    var piece: Piece

    constructor (eb: EncBuf)
      requires eb.Complete()
      ensures Valid() && buf == eb && Rest() == Splice(eb.str, eb.lheads, 0)
    {
      buf, lhpos, strpos, piece := eb, 0, 0, NoPiece;
      new;
      assert eb.lheads[0..] == eb.lheads;
    }

    ghost function Repr(): set<object>
      reads this
    {
      {this} + if buf == null then {} else {buf, buf.sizebuf}
    }

    ghost predicate Valid()
      reads this, Repr()
    {
      if buf == null then piece == NoPiece
      else
        && buf.sizebuf.Length == 9
        && Small(buf.lheads)
        && lhpos <= |buf.lheads| && Ordered(buf.lheads[lhpos..], strpos, |buf.str|)
        && (piece.OfStr? ==> piece.lo < piece.hi <= |buf.str|)
        && (piece.OfHead? ==> piece.lo < piece.hi <= 9)
    }

    function PieceBytes(): (p: seq<byte>)
      requires Valid()
      reads this, Repr()
      ensures p == [] <==> piece == NoPiece
    {
      match piece
      case NoPiece => []
      case OfStr(lo, hi) => buf.str[lo..hi]
      case OfHead(lo, hi) => buf.sizebuf[lo..hi]
    }

    /** The bytes that reads from now on will deliver. */
    ghost function Rest(): (rest: seq<byte>)
      requires Valid()
      reads this, Repr()
    {
      if buf == null then []
      else PieceBytes() + Splice(buf.str, buf.lheads[lhpos..], strpos)
    }

    /** `r.piece = r.next()` */
    method Next()
      requires Valid()
      modifies Repr() - {buf}
      ensures buf == old(buf) && Valid()
      ensures Rest() == old(Rest())
      ensures piece == NoPiece ==> Rest() == []
    {
      if buf == null || piece != NoPiece {
        return;
      }
      ghost var all := Rest();
      assert all[0..] == all;
      if lhpos < |buf.lheads| {
        var head := buf.lheads[lhpos];
        SpliceNext(all, 0, buf.str, buf.lheads, lhpos, strpos);
        if head.offset > strpos {
          NextData(head.offset);
        } else {
          NextHead(head.size);
        }
      } else if strpos < |buf.str| {
        SpliceEnd(all, 0, buf.str, buf.lheads, strpos);
        NextData(|buf.str|);
      } else {
        SpliceEnd(all, 0, buf.str, buf.lheads, strpos);
      }
    }

    method NextData(to: nat)
      requires Valid() && buf != null && piece == NoPiece
      requires strpos < to <= |buf.str| && Ordered(buf.lheads[lhpos..], to, |buf.str|)
      modifies this
      ensures buf == old(buf) && Valid() && Rest() == old(Rest()) && piece != NoPiece
    {
      SpliceSkip(buf.str, buf.lheads[lhpos..], strpos, to);
      piece := OfStr(strpos, to);
      strpos := to;
    }

    method NextHead(size: nat)
      requires Valid() && buf != null && piece == NoPiece
      requires lhpos < |buf.lheads| && buf.lheads[lhpos] == ListMark(strpos, size)
      modifies this, buf.sizebuf
      ensures buf == old(buf) && Valid() && Rest() == old(Rest()) && piece != NoPiece
    {
      hide Splice, Ordered;
      SpliceHead(buf.str, buf.lheads, lhpos, strpos);
      lhpos := lhpos + 1;
      var h := buf.HeaderBytes(size);
      piece := OfHead(0, |h|);
    }

    /** Fills `b` as far as the encoding lasts; the end is reported when nothing is left over. */
    method Read(b: array<byte>) returns (n: nat, eof: bool)
      requires Valid() && b !in Repr()
      modifies Repr() - {buf}, b
      ensures Valid() && (buf == null || buf == old(buf))
      ensures n == if b.Length <= |old(Rest())| then b.Length else |old(Rest())|
      ensures b[..n] == old(Rest())[..n] && Rest() == old(Rest())[n..]
      ensures eof <==> |old(Rest())| <= b.Length
    {
      hide Splice, Ordered, Small, PieceBytes, Rest, Valid;
      n := 0;
      ghost var all := Rest();
      var full := false;
      while true
        invariant Valid() && buf == old(buf)
        invariant n <= b.Length && n <= |all| && b[..n] == all[..n] && Rest() == all[n..]
        decreases |all| - n
      {
        Next();
        if piece == NoPiece {
          Close();
          return n, true;
        }
        n, full := ReadPiece(b, all, n);
        if full {
          return n, false;
        }
      }
    }

    /** Lets the buffer go when nothing is left. */
    method Close()
      requires Valid() && piece == NoPiece && Rest() == []
      modifies this`buf
      ensures buf == null && Valid() && Rest() == []
    {
      buf := null;
    }

    /** Copies the current piece, or as much of it as `b` has room for. */
    method ReadPiece(b: array<byte>, ghost all: seq<byte>, n: nat) returns (n': nat, full: bool)
      requires Valid() && b !in Repr() && piece != NoPiece
      requires n <= b.Length && n <= |all| && b[..n] == all[..n] && Rest() == all[n..]
      modifies this, b
      ensures Valid() && buf == old(buf)
      ensures n <= n' <= b.Length && n' <= |all| && b[..n'] == all[..n'] && Rest() == all[n'..]
      ensures if full then n' == b.Length < |all| else n < n'
    {
      hide Splice, Ordered, Small;
      var p := PieceBytes();
      ghost var tail := Splice(buf.str, buf.lheads[lhpos..], strpos);
      var nn := if b.Length - n <= |p| then b.Length - n else |p|;
      n' := n + nn;
      SplitAt(all, n, nn, p, tail);
      CopyNext(b, all, n, p[..nn]);
      full := nn < |p|;
      Consume(nn);
    }

    /** Moves on by some bytes of the current piece. */
    method Consume(nn: nat)
      requires Valid() && piece != NoPiece && nn <= |PieceBytes()|
      modifies this`piece
      ensures Valid() && PieceBytes() == old(PieceBytes())[nn..]
    {
      hide Splice, Ordered, Small;
      if nn < |PieceBytes()| {
        piece := piece.(lo := piece.lo + nn);
      } else {
        piece := NoPiece;
      }
    }
  }

  /** When a header is next, what comes out is the header and then the rest. */
  lemma SpliceHead(str: seq<byte>, marks: seq<ListMark>, k: nat, from: nat)
    requires k < |marks| && Ordered(marks[k..], from, |str|) && marks[k].offset == from
    ensures Ordered(marks[k + 1..], from, |str|)
    ensures Splice(str, marks[k..], from) == ListHead(marks[k].size) + Splice(str, marks[k + 1..], from)
  {
    hide Splice, Ordered, ListHead;
    assert marks[k..][1..] == marks[k + 1..];
    Unspliced(str, marks[k..], from);
    assert str[from..from] == [];
  }

  lemma Unspliced(str: seq<byte>, marks: seq<ListMark>, from: nat)
    requires marks != [] && Ordered(marks, from, |str|)
    ensures from <= marks[0].offset <= |str| && Ordered(marks[1..], marks[0].offset, |str|)
    ensures Splice(str, marks, from) ==
              str[from..marks[0].offset] + ListHead(marks[0].size) + Splice(str, marks[1..], marks[0].offset)
  {
    OrderedRange(marks, from, |str|);
  }

  lemma SplitAt(all: seq<byte>, n: nat, k: nat, p: seq<byte>, tail: seq<byte>)
    requires n <= |all| && all[n..] == p + tail && k <= |p|
    ensures n + k <= |all| && all[n..n + k] == p[..k] && all[n + k..] == p[k..] + tail
  {
    assert all[n..n + k] == all[n..][..k];
    assert all[n + k..] == all[n..][k..];
  }

  // ---------- the three ways out ----------

  method EncodeToBytes(v: Item) returns (out: array<byte>)
    requires |Encode(v)| < U64
    ensures out[..] == Encode(v)
  {
    var eb := Encoded(v);
    out := eb.ToBytes();
  }

  method EncodeTo(v: Item, w: Sink) returns (ok: bool)
    requires |Encode(v)| < U64
    modifies w
    ensures ok <==> |Encode(v)| <= old(w.room)
    ensures w.data == old(w.data) + if ok then Encode(v) else Encode(v)[..old(w.room)]
  {
    var eb := Encoded(v);
    ok := eb.ToWriter(w);
  }

  method Encoded(v: Item) returns (eb: EncBuf)
    requires |Encode(v)| < U64
    ensures fresh(eb) && fresh(eb.sizebuf) && eb.Complete()
    ensures Splice(eb.str, eb.lheads, 0) == Encode(v)
    ensures eb.Size() == |Encode(v)|
  {
    eb := new EncBuf();
    eb.EncodeItem(v);
    assert eb.lheads[0..] == eb.lheads;
  }

  method EncodeToReader(v: Item) returns (size: nat, r: EncReader)
    requires |Encode(v)| < U64
    ensures size == |Encode(v)| && r.Valid() && r.Rest() == Encode(v) && fresh(r.Repr())
  {
    var eb := Encoded(v);
    r := new EncReader(eb);
    size := eb.Size();
  }

  /** One `Read` into a buffer of the given size. */
  method ReadOne(r: EncReader, size: nat) returns (p: seq<byte>, eof: bool)
    requires r.Valid()
    modifies r.Repr()
    ensures r.Valid() && r.Repr() <= old(r.Repr())
    ensures |p| == if size <= |old(r.Rest())| then size else |old(r.Rest())|
    ensures p == old(r.Rest())[..|p|] && r.Rest() == old(r.Rest())[|p|..]
    ensures eof <==> |old(r.Rest())| <= size
  {
    var b := new byte[size](_ => 0);
    var n;
    n, eof := r.Read(b);
    p := b[..n];
  }

  function TotalOf(s: seq<nat>): (n: nat)
  {
    if s == [] then 0 else s[0] + TotalOf(s[1..])
  }

  /** Reading with any sequence of buffer sizes delivers what is left, in order. */
  method ReadAll(r: EncReader, sizes: seq<nat>) returns (out: seq<byte>, eof: bool)
    requires r.Valid()
    modifies r.Repr()
    ensures r.Valid() && r.Repr() <= old(r.Repr())
    ensures |out| == if TotalOf(sizes) <= |old(r.Rest())| then TotalOf(sizes) else |old(r.Rest())|
    ensures out == old(r.Rest())[..|out|] && r.Rest() == old(r.Rest())[|out|..]
    ensures eof <==> sizes != [] && |old(r.Rest())| <= TotalOf(sizes)
    decreases |sizes|
  {
    hide EncReader.Rest, EncReader.Valid, EncReader.Repr;
    if sizes == [] {
      return [], false;
    }
    ghost var all := r.Rest();
    var p, q;
    p, eof := ReadOne(r, sizes[0]);
    if |sizes| > 1 {
      q, eof := ReadAll(r, sizes[1..]);
    } else {
      q := [];
    }
    out := p + q;
    TwoSlices(all, |p|, |q|);
  }

  lemma TwoSlices(all: seq<byte>, a: nat, b: nat)
    requires a + b <= |all|
    ensures all[..a + b] == all[..a] + all[a..][..b] && all[a..][b..] == all[a + b..]
  {}

  /** The same for a value: any reads that ask for enough bytes give its encoding. */
  method ReadInPieces(v: Item, sizes: seq<nat>) returns (out: seq<byte>, eof: bool)
    requires |Encode(v)| < U64
    ensures out <= Encode(v)
    ensures eof ==> out == Encode(v)
    ensures eof <==> sizes != [] && |Encode(v)| <= TotalOf(sizes)
  {
    var size, r := EncodeToReader(v);
    out, eof := ReadAll(r, sizes);
  }
}
