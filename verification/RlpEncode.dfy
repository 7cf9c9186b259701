/**
 The streaming RLP encoder. List headers are not written where they belong: they are kept as
 side records (offset, size) and spliced into the string data when the output is produced.
 */
module RlpEncode {
  import opened Bytes
  import opened RlpSpec


  /** One deferred list header: its index in the string data and the size of the list's payload. */
  datatype ListHead = ListHead(offset: nat, size: nat)

  // ---------- what the buffer denotes ----------

  /** The string data of an item: its encoding without any list header. */
  function Flat(x: Item): (s: seq<Byte>)
    decreases x, 1
  {
    match x
    case Str(b) => EncodeString(b)
    case List(xs) => FlatAll(xs)
  }

  function FlatAll(xs: seq<Item>): (s: seq<Byte>)
    decreases xs, 0
  {
    if xs == [] then [] else Flat(xs[0]) + FlatAll(xs[1..])
  }

  /** The finished headers of an item whose string data starts at index `at`. */
  function Heads(x: Item, at: nat): (hs: seq<ListHead>)
    decreases x, 1
  {
    match x
    case Str(_) => []
    case List(xs) => [ListHead(at, |EncodeAll(xs)|)] + HeadsAll(xs, at)
  }

  function HeadsAll(xs: seq<Item>, at: nat): (hs: seq<ListHead>)
    decreases xs, 0
  {
    if xs == [] then [] else Heads(xs[0], at) + HeadsAll(xs[1..], at + |Flat(xs[0])|)
  }

  function HeadBytes(h: ListHead): (s: seq<Byte>)
  {
    Header(0xC0, 0xF7, h.size)
  }

  function HeadBytesTotal(hs: seq<ListHead>): (n: nat)
  {
    if hs == [] then 0 else |HeadBytes(hs[0])| + HeadBytesTotal(hs[1..])
  }

  /** Headers in order, none before `from`, none past the end of the string data. */
  ghost predicate Ordered(str: seq<Byte>, hs: seq<ListHead>, from: nat)
    decreases |hs|
  {
    && from <= |str|
    && (hs != [] ==> from <= hs[0].offset <= |str| && Ordered(str, hs[1..], hs[0].offset))
  }

  /** The output: string data from index `from` on, with every header put in at its offset. */
  ghost function Splice(str: seq<Byte>, hs: seq<ListHead>, from: nat): (s: seq<Byte>)
    requires Ordered(str, hs, from)
    decreases |hs|
  {
    if hs == [] then str[from..]
    else str[from..hs[0].offset] + (HeadBytes(hs[0]) + Splice(str, hs[1..], hs[0].offset))
  }

  lemma {:induction false} SpliceSize(str: seq<Byte>, hs: seq<ListHead>, from: nat)
    requires Ordered(str, hs, from)
    ensures |Splice(str, hs, from)| == |str| - from + HeadBytesTotal(hs)
    decreases |hs|
  {
    if hs != [] {
      SpliceSize(str, hs[1..], hs[0].offset);
    }
  }

  /** String data that lies before the next header comes out unchanged. */
  lemma SpliceAdvance(str: seq<Byte>, hs: seq<ListHead>, from: nat, to: nat)
    requires from <= to && Ordered(str, hs, to)
    ensures Ordered(str, hs, from)
    ensures Splice(str, hs, from) == str[from..to] + Splice(str, hs, to)
  {
    if hs == [] {
      assert str[from..] == str[from..to] + str[to..];
    } else {
      var h := hs[0];
      assert str[from..h.offset] == str[from..to] + str[to..h.offset];
      Regroup(str[from..to], str[to..h.offset], HeadBytes(h) + Splice(str, hs[1..], h.offset));
    }
  }

  lemma SpliceHead(str: seq<Byte>, hs: seq<ListHead>, at: nat)
    requires hs != [] && hs[0].offset == at <= |str| && Ordered(str, hs[1..], at)
    ensures Ordered(str, hs, at)
    ensures Splice(str, hs, at) == HeadBytes(hs[0]) + Splice(str, hs[1..], at)
  {
    assert str[at..at] == [];
  }

  lemma SpliceGlue(str: seq<Byte>, first: seq<ListHead>, tail: seq<ListHead>, rest: seq<ListHead>,
                   at: nat, mid: nat, end: nat, e: seq<Byte>, es: seq<Byte>)
    requires Ordered(str, first + (tail + rest), at) && Ordered(str, tail + rest, mid) && Ordered(str, rest, end)
    requires Splice(str, first + (tail + rest), at) == e + Splice(str, tail + rest, mid)
    requires Splice(str, tail + rest, mid) == es + Splice(str, rest, end)
    ensures Ordered(str, (first + tail) + rest, at)
    ensures Splice(str, (first + tail) + rest, at) == (e + es) + Splice(str, rest, end)
  {
    Regroup(first, tail, rest);
    Regroup(e, es, Splice(str, rest, end));
  }

  /** Splicing the headers of one item writes exactly its recursive encoding. */
  lemma {:induction false} SpliceItem(str: seq<Byte>, x: Item, at: nat, end: nat, rest: seq<ListHead>)
    requires DataAt(str, at, Flat(x)) && end == at + |Flat(x)|
    requires Ordered(str, rest, end)
    ensures Ordered(str, Heads(x, at) + rest, at)
    ensures Splice(str, Heads(x, at) + rest, at) == Encode(x) + Splice(str, rest, end)
    decreases x, 1
  {
    match x
    case Str(b) =>
      assert Heads(x, at) + rest == rest;
      SpliceAdvance(str, rest, at, end);
      assert str[at..end] == Flat(x);
    case List(xs) =>
      var head, inner := ListHead(at, |EncodeAll(xs)|), HeadsAll(xs, at);
      SpliceItems(str, xs, at, end, rest);
      Regroup([head], inner, rest);
      assert ([head] + (inner + rest))[1..] == inner + rest;
      SpliceHead(str, [head] + (inner + rest), at);
      Regroup(HeadBytes(head), EncodeAll(xs), Splice(str, rest, end));
  }

  lemma {:induction false} SpliceItems(str: seq<Byte>, xs: seq<Item>, at: nat, end: nat, rest: seq<ListHead>)
    requires DataAt(str, at, FlatAll(xs)) && end == at + |FlatAll(xs)|
    requires Ordered(str, rest, end)
    ensures Ordered(str, HeadsAll(xs, at) + rest, at)
    ensures Splice(str, HeadsAll(xs, at) + rest, at) == EncodeAll(xs) + Splice(str, rest, end)
    decreases xs, 0
  {
    hide Ordered, Splice;
    if xs == [] {
      assert HeadsAll(xs, at) + rest == rest;
      assert [] + Splice(str, rest, at) == Splice(str, rest, at);
    } else {
      var mid := at + |Flat(xs[0])|;
      var tail := HeadsAll(xs[1..], mid);
      DataSplit(str, at, Flat(xs[0]), FlatAll(xs[1..]));
      SpliceItems(str, xs[1..], mid, end, rest);
      SpliceItem(str, xs[0], at, mid, tail + rest);
      SpliceGlue(str, Heads(xs[0], at), tail, rest, at, mid, end, Encode(xs[0]), EncodeAll(xs[1..]));
    }
  }

  /** Deferred headers, spliced, are the recursive definition of RLP. */
  lemma SpliceIsEncode(x: Item)
    ensures Ordered(Flat(x), Heads(x, 0), 0)
    ensures Splice(Flat(x), Heads(x, 0), 0) == Encode(x)
  {
    SpliceItem(Flat(x), x, 0, |Flat(x)|, []);
    assert Encode(x) + [] == Encode(x);
    assert Heads(x, 0) + [] == Heads(x, 0);
  }

  /** No header announces more than the whole encoding. */
  lemma {:induction false} HeadSizes(x: Item, at: nat)
    ensures forall h <- Heads(x, at) :: h.size < |Encode(x)|
    decreases x, 1
  {
    if x.List? {
      HeadSizesAll(x.items, at);
    }
  }

  lemma {:induction false} HeadSizesAll(xs: seq<Item>, at: nat)
    ensures forall h <- HeadsAll(xs, at) :: h.size < |EncodeAll(xs)|
    decreases xs, 0
  {
    if xs != [] {
      HeadSizes(xs[0], at);
      HeadSizesAll(xs[1..], at + |Flat(xs[0])|);
    }
  }

  lemma {:induction false} FlatAllSnoc(xs: seq<Item>, x: Item)
    ensures FlatAll(xs + [x]) == FlatAll(xs) + Flat(x)
  {
    if xs == [] {
      assert (xs + [x])[1..] == [];
    } else {
      assert (xs + [x])[1..] == xs[1..] + [x];
      FlatAllSnoc(xs[1..], x);
    }
  }

  lemma {:induction false} HeadsAllSnoc(xs: seq<Item>, x: Item, at: nat)
    ensures HeadsAll(xs + [x], at) == HeadsAll(xs, at) + Heads(x, at + |FlatAll(xs)|)
  {
    if xs == [] {
      assert (xs + [x])[1..] == [];
    } else {
      var next := at + |Flat(xs[0])|;
      assert (xs + [x])[1..] == xs[1..] + [x];
      HeadsAllSnoc(xs[1..], x, next);
      Regroup(Heads(xs[0], at), HeadsAll(xs[1..], next), Heads(x, at + |FlatAll(xs)|));
    }
  }

  lemma EncodeAllPrefix(xs: seq<Item>, i: nat)
    requires i < |xs|
    ensures EncodeAll(xs[..i + 1]) == EncodeAll(xs[..i]) + Encode(xs[i])
    ensures |EncodeAll(xs[..i])| + |Encode(xs[i])| <= |EncodeAll(xs)|
  {
    EncodeAllConcat(xs[..i], [xs[i]]);
    assert xs[..i + 1] == xs[..i] + [xs[i]];
    assert [xs[i]][1..] == [];
    EncodeAllConcat(xs[..i + 1], xs[i + 1..]);
    assert xs == xs[..i + 1] + xs[i + 1..];
  }

  // ---------- integers ----------

  function Lo(i: nat): Byte
  {
    (i % 256) as Byte
  }

  /** putint: the switch over the eight widths. */
  function PutInt(i: nat): (s: seq<Byte>)
    requires i < TWO64
  {
    if i < 0x100 then [Lo(i)]
    else if i < 0x1_0000 then [Lo(i / 0x100), Lo(i)]
    else if i < 0x100_0000 then [Lo(i / 0x1_0000), Lo(i / 0x100), Lo(i)]
    else if i < 0x1_0000_0000 then [Lo(i / 0x100_0000), Lo(i / 0x1_0000), Lo(i / 0x100), Lo(i)]
    else if i < 0x100_0000_0000 then
      [Lo(i / 0x1_0000_0000), Lo(i / 0x100_0000), Lo(i / 0x1_0000), Lo(i / 0x100), Lo(i)]
    else if i < 0x1_0000_0000_0000 then
      [Lo(i / 0x100_0000_0000), Lo(i / 0x1_0000_0000), Lo(i / 0x100_0000), Lo(i / 0x1_0000), Lo(i / 0x100), Lo(i)]
    else if i < 0x100_0000_0000_0000 then
      [Lo(i / 0x1_0000_0000_0000), Lo(i / 0x100_0000_0000), Lo(i / 0x1_0000_0000), Lo(i / 0x100_0000),
       Lo(i / 0x1_0000), Lo(i / 0x100), Lo(i)]
    else
      [Lo(i / 0x100_0000_0000_0000), Lo(i / 0x1_0000_0000_0000), Lo(i / 0x100_0000_0000),
       Lo(i / 0x1_0000_0000), Lo(i / 0x100_0000), Lo(i / 0x1_0000), Lo(i / 0x100), Lo(i)]
  }

  lemma Shifts(i: nat)
    ensures i / 0x1_0000 == i / 256 / 0x100
    ensures i / 0x100_0000 == i / 256 / 0x1_0000
    ensures i / 0x1_0000_0000 == i / 256 / 0x100_0000
    ensures i / 0x100_0000_0000 == i / 256 / 0x1_0000_0000
    ensures i / 0x1_0000_0000_0000 == i / 256 / 0x100_0000_0000
    ensures i / 0x100_0000_0000_0000 == i / 256 / 0x1_0000_0000_0000
  {}

  /** The minimal bytes, except that zero gets one byte. */
  lemma {:induction false} PutIntIsMinimal(i: nat)
    requires i < TWO64
    ensures PutInt(i) == if i == 0 then [0] else BigEndian(i)
  {
    if 0 < i < 256 {
      assert BigEndian(i / 256) == [];
    } else if i >= 256 {
      PutIntIsMinimal(i / 256);
      Shifts(i);
      assert PutInt(i) == PutInt(i / 256) + [Lo(i)];
    }
  }

  /** intsize: the least number of bytes that hold i, by repeated shifting. */
  method IntSize(i: nat) returns (size: nat)
    ensures size == if i == 0 then 1 else |BigEndian(i)|
  {
    size := 1;
    var rest: nat := i / 256;
    while rest != 0
      invariant i != 0 ==> |BigEndian(i)| == size + |BigEndian(rest)|
      invariant i == 0 ==> rest == 0 && size == 1
      decreases rest
    {
      rest := rest / 256;
      size := size + 1;
    }
  }

  /** puthead as it writes one header. */
  method PutHead(smallTag: Byte, largeTag: Byte, size: nat) returns (head: seq<Byte>)
    requires size < TWO64
    ensures head == Header(smallTag, largeTag, size)
  {
    if size < 56 {
      head := [Tag(smallTag, size)];
    } else {
      PutIntIsMinimal(size);
      var digits := PutInt(size);
      head := [Tag(largeTag, |digits|)] + digits;
    }
  }

  // ---------- the buffer ----------

  class EncBuf {
    var str: seq<Byte>         // string data, everything except list headers
    var lheads: seq<ListHead>  // all list headers
    var lhsize: nat            // sum of the sizes of all finished list headers

    /** Every list is closed and the running header size is the true one. */
    ghost predicate Closed()
      reads this
    {
      && Ordered(str, lheads, 0)
      && lhsize == HeadBytesTotal(lheads)
      && forall h <- lheads :: h.size < TWO63
    }

    constructor ()
      ensures str == [] && lheads == [] && lhsize == 0 && Closed()
    {
      str, lheads, lhsize := [], [], 0;
    }

    function Size(): (n: nat)
      reads this
    {
      |str| + lhsize
    }

    method EncodeStringData(b: seq<Byte>)
      requires |b| < TWO63
      modifies this`str
      ensures str == old(str) + EncodeString(b)
    {
      if |b| == 1 && b[0] <= 0x7F {
        str := str + [b[0]];
      } else {
        var head := PutHead(0x80, 0xB7, |b|);
        str := str + head;
        str := str + b;
      }
    }

    /** Opens a list. Until ListEnd, the record's size field holds the header total so far. */
    method ListStart() returns (lh: nat)
      modifies this`lheads
      ensures lh == |old(lheads)|
      ensures lheads == old(lheads) + [ListHead(|str|, lhsize)]
    {
      lh := |lheads|;
      lheads := lheads + [ListHead(|str|, lhsize)];
    }

    method ListEnd(lh: nat)
      requires lh < |lheads|
      requires Size() - lheads[lh].offset - lheads[lh].size >= 0
      modifies this`lheads, this`lhsize
      ensures lheads == old(lheads[lh := lheads[lh].(size := Size() - lheads[lh].offset - lheads[lh].size)])
      ensures lhsize == old(lhsize) + |HeadBytes(lheads[lh])|
    {
      var size := Size() - lheads[lh].offset - lheads[lh].size;
      lheads := lheads[lh := lheads[lh].(size := size)];
      if size < 56 {
        lhsize := lhsize + 1;
      } else {
        var n := IntSize(size);
        lhsize := lhsize + 1 + n;
      }
    }

    /** Appends one item: its string data, its finished headers, and their exact total size. */
    method EncodeItem(x: Item)
      requires |Encode(x)| < TWO63
      modifies this
      ensures str == old(str) + Flat(x)
      ensures lheads == old(lheads) + Heads(x, |old(str)|)
      ensures Size() == old(Size()) + |Encode(x)|
      decreases x
    {
      hide Header;
      ghost var str0, heads0, lhsize0, size0 := str, lheads, lhsize, Size();
      match x
      case Str(b) =>
        EncodeStringData(b);
      case List(xs) =>
        ghost var at := |str|;
        var lh := ListStart();
        ghost var open := [ListHead(at, lhsize0)];
        var i := 0;
        while i < |xs|
          invariant 0 <= i <= |xs|
          invariant str == str0 + FlatAll(xs[..i])
          invariant lheads == heads0 + open + HeadsAll(xs[..i], at)
          invariant Size() == size0 + |EncodeAll(xs[..i])|
        {
          assert xs[..i + 1] == xs[..i] + [xs[i]];
          EncodeAllPrefix(xs, i);
          FlatAllSnoc(xs[..i], xs[i]);
          HeadsAllSnoc(xs[..i], xs[i], at);
          Regroup(str0, FlatAll(xs[..i]), Flat(xs[i]));
          Regroup(heads0 + open, HeadsAll(xs[..i], at), Heads(xs[i], at + |FlatAll(xs[..i])|));
          EncodeItem(xs[i]);
          i := i + 1;
        }
        assert xs[..i] == xs;
        ListEnd(lh);
        assert lheads == heads0 + Heads(x, at);
    }

    /** EncodeToBytes: a fresh buffer holds, and writes out, the recursive encoding. */
    static method EncodeToBytes(x: Item) returns (out: array<Byte>)
      requires |Encode(x)| < TWO63
      ensures out[..] == Encode(x)
    {
      var eb := Filled(x);
      SpliceIsEncode(x);
      out := eb.ToBytes();
    }

    static method Filled(x: Item) returns (eb: EncBuf)
      requires |Encode(x)| < TWO63
      ensures fresh(eb) && eb.Closed()
      ensures eb.str == Flat(x) && eb.lheads == Heads(x, 0) && eb.Size() == |Encode(x)|
    {
      eb := new EncBuf();
      eb.EncodeItem(x);
      assert eb.str == Flat(x) && eb.lheads == Heads(x, 0);
      SpliceIsEncode(x);
      SpliceSize(eb.str, eb.lheads, 0);
      HeadSizes(x, 0);
    }

    /** toBytes: the output array is allocated once, at size(), and every position is written. */
    method ToBytes() returns (out: array<Byte>)
      requires Closed()
      ensures fresh(out)
      ensures out[..] == Splice(str, lheads, 0)
    {
      hide Header, Ordered, Splice, HeadBytesTotal;
      var data, heads := str, lheads;
      SpliceSize(data, heads, 0);
      ghost var all := Splice(data, heads, 0);
      out := new Byte[Size()](_ => 0);
      var strpos: nat, pos: nat, k := 0, 0, 0;
      assert heads[0..] == heads && out[..0] + all == all;
      while k < |heads|
        invariant 0 <= k <= |heads| && strpos <= |data| && Ordered(data, heads[k..], strpos)
        invariant pos <= out.Length == |all| && out[..pos] + Splice(data, heads[k..], strpos) == all
      {
        assert heads[k..][1..] == heads[k + 1..];
        strpos, pos := CopyPiece(out, pos, data, heads[k..], strpos, all);
        k := k + 1;
      }
      assert heads[k..] == [];
      SpliceEnd(data, strpos);
      WriteAt(out, pos, data[strpos..]);
      assert out[..] == out[..out.Length];
    }

    /** toWriter: the same bytes in order; on a failed write, a prefix of them. */
    method ToWriter(out: Sink) returns (ok: bool)
      requires Closed()
      modifies out
      ensures ok ==> out.written == old(out.written) + Splice(str, lheads, 0)
      ensures !ok ==> out.written <= old(out.written) + Splice(str, lheads, 0)
      ensures ok <==> |Splice(str, lheads, 0)| <= old(out.room)
    {
      hide Header, Ordered, Splice;
      ghost var all := out.written + Splice(str, lheads, 0);
      var strpos: nat, k := 0, 0;
      assert lheads[0..] == lheads;
      while k < |lheads|
        invariant 0 <= k <= |lheads|
        invariant strpos <= |str| && Ordered(str, lheads[k..], strpos)
        invariant out.written + Splice(str, lheads[k..], strpos) == all
        invariant out.room + |out.written| == old(out.room + |out.written|)
      {
        var head := lheads[k];
        assert lheads[k..][1..] == lheads[k + 1..];
        SpliceStep(out.written, str, lheads[k..], strpos, all);
        if head.offset - strpos > 0 {
          var n, okData := out.Write(str[strpos..head.offset]);
          if !okData {
            return false;
          }
          strpos := strpos + n;
        } else {
          assert out.written + str[strpos..head.offset] == out.written;
        }
        var enc := PutHead(0xC0, 0xF7, head.size);
        var _, okHead := out.Write(enc);
        if !okHead {
          return false;
        }
        k := k + 1;
      }
      ok := true;
      assert lheads[k..] == [];
      SpliceEnd(str, strpos);
      if strpos < |str| {
        var _, okTail := out.Write(str[strpos..]);
        ok := okTail;
      } else {
        assert out.written + str[strpos..] == out.written;
      }
    }
  }

  lemma SpliceEnd(str: seq<Byte>, from: nat)
    requires from <= |str|
    ensures Ordered(str, [], from) && Splice(str, [], from) == str[from..]
  {}

  /** One round of every output loop: string data up to the next header, then the header. */
  lemma SpliceStep(done: seq<Byte>, str: seq<Byte>, hs: seq<ListHead>, from: nat, all: seq<Byte>)
    requires hs != [] && Ordered(str, hs, from)
    requires done + Splice(str, hs, from) == all
    ensures from <= hs[0].offset <= |str| && Ordered(str, hs[1..], hs[0].offset)
    ensures ((done + str[from..hs[0].offset]) + HeadBytes(hs[0])) + Splice(str, hs[1..], hs[0].offset) == all
  {
    var data, head, after := str[from..hs[0].offset], HeadBytes(hs[0]), Splice(str, hs[1..], hs[0].offset);
    Regroup(done, data, head + after);
    Regroup(done + data, head, after);
  }

  /** The same round as it writes into the output. */
  method CopyPiece(out: array<Byte>, pos: nat, data: seq<Byte>, hs: seq<ListHead>, from: nat, ghost all: seq<Byte>)
    returns (strpos: nat, end: nat)
    requires hs != [] && hs[0].size < TWO64 && Ordered(data, hs, from) && pos <= out.Length == |all|
    requires out[..pos] + Splice(data, hs, from) == all
    modifies out
    ensures strpos <= |data| && Ordered(data, hs[1..], strpos)
    ensures end <= out.Length && out[..end] + Splice(data, hs[1..], strpos) == all
  {
    hide Header, Ordered, Splice;
    ghost var done := out[..pos];
    SpliceStep(done, data, hs, from, all);
    strpos := hs[0].offset;
    var piece := data[from..strpos];
    var head := PutHead(0xC0, 0xF7, hs[0].size);
    assert |all| == |done| + |piece| + |head| + |Splice(data, hs[1..], strpos)|;
    WriteAt(out, pos, piece);
    WriteAt(out, pos + |piece|, head);
    end := pos + |piece| + |head|;
    assert out[..end] == (done + piece) + head;
  }

  // ---------- the reader ----------

  /** What comes next: string data up to the next header, or that header. */
  lemma NextPiece(str: seq<Byte>, hs: seq<ListHead>, from: nat)
    requires Ordered(str, hs, from) && hs != []
    ensures from <= hs[0].offset <= |str|
    ensures hs[0].offset > from ==>
      Ordered(str, hs, hs[0].offset) && Splice(str, hs, from) == str[from..hs[0].offset] + Splice(str, hs, hs[0].offset)
    ensures hs[0].offset == from ==>
      Ordered(str, hs[1..], from) && Splice(str, hs, from) == Header(0xC0, 0xF7, hs[0].size) + Splice(str, hs[1..], from)
  {
    if hs[0].offset > from {
      SpliceAdvance(str, hs, from, hs[0].offset);
    } else {
      assert str[from..from] == [];
      SpliceHead(str, hs, from);
    }
  }

  lemma LastPiece(str: seq<Byte>, hs: seq<ListHead>, from: nat)
    requires Ordered(str, hs, from) && hs == []
    ensures from <= |str| && Splice(str, hs, from) == str[from..] && Ordered(str, hs, |str|)
  {}

  /** The io.Reader over a finished buffer. It hands out the same output piece by piece. */
  class EncReader {
    const str: seq<Byte>
    const lheads: seq<ListHead>
    var lhpos: nat                     // index of the next list header
    var strpos: nat                    // position in the string data
    var piece: Option<seq<Byte>>       // rest of the piece being read

    ghost predicate Valid()
      reads this
    {
      && lhpos <= |lheads|
      && Ordered(str, lheads[lhpos..], strpos)
      && (forall h <- lheads :: h.size < TWO63)
      && (piece.Some? ==> piece.value != [])
    }

    /** What is still to be read. */
    ghost function Remaining(): (s: seq<Byte>)
      reads this
      requires Valid()
    {
      (if piece.Some? then piece.value else []) + Splice(str, lheads[lhpos..], strpos)
    }

    /** EncodeToReader: the announced size is the length of what will be read, the encoding itself. */
    constructor ForItem(x: Item)
      requires |Encode(x)| < TWO63
      ensures Valid()
      ensures Remaining() == Encode(x)
    {
      var eb := EncBuf.Filled(x);
      str, lheads, lhpos, strpos, piece := eb.str, eb.lheads, 0, 0, None;
      new;
      SpliceIsEncode(x);
      assert lheads[0..] == lheads;
      assert [] + Encode(x) == Encode(x);
    }

    /** The next piece; nothing is consumed from what remains until it has been copied out. */
    method Next() returns (p: Option<seq<Byte>>)
      requires Valid()
      modifies this
      ensures p == piece && Valid() && Remaining() == old(Remaining())
      ensures p.None? <==> Remaining() == []
    {
      hide Ordered, Splice;
      if piece.Some? {
        return piece;
      }
      ghost var all := Splice(str, lheads[lhpos..], strpos);
      assert [] + all == all;
      if lhpos < |lheads| {
        var head := lheads[lhpos];
        assert lheads[lhpos..][1..] == lheads[lhpos + 1..];
        NextPiece(str, lheads[lhpos..], strpos);
        if head.offset > strpos {
          piece := Some(str[strpos..head.offset]);
          strpos := head.offset;
        } else {
          var enc := PutHead(0xC0, 0xF7, head.size);
          piece := Some(enc);
          lhpos := lhpos + 1;
        }
      } else {
        LastPiece(str, lheads[lhpos..], strpos);
        if strpos < |str| {
          piece := Some(str[strpos..]);
          strpos := |str|;
          assert str[strpos..] == [];
          LastPiece(str, lheads[lhpos..], strpos);
        }
      }
      return piece;
    }

    /** Fills a buffer of any size: exactly the next bytes, EOF exactly when nothing is left. */
    method Read(size: nat) returns (b: seq<Byte>, eof: bool)
      requires Valid()
      modifies this
      ensures Valid()
      ensures b + Remaining() == old(Remaining())
      ensures |b| == if size <= |old(Remaining())| then size else |old(Remaining())|
      ensures eof <==> Remaining() == []
    {
      hide Ordered, Splice;
      b := [];
      ghost var all := Remaining();
      while true
        invariant Valid() && |b| <= size
        invariant b + Remaining() == all
        decreases |Remaining()|
      {
        var p := Next();
        if p.None? {
          return b, true;
        }
        var room := size - |b|;
        ghost var after := Splice(str, lheads[lhpos..], strpos);
        if room < |p.value| {
          piece := Some(p.value[room..]);
          assert p.value == p.value[..room] + p.value[room..];
          Regroup(b, p.value[..room], p.value[room..] + after);
          Regroup(p.value[..room], p.value[room..], after);
          b := b + p.value[..room];
          return b, false;
        }
        piece := None;
        Regroup(b, p.value, after);
        assert [] + after == after;
        b := b + p.value;
      }
    }

    /** Any sequence of reads, of any sizes, followed by one large read, gives the encoding. */
    static method ReadInPieces(x: Item, sizes: seq<nat>) returns (got: seq<Byte>)
      requires |Encode(x)| < TWO63
      ensures got == Encode(x)
    {
      var r := new EncReader.ForItem(x);
      got := [];
      for i := 0 to |sizes|
        invariant r.Valid() && fresh(r)
        invariant got + r.Remaining() == Encode(x)
      {
        var b, _ := r.Read(sizes[i]);
        Regroup(got, b, r.Remaining());
        got := got + b;
      }
      var rest, _ := r.Read(TWO63);
      Regroup(got, rest, r.Remaining());
      got := got + rest;
    }
  }

  method WriteAt(out: array<Byte>, pos: nat, s: seq<Byte>)
    requires pos + |s| <= out.Length
    modifies out
    ensures out[..pos + |s|] == old(out[..pos]) + s
  {
    forall i | 0 <= i < |s| {
      out[pos + i] := s[i];
    }
  }

  /** An io.Writer that takes `room` more bytes and then fails. */
  class Sink {
    var written: seq<Byte>
    var room: nat

    method Write(b: seq<Byte>) returns (n: nat, ok: bool)
      modifies this
      ensures n == if |b| <= old(room) then |b| else old(room)
      ensures ok == (n == |b|)
      ensures written == old(written) + b[..n] && room == old(room) - n
      ensures ok ==> written == old(written) + b
    {
      n := if |b| <= room then |b| else room;
      ok := n == |b|;
      written, room := written + b[..n], room - n;
      assert b[..|b|] == b;
    }
  }
}
