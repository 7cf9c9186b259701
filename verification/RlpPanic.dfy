/**
 Where the decoder asks for more than a slice can hold. The sizes in headers have 64 bits, and the buffer is
 made before any of the content is read; nothing but the list around a value, or the input limit, checks them.
 */
module RlpPanic {
  import opened Bytes
  import opened RlpSpec
  import opened RlpParse

  /** The longest slice that can be made: platforms differ, but lengths are signed 64-bit numbers. */
  type SliceLen = n: nat | 0 < n < TWO63 witness 1

  /** headsize. */
  function HeadSize(size: nat): (n: nat)
    ensures n > 0
  {
    if size < 56 then 1 else 1 + |BigEndian(size)|
  }

  lemma HeadSizeBound(size: nat)
    requires size < TWO64
    ensures HeadSize(size) <= 9
  {
    BigEndianSize8(size);
  }

  /** The header read is as long as the one Raw puts in its place. */
  lemma HeadSizeIs(w: seq<Byte>)
    requires ReadKind(w).Some? && !ReadKind(w).value.kind.ByteKind?
    ensures var h := ReadKind(w).value; h.used == HeadSize(h.size) && h.size < TWO64
  {
    hide ReadKind, BigEndian;
    ReadKindIsCanonical(w);
    var h := ReadKind(w).value;
    assert |w[..h.used]| == |HeadBytes(h.kind, h.size)|;
  }

  /** A value of n bytes, header included, where at most left may be taken. */
  predicate Within(n: nat, left: Option<nat>)
  {
    left.Some? ==> n <= left.value
  }

  /** A string ahead announces more than max bytes. */
  predicate HugeString(w: seq<Byte>, left: Option<nat>, max: nat)
  {
    var head := ReadKind(w);
    head.Some? && head.value.kind.StringKind? && Within(head.value.used + head.value.size, left) && head.value.size > max
  }

  /** The value ahead and its header take more than max bytes. */
  predicate HugeRaw(w: seq<Byte>, left: Option<nat>, max: nat)
  {
    var head := ReadKind(w);
    head.Some? && !head.value.kind.ByteKind? && Within(head.value.used + head.value.size, left)
    && HeadSize(head.value.size) + head.value.size > max
  }

  /** In the value ahead, before anything is wrong with it, there is a string of more than max bytes. */
  predicate Huge(w: seq<Byte>, left: Option<nat>, max: nat)
    decreases |w|, 0
  {
    var head := ReadKind(w);
    if head.None? || head.value.kind.ByteKind? then false
    else
      var Head(kind, size, used) := head.value;
      Within(used + size, left) && HeldHuge(kind, size, w[used..], max)
  }

  /** The same with the header read already. */
  predicate HeldHuge(kind: Kind, size: nat, w: seq<Byte>, max: nat)
    decreases |w|, 2
  {
    match kind
    case ByteKind => false
    case StringKind => size > max
    case ListKind => HugeIn(if size < |w| then w[..size] else w, size, max)
  }

  /** The same for the values of a list, of which left bytes are to come. */
  predicate HugeIn(w: seq<Byte>, left: nat, max: nat)
    requires |w| <= left
    decreases |w|, 1
  {
    left > 0 && (Huge(w, Some(left), max) || (Parse(w).Some? && var m := Parse(w).value.1; HugeIn(w[m..], left - m, max)))
  }

  /** Where no more than max bytes may be taken there is none. */
  lemma {:induction false} NoneHuge(w: seq<Byte>, left: nat, max: nat)
    requires left <= max
    ensures !Huge(w, Some(left), max) && !HugeString(w, Some(left), max)
    decreases |w|, 0
  {
    hide Parse;
    var head := ReadKind(w);
    if head.Some? && head.value.kind.ListKind? && head.value.used + head.value.size <= left {
      var size, rest := head.value.size, w[head.value.used..];
      NoneHugeIn(if size < |rest| then rest[..size] else rest, size, max);
    }
  }

  lemma {:induction false} NoneHugeIn(w: seq<Byte>, left: nat, max: nat)
    requires |w| <= left <= max
    ensures !HugeIn(w, left, max)
    decreases |w|, 1
  {
    hide ReadKind, Parse, Huge;
    if left > 0 {
      NoneHuge(w, left, max);
      if Parse(w).Some? {
        var m := Parse(w).value.1;
        NoneHugeIn(w[m..], left - m, max);
      }
    }
  }

  // ---------- values that can be read ----------

  /** No string of the tree is longer than max. */
  predicate Short(t: Tree, max: nat)
    decreases t, 1
  {
    match t
    case Leaf(b, _) => |b| <= max
    case Node(kids) => ShortAll(kids, max)
  }

  predicate ShortAll(ts: seq<Tree>, max: nat)
    decreases ts, 0
  {
    ts == [] || (Short(ts[0], max) && ShortAll(ts[1..], max))
  }

  predicate ShortItem(x: Item, max: nat)
    decreases x, 1
  {
    match x
    case Str(b) => |b| <= max
    case List(xs) => ShortItems(xs, max)
  }

  predicate ShortItems(xs: seq<Item>, max: nat)
    decreases xs, 0
  {
    xs == [] || (ShortItem(xs[0], max) && ShortItems(xs[1..], max))
  }

  /** For a value that is there in full: exactly when one of its strings is too long. */
  lemma {:induction false} HugeIff(w: seq<Byte>, left: Option<nat>, max: nat)
    requires Parse(w).Some? && Within(Parse(w).value.1, left) && max > 0
    ensures Huge(w, left, max) <==> !Short(Parse(w).value.0, max)
    decreases |w|, 0
  {
    hide ReadKind, ParseAll, HugeIn;
    var Head(kind, size, used) := ReadKind(w).value;
    if kind.ListKind? {
      var rest, content := w[used..], w[used..used + size];
      assert (if size < |rest| then rest[..size] else rest) == content;
      HugeInIff(content, max);
    }
  }

  lemma {:induction false} HugeInIff(w: seq<Byte>, max: nat)
    requires ParseAll(w).Some? && max > 0
    ensures HugeIn(w, |w|, max) <==> !ShortAll(ParseAll(w).value, max)
    decreases |w|, 1
  {
    hide ReadKind, Parse, Huge, Short;
    if w != [] {
      var (t, m) := Parse(w).value;
      var rest := ParseAll(w[m..]).value;
      HugeIff(w, Some(|w|), max);
      HugeInIff(w[m..], max);
      assert ParseAll(w).value == [t] + rest && ([t] + rest)[1..] == rest;
    }
  }

  lemma {:induction false} ShortErase(t: Tree, max: nat)
    ensures Short(t, max) <==> ShortItem(Erase(t), max)
    decreases t, 1
  {
    if t.Node? {
      ShortEraseAll(t.kids, max);
    }
  }

  lemma {:induction false} ShortEraseAll(ts: seq<Tree>, max: nat)
    ensures ShortAll(ts, max) <==> ShortItems(EraseAll(ts), max)
    decreases ts, 0
  {
    if ts != [] {
      ShortErase(ts[0], max);
      ShortEraseAll(ts[1..], max);
      assert EraseAll(ts)[1..] == EraseAll(ts[1..]);
    }
  }

  // ---------- the sum of Raw ----------

  /** The length Raw asks for wraps around exactly for the nine largest sizes, and is then less than its header. */
  lemma WrapsIff(size: nat)
    requires size < TWO64
    ensures (HeadSize(size) + size) % TWO64 < HeadSize(size) <==> size >= TWO64 - 9
    ensures HeadSize(size) + size >= TWO64 <==> size >= TWO64 - 9
  {
    HeadSizeBound(size);
    if size >= TWO64 - 9 {
      BigEndianSize(size, 7);
      Pow256Of8();
    }
  }

  /** The longest header: a string of 2^64 - 1 bytes. */
  const LONGEST: seq<Byte> := [0xBF, 0xFF, 0xFF, 0xFF, 0xFF, 0xFF, 0xFF, 0xFF, 0xFF]

  lemma LongestHead(rest: seq<Byte>)
    ensures ReadKind(LONGEST + rest) == Some(Head(StringKind, TWO64 - 1, 9))
    ensures forall max: SliceLen :: HugeString(LONGEST + rest, None, max) && HugeRaw(LONGEST + rest, None, max)
  {
    var w, f := LONGEST + rest, seq(8, _ => 0xFF as Byte);
    assert w[0] == 0xBF && w[1..][..8] == f;
    AllOnes(8);
    Pow256Of8();
    assert ReadKind(w) == Sized(StringKind, w[1..], 8);
    hide FromBigEndian, Pow256, BigEndian;
    assert ReadUint(w[1..], 8) == Some(TWO64 - 1);
    HeadSizeIs(w);
  }

  lemma {:induction false} AllOnes(k: nat)
    ensures FromBigEndian(seq(k, _ => 0xFF)) == Pow256(k) - 1
  {
    if k > 0 {
      AllOnes(k - 1);
      assert seq(k, _ => 0xFF as Byte)[..k - 1] == seq(k - 1, _ => 0xFF);
    }
  }
}
