/**
 A committed trie over the compressing database. What was put there comes back changed when it holds an
 unlucky run of zeros; it is then much shorter, and no node can be read from it that stands for the one
 written. So the trie can be opened again exactly when all that was stored of it survives the codec.
 */
module TrieDisk {
  import opened Bytes
  import opened RlpSpec
  import opened Trie
  import opened TrieDelete
  import opened TrieEnc
  import opened TrieLazy
  import opened TrieStore
  import opened TrieRoot
  import opened TrieHash
  import opened HexPrefix
  import CommonRlp
  import Rle
  import Store

  // ---------- what comes back shorter ----------

  /** Data that does not come back as it was comes back at least 219 bytes shorter. */
  lemma {:induction false} Shrinks(d: seq<Byte>)
    ensures Rle.Decompressed(Rle.Compressed(d)).Some?
    ensures var b := Rle.Decompressed(Rle.Compressed(d)).value;
            |b| <= |d| && (!Rle.Faithful(d) ==> |b| + 219 <= |d|)
    decreases |d|
  {
    hide Rle.Decompressed, Rle.ChunkValue, Rle.Code, Rle.Taken, Rle.Unlucky;
    if d == [] {
      Rle.EmptyDecodes();
    } else {
      var rest := d[Rle.Taken(d)..];
      Shrinks(rest);
      Rle.ChunkDecodes(d, Rle.Compressed(rest));
      Rle.ChunkValueIs(d);
      ChunkShrinks(d);
    }
  }

  lemma ChunkShrinks(d: seq<Byte>)
    requires d != []
    ensures Rle.Unlucky(d) ==> |Rle.ChunkValue(d)| + 219 <= Rle.Taken(d)
    ensures !Rle.Unlucky(d) ==> |Rle.ChunkValue(d)| == Rle.Taken(d)
  {
    Rle.ChunkValueIs(d);
    if Rle.Unlucky(d) {
      var n := Rle.Run(d, 255);
      Rle.ZeroChunk(d, n);
      Rle.WrapBack(n);
    }
  }

  // ---------- what a decoder takes ----------

  /** Decoding stays inside the data. */
  lemma {:induction false} DecodeInside(data: seq<Byte>, pos: nat)
    ensures CommonRlp.Decode(data, pos).Some? ==> CommonRlp.Decode(data, pos).value.1 <= |data|
    decreases |data| - pos, 1
  {
    hide FromBigEndian;
    if pos < |data| {
      var c := data[pos] as nat;
      if 0xc0 <= c <= 0xf7 {
        ItemsInside(data, pos + 1, 0, c - 0xc0);
      } else if c > 0xf7 {
        var n := CommonRlp.VarInt(data, pos + 1, c - 0xf7);
        if n.Some? {
          ItemsInside(data, pos + 1 + (c - 0xf7), 0, n.value);
        }
      }
    }
  }

  lemma {:induction false} ItemsInside(data: seq<Byte>, pos: nat, i: nat, n: nat)
    requires pos <= |data|
    ensures var r := CommonRlp.DecodeItems(data, pos, i, n); r.Some? ==> r.value.1 <= |data|
    decreases |data| - pos, if i < n then 2 else 0
  {
    hide CommonRlp.Decode;
    if i < n {
      DecodeInside(data, pos);
      var first := CommonRlp.Decode(data, pos);
      if first.Some? {
        ItemsInside(data, first.value.1, i + (first.value.1 - pos), n);
      }
    }
  }

  lemma StringSize(b: seq<Byte>)
    ensures |b| < 56 ==> |EncodeString(b)| <= 1 + |b|
    ensures |b| >= 56 ==> |EncodeString(b)| == 1 + |BigEndian(|b|)| + |b|
  {}

  /** A value decoded from few bytes takes no more when it is encoded. */
  lemma {:induction false} ShortDecode(data: seq<Byte>, pos: nat)
    requires CommonRlp.Decode(data, pos).Some?
    ensures var (x, next) := CommonRlp.Decode(data, pos).value; next - pos < 56 ==> |Encode(x)| <= next - pos
    decreases |data| - pos, 1
  {
    hide FromBigEndian, BigEndian, EncodeAll;
    var (x, next) := CommonRlp.Decode(data, pos).value;
    var c := data[pos] as nat;
    if next - pos < 56 {
      if x.Str? {
        StringSize(x.bytes);
      }
      if 0xc0 <= c <= 0xf7 {
        ShortItems(data, pos + 1, 0, c - 0xc0);
      } else if c > 0xf7 {
        ShortItems(data, pos + 1 + (c - 0xf7), 0, CommonRlp.VarInt(data, pos + 1, c - 0xf7).value);
      }
    }
  }

  lemma {:induction false} ShortItems(data: seq<Byte>, pos: nat, i: nat, n: nat)
    requires CommonRlp.DecodeItems(data, pos, i, n).Some?
    ensures var (x, next) := CommonRlp.DecodeItems(data, pos, i, n).value; next - pos < 56 ==> |EncodeAll(x.items)| <= next - pos
    decreases |data| - pos, if i < n then 2 else 0
  {
    hide CommonRlp.Decode, Encode;
    if i < n {
      var (y, next) := CommonRlp.Decode(data, pos).value;
      ShortDecode(data, pos);
      DecodeInside(data, pos);
      ShortItems(data, next, i + (next - pos), n);
      var rest := CommonRlp.DecodeItems(data, next, i + (next - pos), n).value.0.items;
      assert ([y] + rest)[1..] == rest;
    }
  }

  // ---------- what a node read from few bytes takes ----------

  lemma {:induction false} EncodeAllFits(xs: seq<Item>, ys: seq<Item>)
    requires |xs| == |ys| && forall i | 0 <= i < |xs| :: |Encode(xs[i])| <= |Encode(ys[i])|
    ensures |EncodeAll(xs)| <= |EncodeAll(ys)|
  {
    hide Encode;
    if xs != [] {
      EncodeAllFits(xs[1..], ys[1..]);
    }
  }

  lemma {:induction false} OneOfAll(xs: seq<Item>, i: nat)
    requires i < |xs|
    ensures |Encode(xs[i])| <= |EncodeAll(xs)|
  {
    hide Encode;
    if i > 0 {
      OneOfAll(xs[1..], i - 1);
    }
  }

  lemma ListFits(xs: seq<Item>, ys: seq<Item>)
    requires |EncodeAll(xs)| <= |EncodeAll(ys)| && |Encode(List(ys))| < 56
    ensures |Encode(List(xs))| <= |Encode(List(ys))|
  {
    hide EncodeAll, BigEndian;
  }

  lemma CompactSize(b: seq<Byte>)
    requires b != []
    ensures var k := FromCompact(b); k != [] ==> |Compact(k)| == |b| && (|b| == 1 ==> Compact(k)[0] < 0x80)
  {
    hide Pack, Unpack;
    var k, base := FromCompact(b), Unpack(b);
    var from := if base[0] % 2 == 1 then 1 else 2;
    assert k == if base[0] >= 2 then base[from..] + [TERM] else base[from..];
    if k != [] {
      var f, body := Flags(k), Body(k);
      assert body == base[from..] by {
        if base[0] < 2 {
          assert k[|k| - 1] == base[|base| - 1];
        }
      }
      if |b| == 1 {
        assert Trie.Plain(base) && |f| + |body| == 2;
        assert body != [] ==> body[0] == base[from] && base[from] < 16;
        PackOne(f + body);
      }
    }
  }

  lemma PackOne(h: seq<Byte>)
    requires |h| == 2 && h[0] < 4 && h[1] < 16
    ensures Pack(h) == [Join(h[0], h[1])] && Join(h[0], h[1]) < 0x80
  {
    assert h[2..] == [];
  }

  /** The compact form of a key that was read takes no more than what it was read from. */
  lemma CompactFits(b: seq<Byte>)
    requires b != []
    ensures var k := FromCompact(b); |EncodeString(if k == [] then [] else Compact(k))| <= |EncodeString(b)|
  {
    hide Compact, FromCompact;
    CompactSize(b);
  }

  lemma EmptySize()
    ensures |EncodeString([])| == 1
  {}

  lemma StringItem(b: seq<Byte>)
    ensures Encode(Str(b)) == EncodeString(b)
  {}

  lemma Overhead(xs: seq<Item>)
    ensures |EncodeAll(xs)| < |Encode(List(xs))|
  {
    hide EncodeAll;
  }

  /** A child that is read from less than 32 bytes is referred to by itself. */
  lemma {:induction false} SmallRef(hash: HashFn, x: Item)
    requires |Encode(x)| < 32
    ensures RefItem(hash, MkNode(x)) == NodeItem(hash, MkNode(x)) && |Encode(RefItem(hash, MkNode(x)))| <= |Encode(x)|
    decreases x, 1
  {
    hide MkNode, NodeItem;
    SmallNode(hash, x);
  }

  lemma {:induction false} SmallShort(hash: HashFn, xs: seq<Item>)
    requires |xs| == 2 && ItemBytes(xs[0]) != [] && |Encode(List(xs))| < 32
    ensures |Enc(hash, MkNode(List(xs)))| <= |Encode(List(xs))|
    decreases xs, 0
  {
    hide Compact, FromCompact, EncodeString, EncodeAll, RefItem;
    var b := ItemBytes(xs[0]);
    var key := FromCompact(b);
    CompactFits(b);
    Overhead(xs);
    OneOfAll(xs, 1);
    EmptySize();
    var n := MkNode(List(xs));
    if !n.child.Value? || key == [] || key[|key| - 1] != TERM {
      SmallRef(hash, xs[1]);
    } else {
      ValueRef(hash, n.child.data);
    }
    var ys := [Str(if key == [] then [] else Compact(key)), RefItem(hash, n.child)];
    assert NodeItem(hash, n) == List(ys);
    EncodeAllFits(ys, xs);
    ListFits(ys, xs);
  }

  lemma ValueRef(hash: HashFn, v: seq<Byte>)
    ensures RefItem(hash, Value(v)) == Str(v)
  {}

  lemma {:induction false} SmallFull(hash: HashFn, xs: seq<Item>)
    requires |xs| == 17 && |Encode(List(xs))| < 32
    ensures |Enc(hash, MkNode(List(xs)))| <= |Encode(List(xs))|
    decreases xs, 0
  {
    hide EncodeString, EncodeAll, RefItem;
    Overhead(xs);
    EmptySize();
    MkNodeOfNil(hash);
    var n := MkNode(List(xs));
    var ys := NodeItem(hash, n).items;
    forall i | 0 <= i < 17 ensures |Encode(ys[i])| <= |Encode(xs[i])| {
      OneOfAll(xs, i);
      if i < 16 {
        SmallRef(hash, xs[i]);
      } else {
        NilRef(hash);
      }
    }
    EncodeAllFits(ys, xs);
    ListFits(ys, xs);
  }

  lemma NilRef(hash: HashFn)
    ensures RefItem(hash, Nil) == Str([])
  {}

  /** A node read from a value of less than 32 bytes takes no more than the value. */
  lemma {:induction false} SmallNode(hash: HashFn, x: Item)
    requires |Encode(x)| < 32
    ensures |Enc(hash, MkNode(x))| <= |Encode(x)|
    decreases x, 0
  {
    hide Compact, FromCompact, EncodeString, EncodeAll;
    if x.List? {
      var xs := x.items;
      Overhead(xs);
      if |xs| == 2 && ItemBytes(xs[0]) != [] {
        SmallShort(hash, xs);
      } else if |xs| == 17 {
        SmallFull(hash, xs);
      } else {
        EmptySize();
      }
    }
  }

  // ---------- what a node read from anything takes ----------

  /** Wherever y is decoded from, r takes at most one byte more. */
  ghost predicate Fit(y: Item, r: Item)
  {
    forall data, pos: nat | CommonRlp.Decode(data, pos).Some? && CommonRlp.Decode(data, pos).value.0 == y ::
      |Encode(r)| <= CommonRlp.Decode(data, pos).value.1 - pos + 1
  }

  /** A string takes at least its encoding. */
  lemma StringTakes(data: seq<Byte>, pos: nat)
    requires CommonRlp.Decode(data, pos).Some? && CommonRlp.Decode(data, pos).value.0.Str?
    ensures var (x, next) := CommonRlp.Decode(data, pos).value; |EncodeString(x.bytes)| <= next - pos
  {
    hide FromBigEndian, BigEndian, EncodeAll;
    var (x, next) := CommonRlp.Decode(data, pos).value;
    var c := data[pos] as nat;
    StringSize(x.bytes);
    if 0xb7 < c <= 0xbf && |x.bytes| >= 56 {
      var l := c - 0xb7;
      var digits := data[pos + 1..pos + 1 + l];
      BigEndianBound(digits);
      BigEndianSize(FromBigEndian(digits), l);
    }
  }

  lemma FitString(y: Item, b: seq<Byte>)
    requires y.Str? && |EncodeString(b)| <= |EncodeString(y.bytes)|
    ensures Fit(y, Str(b))
  {
    hide CommonRlp.Decode, EncodeString;
    StringItem(b);
    forall data, pos: nat | CommonRlp.Decode(data, pos).Some? && CommonRlp.Decode(data, pos).value.0 == y
      ensures |Encode(Str(b))| <= CommonRlp.Decode(data, pos).value.1 - pos + 1
    {
      StringTakes(data, pos);
    }
  }

  lemma FitNil(y: Item)
    ensures Fit(y, Str([]))
  {
    hide CommonRlp.Decode;
    EmptySize();
  }

  /** What a node that was read is referred to by. */
  lemma FitRef(hash: HashFn, kept: set<seq<Byte>>, mem: Memory, y: Item, t: Node, d: nat)
    requires Rep(hash, kept, mem, MkNode(y), t) && Good(t, d)
    ensures Fit(y, RefItem(hash, t))
  {
    hide CommonRlp.Decode, EncodeString, Rep, Good, MkNode, NodeItem, RefItem, Encode;
    var n := MkNode(y);
    RefCases(hash, t, d);
    RepItem(hash, kept, mem, n, t);
    RefSize(hash, t);
    if t.Nil? {
      FitNil(y);
    } else {
      forall data, pos: nat | CommonRlp.Decode(data, pos).Some? && CommonRlp.Decode(data, pos).value.0 == y
        ensures |Encode(RefItem(hash, t))| <= CommonRlp.Decode(data, pos).value.1 - pos + 1
      {
        ShortDecode(data, pos);
        if |Encode(y)| < 32 {
          SmallRef(hash, y);
        }
      }
    }
  }

  lemma RefSize(hash: HashFn, t: Node)
    requires t.Nil? || t.Short? || t.Full?
    ensures |Encode(RefItem(hash, t))| <= 33
  {
    if !Big(hash, t) {
      SmallEnc(hash, t);
    } else {
      StringSize(RootHash(hash, t));
    }
  }

  /** Items decoded one after another. */
  lemma {:induction false} ItemsTake(data: seq<Byte>, pos: nat, i: nat, n: nat, ts: seq<Item>)
    requires CommonRlp.DecodeItems(data, pos, i, n).Some?
    requires var xs := CommonRlp.DecodeItems(data, pos, i, n).value.0.items;
             |ts| == |xs| && forall j | 0 <= j < |xs| :: Fit(xs[j], ts[j])
    ensures |EncodeAll(ts)| <= CommonRlp.DecodeItems(data, pos, i, n).value.1 - pos + |ts|
    decreases |data| - pos, if i < n then 2 else 0
  {
    hide CommonRlp.Decode, Encode, Fit;
    if i < n {
      var (y, next) := CommonRlp.Decode(data, pos).value;
      var rest := CommonRlp.DecodeItems(data, next, i + (next - pos), n).value.0.items;
      var xs := CommonRlp.DecodeItems(data, pos, i, n).value.0.items;
      assert xs == [y] + rest;
      DecodeInside(data, pos);
      forall j | 0 <= j < |rest| ensures Fit(rest[j], ts[1..][j]) {
        assert Fit(xs[j + 1], ts[j + 1]);
      }
      ItemsTake(data, next, i + (next - pos), n, ts[1..]);
      assert Fit(xs[0], ts[0]);
      FitHere(y, ts[0], data, pos);
    }
  }

  lemma FitHere(y: Item, r: Item, data: seq<Byte>, pos: nat)
    requires Fit(y, r) && CommonRlp.Decode(data, pos).Some? && CommonRlp.Decode(data, pos).value.0 == y
    ensures |Encode(r)| <= CommonRlp.Decode(data, pos).value.1 - pos + 1
  {
    hide CommonRlp.Decode, Encode;
  }

  lemma ListTakes(data: seq<Byte>, pos: nat, ts: seq<Item>)
    requires CommonRlp.Decode(data, pos).Some? && CommonRlp.Decode(data, pos).value.0.List?
    requires var xs := CommonRlp.Decode(data, pos).value.0.items;
             |ts| == |xs| <= 17 && forall j | 0 <= j < |xs| :: Fit(xs[j], ts[j])
    requires |EncodeAll(ts)| < TWO64
    ensures |Encode(List(ts))| <= CommonRlp.Decode(data, pos).value.1 - pos + 25
  {
    hide FromBigEndian, BigEndian, EncodeAll, Fit, CommonRlp.DecodeItems;
    var c := data[pos] as nat;
    if c <= 0xf7 {
      ItemsTake(data, pos + 1, 0, c - 0xc0, ts);
    } else {
      ItemsTake(data, pos + 1 + (c - 0xf7), 0, CommonRlp.VarInt(data, pos + 1, c - 0xf7).value, ts);
    }
    BigEndianSize8(|EncodeAll(ts)|);
  }

  /** The items of a node that was read, one by one. */
  lemma ItemsFit(hash: HashFn, kept: set<seq<Byte>>, mem: Memory, xs: seq<Item>, t: Node, d: nat)
    requires !MkNode(List(xs)).Hash? && Rep(hash, kept, mem, MkNode(List(xs)), t) && Good(t, d) && (t.Short? || t.Full?)
    ensures var ts := NodeItem(hash, t).items; |ts| == |xs| <= 17 && forall j | 0 <= j < |xs| :: Fit(xs[j], ts[j])
  {
    hide Rep, RefItem, Fit, Compact, FromCompact, EncodeString, Encode;
    var n := MkNode(List(xs));
    RepShape(hash, kept, mem, n, t);
    match t
    case Short(k, c) => ShortFits(hash, kept, mem, xs, k, c, d);
    case Full(kids) =>
      FullDepth(kids, d);
      assert |xs| == 17;
      var ts := NodeItem(hash, t).items;
      forall j | 0 <= j < 17 ensures Fit(xs[j], ts[j]) {
        if j < 16 {
          FitRef(hash, kept, mem, xs[j], kids[j], d - 1);
        } else {
          NilRef(hash);
          FitNil(xs[j]);
        }
      }
  }

  lemma ShortFits(hash: HashFn, kept: set<seq<Byte>>, mem: Memory, xs: seq<Item>, k: Key, c: Node, d: nat)
    requires !MkNode(List(xs)).Hash? && Rep(hash, kept, mem, MkNode(List(xs)), Short(k, c)) && Good(Short(k, c), d)
    ensures var ts := NodeItem(hash, Short(k, c)).items; |ts| == |xs| == 2 && Fit(xs[0], ts[0]) && Fit(xs[1], ts[1])
  {
    hide Rep, RefItem, Fit, Compact, FromCompact, EncodeString, Encode;
    var n := MkNode(List(xs));
    RepShape(hash, kept, mem, n, Short(k, c));
    assert |xs| == 2 && ItemBytes(xs[0]) != [];
    var b := ItemBytes(xs[0]);
    CompactFits(b);
    FitString(xs[0], Compact(k));
    if c.Value? {
      RepShape(hash, kept, mem, n.child, c);
      ValueRef(hash, c.data);
      assert xs[1] == Str(c.data);
      FitString(xs[1], c.data);
    } else {
      NotValue(hash, kept, mem, n.child, c);
      FitRef(hash, kept, mem, xs[1], c, d - |k|);
    }
  }

  lemma NotValue(hash: HashFn, kept: set<seq<Byte>>, mem: Memory, n: Node, t: Node)
    requires Rep(hash, kept, mem, n, t) && !t.Value?
    ensures !n.Value?
  {
    hide Big, RootHash, Encs;
  }

  /** A node read from some data that stands for t: the data has at most 25 bytes less than the encoding of t. */
  lemma ReadSize(hash: HashFn, kept: set<seq<Byte>>, mem: Memory, data: seq<Byte>, t: Node, d: nat)
    requires !NodeOf(data).Hash? && Rep(hash, kept, mem, NodeOf(data), t) && Good(t, d) && (t.Short? || t.Full?)
    requires |Enc(hash, t)| < TWO64
    ensures |Enc(hash, t)| <= |data| + 25
  {
    hide *;
    RepShape(hash, kept, mem, NodeOf(data), t);
    var x := NodeFrom(data);
    StringsAreNoNodes(x);
    ItemsFit(hash, kept, mem, x.items, t, d);
    NodeIsList(hash, t);
    var ts := NodeItem(hash, t).items;
    Overhead(ts);
    ListTakes(data, 0, ts);
    DecodeInside(data, 0);
  }

  lemma NodeFrom(data: seq<Byte>) returns (x: Item)
    requires NodeOf(data).Short? || NodeOf(data).Full?
    ensures CommonRlp.Decode(data, 0).Some? && x == CommonRlp.Decode(data, 0).value.0 && NodeOf(data) == MkNode(x)
  {
    hide MkNode, CommonRlp.Decode;
    x := CommonRlp.Decode(data, 0).value.0;
  }

  lemma StringsAreNoNodes(x: Item)
    ensures x.Str? ==> !MkNode(x).Short? && !MkNode(x).Full?
  {}

  lemma NodeIsList(hash: HashFn, t: Node)
    requires t.Short? || t.Full?
    ensures NodeItem(hash, t).List? && Enc(hash, t) == Encode(List(NodeItem(hash, t).items))
  {
    hide Encode;
  }

  // ---------- the database ----------

  /** What the database gives for each of its keys: what is queued, or what the codec makes of the rest. */
  ghost function Visible(queue: Store.Map, contents: Store.Map): (db: Db)
  {
    map k | k in contents && Rle.Decompressed(Rle.Compressed(contents[k])).Some? ::
      if k in queue then contents[k] else Rle.Decompressed(Rle.Compressed(contents[k])).value
  }

  /** A value that survives the codec, or has not met it. */
  ghost predicate Safe(hash: HashFn, queue: Store.Map, e: seq<Byte>)
  {
    hash(e) in queue || Rle.Faithful(e)
  }

  lemma VisibleAt(hash: HashFn, queue: Store.Map, contents: Store.Map, s: set<seq<Byte>>, e: seq<Byte>)
    requires Stored(hash, contents, s) && e in s
    ensures var db := Visible(queue, contents);
            && hash(e) in db && (db[hash(e)] == e <==> Safe(hash, queue, e))
            && (!Safe(hash, queue, e) ==> |db[hash(e)]| + 219 <= |e|)
  {
    hide Rle.Compressed, Rle.Decompressed, Rle.Faithful;
    Rle.RoundTrip(e);
    Shrinks(e);
  }

  /** Under its hash the database gives a node that stands for t. */
  ghost predicate Comes(hash: HashFn, kept: set<seq<Byte>>, db: Db, t: Node)
  {
    var n := Fetch(db, RootHash(hash, t));
    !n.Hash? && Rep(hash, kept, MemOf(db), n, t)
  }

  /** Whatever the database gives for one of these encodings is the encoding itself or much shorter. */
  ghost predicate Tame(hash: HashFn, kept: set<seq<Byte>>, db: Db)
  {
    forall e | e in kept && hash(e) in db :: db[hash(e)] == e || |db[hash(e)]| + 219 <= |e|
  }

  lemma TameAt(hash: HashFn, kept: set<seq<Byte>>, db: Db, e: seq<Byte>)
    requires Tame(hash, kept, db) && e in kept && hash(e) in db
    ensures db[hash(e)] == e || |db[hash(e)]| + 219 <= |e|
  {}

  lemma VisibleTame(hash: HashFn, queue: Store.Map, contents: Store.Map, s: set<seq<Byte>>)
    requires Stored(hash, contents, s)
    ensures Tame(hash, s, Visible(queue, contents))
  {
    hide Visible, Safe, Stored;
    var db := Visible(queue, contents);
    forall e | e in s && hash(e) in db ensures db[hash(e)] == e || |db[hash(e)]| + 219 <= |e| {
      VisibleAt(hash, queue, contents, s, e);
    }
  }

  /** If t comes back, its own encoding did. */
  lemma OwnBack(hash: HashFn, kept: set<seq<Byte>>, db: Db, t: Node, d: nat)
    requires Good(t, d) && Big(hash, t) && Encs(hash, t) <= kept && Tame(hash, kept, db) && Clashless(hash, kept)
    requires Comes(hash, kept, db, t)
    ensures hash(Enc(hash, t)) in db && db[hash(Enc(hash, t))] == Enc(hash, t)
    ensures Fetch(db, RootHash(hash, t)) == MkNode(NodeItem(hash, t))
  {
    hide *;
    var e := Enc(hash, t);
    OwnIn(hash, t);
    BigShape(hash, t);
    IsThere(hash, kept, db, t);
    EncBound(hash, t, kept);
    TameAt(hash, kept, db, e);
    FetchIs(hash, kept, db, t);
    ReadSize(hash, kept, MemOf(db), db[hash(e)], t, d);
    NodeOfEncode(NodeItem(hash, t));
  }

  lemma IsThere(hash: HashFn, kept: set<seq<Byte>>, db: Db, t: Node)
    requires Comes(hash, kept, db, t) && !t.Nil?
    ensures RootHash(hash, t) in db
  {
    hide RootHash, MemOf;
    if RootHash(hash, t) !in db {
      RepShapeNil(hash, kept, MemOf(db), t);
    }
  }

  lemma BigShape(hash: HashFn, t: Node)
    requires Big(hash, t)
    ensures (t.Short? || t.Full?) && RootHash(hash, t) == hash(Enc(hash, t)) && Enc(hash, t) == Encode(NodeItem(hash, t))
  {}

  lemma FetchIs(hash: HashFn, kept: set<seq<Byte>>, db: Db, t: Node)
    requires RootHash(hash, t) in db
    ensures Fetch(db, RootHash(hash, t)) == NodeOf(db[RootHash(hash, t)])
    ensures Comes(hash, kept, db, t) ==>
              !NodeOf(db[RootHash(hash, t)]).Hash? && Rep(hash, kept, MemOf(db), NodeOf(db[RootHash(hash, t)]), t)
  {
    hide Rep, NodeOf, RootHash, MemOf;
  }

  /** Nothing below a small node is stored on its own. */
  lemma {:induction false} SmallHasNone(hash: HashFn, t: Node)
    requires !Big(hash, t)
    ensures Encs(hash, t) == {}
    decreases t
  {
    hide Enc, RefItem;
    match t
    case Short(k, c) =>
      NodeIsList(hash, t);
      ChildSmall(hash, t, c, 1);
      SmallHasNone(hash, c);
    case Full(kids) =>
      NodeIsList(hash, t);
      forall i | 0 <= i < |kids| ensures Encs(hash, kids[i]) == {} {
        ChildSmall(hash, t, kids[i], i);
        SmallHasNone(hash, kids[i]);
      }
    case _ =>
  }

  lemma ChildSmall(hash: HashFn, t: Node, c: Node, i: nat)
    requires !Big(hash, t) && (t.Short? || t.Full?) && NodeItem(hash, t).List?
    requires i < |NodeItem(hash, t).items| && NodeItem(hash, t).items[i] == RefItem(hash, c)
    ensures !Big(hash, c)
  {
    hide NodeItem, EncodeAll, EncodeString;
    var xs := NodeItem(hash, t).items;
    OneOfAll(xs, i);
    Overhead(xs);
    if Big(hash, c) {
      StringSize(RootHash(hash, c));
      LongString(RootHash(hash, c));
    }
  }

  lemma LongString(b: seq<Byte>)
    requires |b| == 32
    ensures |EncodeString(b)| == 33
  {}

  /** If t comes back, so did everything that is stored of it. */
  lemma {:induction false} AllBack(hash: HashFn, kept: set<seq<Byte>>, db: Db, t: Node, d: nat, e: seq<Byte>)
    requires Good(t, d) && Big(hash, t) && Encs(hash, t) <= kept && Tame(hash, kept, db) && Clashless(hash, kept)
    requires Comes(hash, kept, db, t) && e in Encs(hash, t)
    ensures hash(e) in db && db[hash(e)] == e
    decreases t, 1
  {
    hide *;
    OwnBack(hash, kept, db, t, d);
    var n := MkNode(NodeItem(hash, t));
    ComesIs(hash, kept, db, t, n);
    RepShape(hash, kept, MemOf(db), n, t);
    if e != Enc(hash, t) {
      var c, dc := ChildOf(hash, t, d, e, n);
      assert Rep(hash, kept, MemOf(db), MkNode(RefItem(hash, c)), c);
      RefBack(hash, kept, db, c, dc, e);
    }
  }

  lemma ComesIs(hash: HashFn, kept: set<seq<Byte>>, db: Db, t: Node, n: Node)
    requires Comes(hash, kept, db, t) && n == Fetch(db, RootHash(hash, t))
    ensures !n.Hash? && Rep(hash, kept, MemOf(db), n, t)
  {
    hide Rep, Fetch, RootHash, MemOf;
  }

  /** The child whose encodings hold e, and how the node that was read refers to it. */
  lemma ChildOf(hash: HashFn, t: Node, d: nat, e: seq<Byte>, n: Node) returns (c: Node, dc: nat)
    requires Good(t, d) && Big(hash, t) && e in Encs(hash, t) && e != Enc(hash, t) && n == MkNode(NodeItem(hash, t))
    ensures Good(c, dc) && e in Encs(hash, c) && Encs(hash, c) <= Encs(hash, t)
    ensures if t.Short? then c == t.child && n.Short? && n.child == MkNode(RefItem(hash, c)) && c < t
            else t.Full? && n.Full? && |n.kids| == |t.kids|
                 && exists i | 0 <= i < |t.kids| :: t.kids[i] == c && n.kids[i] == MkNode(RefItem(hash, c))
  {
    hide MkNode, NodeItem, RefItem, Enc, Good;
    match t
    case Short(k, k1) =>
      c := k1;
      dc := ChildDepth(k, c, d);
      MkNodeOfShort(hash, k, c);
      EncsChild(hash, t, c);
    case Full(kids) =>
      FullDepth(kids, d);
      MkNodeOfFull(hash, kids);
      var i :| 0 <= i < |kids| && e in Encs(hash, kids[i]);
      c, dc := kids[i], d - 1;
      EncsChild(hash, t, c);
  }

  lemma ChildDepth(k: Key, c: Node, d: nat) returns (dc: nat)
    requires Good(Short(k, c), d) && !c.Value?
    ensures Good(c, dc) && k != [] && Trie.Plain(k)
  {
    dc := d - |k|;
  }

  lemma {:induction false} RefBack(hash: HashFn, kept: set<seq<Byte>>, db: Db, t: Node, d: nat, e: seq<Byte>)
    requires Good(t, d) && Encs(hash, t) <= kept && Tame(hash, kept, db) && Clashless(hash, kept)
    requires Rep(hash, kept, MemOf(db), MkNode(RefItem(hash, t)), t) && e in Encs(hash, t)
    ensures hash(e) in db && db[hash(e)] == e
    decreases t, 2
  {
    hide *;
    if Big(hash, t) {
      ComesBehind(hash, kept, db, t);
      AllBack(hash, kept, db, t, d, e);
    } else {
      SmallHasNone(hash, t);
    }
  }

  lemma ComesBehind(hash: HashFn, kept: set<seq<Byte>>, db: Db, t: Node)
    requires Big(hash, t) && Rep(hash, kept, MemOf(db), MkNode(RefItem(hash, t)), t)
    ensures Comes(hash, kept, db, t)
  {
    hide Enc, Encs, NodeOf;
    MkNodeOfHash(RootHash(hash, t));
  }

  /** A tree can be opened under its root hash exactly when all that is stored of it is there. */
  lemma ComesIff(hash: HashFn, db: Db, t: Node, d: nat)
    requires Good(t, d) && Big(hash, t) && Tame(hash, Encs(hash, t), db) && Clashless(hash, Encs(hash, t))
    ensures Comes(hash, Encs(hash, t), db, t) <==> Stored(hash, db, Encs(hash, t))
  {
    var s := Encs(hash, t);
    hide *;
    if Comes(hash, s, db, t) {
      forall e | e in s ensures hash(e) in db && db[hash(e)] == e {
        AllBack(hash, s, db, t, d, e);
      }
      AllStored(hash, db, s);
    }
    if Stored(hash, db, s) {
      FetchBig(hash, db, t, d, RootHash(hash, t));
      ItComes(hash, s, db, t);
    }
  }

  lemma AllStored(hash: HashFn, db: Db, s: set<seq<Byte>>)
    requires forall e | e in s :: hash(e) in db && db[hash(e)] == e
    ensures Stored(hash, db, s)
  {}

  /**
   A trie whose encodings were put into the database can be opened from it under its root hash exactly when
   each of them is still queued or holds no run of 251 to 253 zeros that the codec takes as one chunk.
   */
  lemma ReopenIff(hash: HashFn, queue: Store.Map, contents: Store.Map, t: Node, d: nat)
    requires Good(t, d) && Big(hash, t) && Stored(hash, contents, Encs(hash, t)) && Clashless(hash, Encs(hash, t))
    ensures Comes(hash, Encs(hash, t), Visible(queue, contents), t) <==> forall e | e in Encs(hash, t) :: Safe(hash, queue, e)
  {
    hide *;
    var s, db := Encs(hash, t), Visible(queue, contents);
    VisibleTame(hash, queue, contents, s);
    ComesIff(hash, db, t, d);
    forall e | e in s ensures hash(e) in db && (db[hash(e)] == e <==> Safe(hash, queue, e)) {
      VisibleAt(hash, queue, contents, s, e);
    }
    if Stored(hash, db, s) {
      forall e | e in s ensures db[hash(e)] == e {
        StoredAt(hash, db, s, e, hash(e));
      }
    }
    if forall e | e in s :: Safe(hash, queue, e) {
      AllStored(hash, db, s);
    }
  }

  lemma ItComes(hash: HashFn, kept: set<seq<Byte>>, db: Db, t: Node)
    requires var n := Fetch(db, RootHash(hash, t)); !n.Hash? && Rep(hash, kept, MemOf(db), n, t)
    ensures Comes(hash, kept, db, t)
  {}

  /** Visible is what Get returns. */
  method Look(db: Store.Database, key: seq<Byte>) returns (r: Option<seq<Byte>>)
    requires db.Valid()
    ensures var v := Visible(db.queue, db.contents); r == if key in v then Some(v[key]) else None
  {
    hide Rle.Compressed, Rle.Decompressed, Rle.Faithful;
    r := db.Get(key);
    if key in db.contents {
      Rle.RoundTrip(db.contents[key]);
    }
  }

  // ---------- a trie that does not come back ----------

  /** Bytes that the codec leaves alone wherever they stand. */
  ghost predicate Inert(p: seq<Byte>)
  {
    forall i | 0 <= i < |p| :: p[i] !in {0, Rle.TOKEN, 0xC5, 0x56}
  }

  lemma {:induction false} InertPrefix(p: seq<Byte>, d: seq<Byte>)
    requires Inert(p)
    ensures Rle.Faithful(p + d) <==> Rle.Faithful(d)
    decreases |p|
  {
    if p == [] {
      assert p + d == d;
    } else {
      var e := p + d;
      assert e[0] == p[0] && e[1..] == p[1..] + d;
      assert Rle.Taken(e) == 1;
      InertPrefix(p[1..], d);
    }
  }

  lemma {:induction false} PackOnes(k: nat)
    ensures Pack(seq(2 * k, _ => 1)) == seq(k, _ => 0x11)
  {
    if k > 0 {
      var h := seq(2 * k, _ => 1 as Byte);
      assert h[2..] == seq(2 * (k - 1), _ => 1);
      PackOnes(k - 1);
      assert Pack(h) == [Join(1, 1)] + Pack(h[2..]);
      assert seq(k, _ => 0x11 as Byte) == [0x11] + seq(k - 1, _ => 0x11);
    }
  }

  lemma {:induction false} UnpackOnes(k: nat)
    ensures Unpack(seq(k, _ => 0x11)) == seq(2 * k, _ => 1)
  {
    if k > 0 {
      var b := seq(k, _ => 0x11 as Byte);
      assert b[1..] == seq(k - 1, _ => 0x11);
      UnpackOnes(k - 1);
      assert seq(2 * k, _ => 1 as Byte) == [1, 1] + seq(2 * (k - 1), _ => 1);
    }
  }

  /** One key of 32 bytes, each 0x11, with 251 zeros under it. */
  function Lost(): (t: Node)
  {
    Short(ToKey(seq(32, _ => 0x11)), Value(Rle.Zeros(251)))
  }

  lemma LostKey()
    ensures Compact(ToKey(seq(32, _ => 0x11))) == [0x20] + seq(32, _ => 0x11)
  {
    hide Pack, Unpack;
    var b := seq(32, _ => 0x11 as Byte);
    UnpackOnes(32);
    PackOnes(32);
    var k := ToKey(b);
    assert Body(k) == Unpack(b);
    assert Flags(k) == [2, 0];
    PackTwo(2, 0, Unpack(b));
  }

  lemma PackTwo(hi: Byte, lo: Byte, h: seq<Byte>)
    requires |h| % 2 == 0
    ensures Pack([hi, lo] + h) == [Join(hi, lo)] + Pack(h)
  {
    assert ([hi, lo] + h)[2..] == h;
  }

  /** A list of a string of 33 and one of 251 bytes. */
  lemma TwoStrings(k: seq<Byte>, v: seq<Byte>)
    requires |k| == 33 && |v| == 251
    ensures Encode(List([Str(k), Str(v)])) == [0xF9, 0x01, 0x1F] + (([0xA1] + k) + ([0xB8, 0xFB] + v))
  {
    hide *;
    StringOf33(k);
    StringOf251(v);
    OneItem(Str(k));
    OneItem(Str(v));
    EncodeAllConcat([Str(k)], [Str(v)]);
    assert [Str(k), Str(v)] == [Str(k)] + [Str(v)];
    ListOf287([Str(k), Str(v)]);
  }

  lemma StringOf33(k: seq<Byte>)
    requires |k| == 33
    ensures Encode(Str(k)) == [0xA1] + k
  {}

  lemma StringOf251(v: seq<Byte>)
    requires |v| == 251
    ensures Encode(Str(v)) == [0xB8, 0xFB] + v
  {
    hide BigEndian;
    TwoSizes();
  }

  lemma ListOf287(xs: seq<Item>)
    requires |EncodeAll(xs)| == 287
    ensures Encode(List(xs)) == [0xF9, 0x01, 0x1F] + EncodeAll(xs)
  {
    hide BigEndian, EncodeAll;
    TwoSizes();
  }

  lemma TwoSizes()
    ensures BigEndian(251) == [251] && BigEndian(287) == [1, 31]
  {
    assert BigEndian(1) == [1];
  }

  lemma OneItem(x: Item)
    ensures EncodeAll([x]) == Encode(x)
  {
    assert [x][1..] == [];
  }

  ghost function LostHead(): (p: seq<Byte>)
  {
    [0xF9, 0x01, 0x1F] + (([0xA1] + Compact(ToKey(seq(32, _ => 0x11)))) + [0xB8, 0xFB])
  }

  lemma LostEnc(hash: HashFn)
    ensures |LostHead()| == 39 && Inert(LostHead()) && Enc(hash, Lost()) == LostHead() + Rle.Zeros(251)
  {
    hide Compact, ToKey, Encode;
    LostKey();
    var b, v := Compact(ToKey(seq(32, _ => 0x11))), Rle.Zeros(251);
    ValueRef(hash, v);
    assert NodeItem(hash, Lost()) == List([Str(b), Str(v)]);
    TwoStrings(b, v);
    assert ([0xF9, 0x01, 0x1F] + (([0xA1] + b) + [0xB8, 0xFB])) + v == [0xF9, 0x01, 0x1F] + (([0xA1] + b) + ([0xB8, 0xFB] + v));
  }

  /** Its only stored encoding does not survive the codec, so it cannot be opened again once it is on disk. */
  lemma LostExample(hash: HashFn, contents: Store.Map)
    requires Stored(hash, contents, Encs(hash, Lost()))
    ensures Encs(hash, Lost()) == {Enc(hash, Lost())}
    ensures !Comes(hash, Encs(hash, Lost()), Visible(map[], contents), Lost())
  {
    hide *;
    var t := Lost();
    LostEnc(hash);
    LostGood();
    InertPrefix(LostHead(), Rle.Zeros(251));
    Rle.UnluckyExample();
    LostEncs(hash);
    OneClash(hash, Enc(hash, t));
    ReopenIff(hash, map[], contents, t, 65);
    NotSafe(hash, Enc(hash, t));
    assert Enc(hash, t) in {Enc(hash, t)};
  }

  lemma LostGood()
    ensures Good(Lost(), 65)
  {
    assert Rle.Zeros(251) != [];
    hide Unpack;
  }

  lemma LostEncs(hash: HashFn)
    requires |Enc(hash, Lost())| >= 32
    ensures Encs(hash, Lost()) == {Enc(hash, Lost())} && Big(hash, Lost())
  {
    hide Enc;
  }

  lemma OneClash(hash: HashFn, e: seq<Byte>)
    requires |e| == 290
    ensures Clashless(hash, {e})
  {}

  lemma NotSafe(hash: HashFn, e: seq<Byte>)
    ensures Safe(hash, map[], e) <==> Rle.Faithful(e)
  {}
}
