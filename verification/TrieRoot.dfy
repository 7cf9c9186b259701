/** What the root hash says: it fixes the contents, and a trie of 32-byte keys is always stored under it. */
module TrieRoot {
  import opened Bytes
  import opened RlpSpec
  import opened Trie
  import opened TrieCanon
  import opened TrieDelete
  import opened TrieEnc
  import opened HexPrefix
  import opened TrieStore

  // ---------- the encoding fixes the tree ----------

  /** Equal encodings, no collisions: equal trees, embedded and hashed children alike. */
  lemma {:induction false} EncFixesTree(hash: HashFn, a: Node, da: nat, b: Node, db: nat)
    requires Good(a, da) && Good(b, db) && Clashless(hash, Encs(hash, a) + Encs(hash, b))
    requires (a.Short? || a.Full?) && (b.Short? || b.Full?)
    requires Enc(hash, a) == Enc(hash, b)
    ensures a == b
    decreases a, 1
  {
    hide *;
    EncBound(hash, a, Encs(hash, a) + Encs(hash, b));
    SameItem(hash, a, b);
    if a.Short? {
      ShortItems(hash, a, da, b, db);
      ShortFixesTree(hash, a, da, b, db);
    } else {
      FullItems(hash, a, da, b, db);
      FullFixesTree(hash, a, da, b, db);
    }
  }

  lemma {:induction false} ShortFixesTree(hash: HashFn, a: Node, da: nat, b: Node, db: nat)
    requires Good(a, da) && Good(b, db) && Clashless(hash, Encs(hash, a) + Encs(hash, b)) && a.Short? && b.Short?
    requires a.key == b.key && RefItem(hash, a.child) == RefItem(hash, b.child)
    ensures a == b
    decreases a, 0
  {
    hide *;
    ShortChild(hash, a, da, b, db);
    if a.child.Full? {
      ClashlessKids(hash, a, a.child, b, b.child);
      RefFixesTree(hash, a.child, da - |a.key|, b.child, db - |b.key|);
    }
    assert a == Short(a.key, a.child) && b == Short(b.key, b.child);
  }

  lemma {:induction false} FullFixesTree(hash: HashFn, a: Node, da: nat, b: Node, db: nat)
    requires Good(a, da) && Good(b, db) && Clashless(hash, Encs(hash, a) + Encs(hash, b))
    requires a.Full? && b.Full? && |a.kids| == 17 == |b.kids|
    requires forall i | 0 <= i < 17 :: RefItem(hash, a.kids[i]) == RefItem(hash, b.kids[i])
    ensures a == b
    decreases a, 0
  {
    hide *;
    FullDepth(a.kids, da);
    FullDepth(b.kids, db);
    forall i | 0 <= i < 17 ensures a.kids[i] == b.kids[i] {
      if i < 16 {
        ClashlessKids(hash, a, a.kids[i], b, b.kids[i]);
        RefFixesTree(hash, a.kids[i], da - 1, b.kids[i], db - 1);
      }
    }
    assert a.kids == b.kids;
  }

  lemma {:induction false} RefFixesTree(hash: HashFn, a: Node, da: nat, b: Node, db: nat)
    requires Good(a, da) && Good(b, db) && Clashless(hash, Encs(hash, a) + Encs(hash, b))
    requires RefItem(hash, a) == RefItem(hash, b)
    ensures a == b
    decreases a, 2
  {
    hide Encs, Clashless, Canon, Uniform, NodeItem, RefItem;
    RefCases(hash, a, da);
    RefCases(hash, b, db);
    if !a.Nil? && !b.Nil? {
      if Big(hash, a) {
        OwnIn(hash, a);
        OwnIn(hash, b);
        SameHash(hash, Encs(hash, a) + Encs(hash, b), Enc(hash, a), Enc(hash, b));
      }
      assert Enc(hash, a) == Enc(hash, b);
      EncFixesTree(hash, a, da, b, db);
    }
  }

  lemma SameItem(hash: HashFn, a: Node, b: Node)
    requires Enc(hash, a) == Enc(hash, b) && |Enc(hash, a)| < TWO64
    ensures NodeItem(hash, a) == NodeItem(hash, b)
  {
    hide NodeItem, Encode;
    EncodeInjective(NodeItem(hash, a), NodeItem(hash, b));
  }

  lemma SameHash(hash: HashFn, s: set<seq<Byte>>, a: seq<Byte>, b: seq<Byte>)
    requires a in s && b in s && Clashless(hash, s) && hash(a) == hash(b)
    ensures a == b
  {}

  /** The reference to nil is empty, to a stored node 32 bytes, to an embedded node a list. */
  lemma RefCases(hash: HashFn, n: Node, d: nat)
    requires Good(n, d)
    ensures n.Nil? || n.Short? || n.Full?
    ensures n.Nil? ==> RefItem(hash, n) == Str([])
    ensures !n.Nil? && Big(hash, n) ==> RefItem(hash, n) == Str(RootHash(hash, n)) && |RefItem(hash, n).bytes| == 32
    ensures !n.Nil? && !Big(hash, n) ==> RefItem(hash, n).List? && RefItem(hash, n) == NodeItem(hash, n)
  {
    hide Enc, Uniform;
  }

  lemma EncBound(hash: HashFn, n: Node, s: set<seq<Byte>>)
    requires (n.Short? || n.Full?) && Encs(hash, n) <= s && Clashless(hash, s)
    ensures |Enc(hash, n)| < TWO64
  {
    if Big(hash, n) {
      OwnIn(hash, n);
    }
  }

  lemma ClashlessKids(hash: HashFn, a: Node, ca: Node, b: Node, cb: Node)
    requires Clashless(hash, Encs(hash, a) + Encs(hash, b))
    requires (a.Short? && ca == a.child) || (a.Full? && ca in a.kids)
    requires (b.Short? && cb == b.child) || (b.Full? && cb in b.kids)
    ensures Clashless(hash, Encs(hash, ca) + Encs(hash, cb))
  {
    EncsChild(hash, a, ca);
    EncsChild(hash, b, cb);
    hide Encs, Clashless;
    Smaller(hash, map[], Encs(hash, ca) + Encs(hash, cb), Encs(hash, a) + Encs(hash, b));
  }

  lemma GoodShort(n: Node, d: nat)
    requires Good(n, d) && n.Short?
    ensures n.key != [] && (n.child.Value? || n.child.Full?)
    ensures if n.child.Value? then Terminated(n.key) else Trie.Plain(n.key)
    ensures n.child.Full? ==> |n.key| <= d && Good(n.child, d - |n.key|)
  {}

  lemma ItemShape(hash: HashFn, n: Node)
    requires (n.Short? && n.key != []) || n.Full?
    ensures n.Short? ==> NodeItem(hash, n) == List([Str(Compact(n.key)), RefItem(hash, n.child)])
    ensures n.Full? ==> NodeItem(hash, n).List? && |NodeItem(hash, n).items| == |n.kids|
  {
    hide RefItem, Compact;
  }

  lemma ShortItems(hash: HashFn, a: Node, da: nat, b: Node, db: nat)
    requires Good(a, da) && Good(b, db) && a.Short? && (b.Short? || b.Full?) && NodeItem(hash, a) == NodeItem(hash, b)
    ensures b.Short? && a.key == b.key && RefItem(hash, a.child) == RefItem(hash, b.child)
  {
    GoodShort(a, da);
    CompactRoundTrip(a.key);
    ItemShape(hash, a);
    if b.Full? {
      ItemShape(hash, b);
      assert false;
    }
    GoodShort(b, db);
    ItemShape(hash, b);
    CompactRoundTrip(b.key);
    hide *;
    var x, y := NodeItem(hash, a).items, NodeItem(hash, b).items;
    assert x[0] == y[0] && x[1] == y[1];
  }

  lemma ShortChild(hash: HashFn, a: Node, da: nat, b: Node, db: nat)
    requires Good(a, da) && Good(b, db) && a.Short? && b.Short?
    requires a.key == b.key && RefItem(hash, a.child) == RefItem(hash, b.child)
    ensures (a.child.Full? || a.child.Value?) && (a.child.Full? <==> b.child.Full?)
    ensures a.child.Value? ==> a.child == b.child
    ensures a.child.Full? ==> |a.key| <= da && Good(a.child, da - |a.key|)
    ensures b.child.Full? ==> |b.key| <= db && Good(b.child, db - |b.key|)
  {
    GoodShort(a, da);
    GoodShort(b, db);
    TermOrPlain(a.key, a.child);
    TermOrPlain(b.key, b.child);
    hide Good, Terminated, Trie.Plain;
  }

  lemma FullItems(hash: HashFn, a: Node, da: nat, b: Node, db: nat)
    requires Good(a, da) && Good(b, db) && a.Full? && (b.Short? || b.Full?) && NodeItem(hash, a) == NodeItem(hash, b)
    ensures b.Full? && |a.kids| == 17 == |b.kids|
    ensures forall i | 0 <= i < 17 :: RefItem(hash, a.kids[i]) == RefItem(hash, b.kids[i])
  {
    hide RefItem, Uniform;
    var xs, ys := NodeItem(hash, a).items, NodeItem(hash, b).items;
    assert |xs| == 17 && |ys| == 17;
    forall i | 0 <= i < 17 ensures RefItem(hash, a.kids[i]) == RefItem(hash, b.kids[i]) {
      assert xs[i] == ys[i];
    }
  }

  // ---------- a trie of 32-byte keys is stored under its root hash ----------

  lemma EncodeSize(x: Item)
    ensures |Encode(x)| >= 1
    ensures x.Str? ==> |Encode(x)| >= |x.bytes|
    ensures x.Str? && |x.bytes| == 32 ==> |Encode(x)| == 33
    ensures x.List? ==> |Encode(x)| >= 1 + |EncodeAll(x.items)|
  {}

  lemma {:induction false} EncodeAllSize(xs: seq<Item>, i: nat)
    requires i < |xs|
    ensures |EncodeAll(xs)| >= |Encode(xs[i])| + |xs| - 1
  {
    hide Encode;
    EncodeSize(xs[0]);
    if i > 0 {
      EncodeAllSize(xs[1..], i - 1);
    } else {
      EncodeAllAtLeast(xs[1..]);
    }
  }

  lemma {:induction false} EncodeAllAtLeast(xs: seq<Item>)
    ensures |EncodeAll(xs)| >= |xs|
  {
    hide Encode;
    if xs != [] {
      EncodeSize(xs[0]);
      EncodeAllAtLeast(xs[1..]);
    }
  }

  lemma CompactSize(k: Key)
    requires k != []
    ensures |Compact(k)| >= |k| / 2
  {}

  /** How many bytes a node with keys of length d takes at least. */
  function Least(d: nat): (n: nat)
  {
    if d / 2 + 2 < 32 then d / 2 + 2 else 32
  }

  lemma EncIs(hash: HashFn, n: Node)
    ensures Enc(hash, n) == Encode(NodeItem(hash, n))
  {}

  lemma BigIf(hash: HashFn, n: Node)
    requires (n.Short? || n.Full?) && |Enc(hash, n)| >= 32
    ensures Big(hash, n)
  {}

  lemma LeastMost(d: nat)
    ensures Least(d) <= 32
  {}

  lemma LeastEnough(d: nat)
    requires d >= 60
    ensures Least(d) == 32
  {}

  lemma LeastSum(a: nat, b: nat)
    ensures 1 + a / 2 + Least(b) >= Least(a + b)
    ensures 1 + a / 2 + 1 >= Least(a)
  {}

  lemma GoodShape(n: Node, d: nat)
    requires Good(n, d)
    ensures n.Nil? || n.Short? || n.Full?
  {
    hide Uniform;
  }

  lemma {:induction false} EncSize(hash: HashFn, n: Node, d: nat)
    requires Good(n, d) && !n.Nil?
    ensures |Enc(hash, n)| >= Least(d)
    decreases n, 1
  {
    hide *;
    GoodShape(n, d);
    if n.Short? {
      EncSizeShort(hash, n, d);
    } else {
      FullDepth(n.kids, d);
      var i := SomeKid(n, d);
      RefSize(hash, n.kids[i], d - 1);
      EncSizeFull(hash, n, d, i);
    }
  }

  lemma {:induction false} EncSizeShort(hash: HashFn, n: Node, d: nat)
    requires Good(n, d) && n.Short?
    ensures |Enc(hash, n)| >= Least(d)
    decreases n, 0
  {
    hide *;
    ListSize(hash, n, d);
    ItemSize(hash, n, d);
    GoodShort(n, d);
    if n.child.Full? {
      RefSize(hash, n.child, d - |n.key|);
      LeastSum(|n.key|, d - |n.key|);
    } else {
      EncodeSize(RefItem(hash, n.child));
      LeafDepth(n, d);
      LeastSum(d, 0);
    }
  }

  lemma EncSizeFull(hash: HashFn, n: Node, d: nat, i: nat)
    requires Good(n, d) && n.Full? && i < |n.kids| && d > 0 && |Encode(RefItem(hash, n.kids[i]))| >= Least(d - 1)
    ensures |Enc(hash, n)| >= Least(d)
  {
    hide *;
    ListSize(hash, n, d);
    ItemSize(hash, n, d);
    LeastSum(1, d - 1);
  }

  lemma ListSize(hash: HashFn, n: Node, d: nat)
    requires Good(n, d) && (n.Short? || n.Full?)
    ensures NodeItem(hash, n).List? && |Enc(hash, n)| >= 1 + |EncodeAll(NodeItem(hash, n).items)|
  {
    hide *;
    ItemSize(hash, n, d);
    EncIs(hash, n);
    EncodeSize(NodeItem(hash, n));
  }

  lemma ItemSize(hash: HashFn, n: Node, d: nat)
    requires Good(n, d) && (n.Short? || n.Full?)
    ensures NodeItem(hash, n).List?
    ensures n.Short? ==> |EncodeAll(NodeItem(hash, n).items)| >= |n.key| / 2 + |Encode(RefItem(hash, n.child))|
    ensures n.Full? ==>
      forall i | 0 <= i < |n.kids| :: |EncodeAll(NodeItem(hash, n).items)| >= |Encode(RefItem(hash, n.kids[i]))| + 16
  {
    if n.Short? {
      GoodShort(n, d);
      ItemShape(hash, n);
      hide *;
      ShortSize(Str(Compact(n.key)), RefItem(hash, n.child));
      CompactSize(n.key);
      EncodeSize(Str(Compact(n.key)));
    } else {
      FullDepth(n.kids, d);
      hide Good, Encode, EncodeAll, RefItem;
      var x := NodeItem(hash, n);
      forall i | 0 <= i < |n.kids| ensures |EncodeAll(x.items)| >= |Encode(RefItem(hash, n.kids[i]))| + 16 {
        assert x.items[i] == RefItem(hash, n.kids[i]);
        EncodeAllSize(x.items, i);
      }
    }
  }

  lemma {:induction false} RefSize(hash: HashFn, n: Node, d: nat)
    requires Good(n, d) && !n.Nil?
    ensures |Encode(RefItem(hash, n))| >= Least(d)
    decreases n, 2
  {
    hide *;
    RefCases(hash, n, d);
    EncSize(hash, n, d);
    EncIs(hash, n);
    EncodeSize(RefItem(hash, n));
    LeastMost(d);
  }

  lemma ShortSize(x: Item, y: Item)
    ensures |EncodeAll([x, y])| == |Encode(x)| + |Encode(y)|
  {
    hide Encode;
    assert [x, y][1..] == [y];
    assert [y][1..] == [];
    assert EncodeAll([y]) == Encode(y);
  }

  lemma LeafDepth(n: Node, d: nat)
    requires Good(n, d) && n.Short? && n.child.Value?
    ensures |n.key| == d
  {
    assert Uniform(n.child, d - |n.key|);
  }

  lemma SomeKid(n: Node, d: nat) returns (i: nat)
    requires n.Full? && Good(n, d)
    ensures i < |n.kids| && !n.kids[i].Nil?
  {
    var a, b :| 0 <= a < b < |n.kids| && !n.kids[a].Nil? && !n.kids[b].Nil?;
    i := a;
  }

  /** Keys of 30 bytes or more make every nonempty trie large enough to be stored under its root hash. */
  lemma RootIsBig(hash: HashFn, t: Node, d: nat)
    requires Good(t, d) && !t.Nil? && d >= 61
    ensures Big(hash, t)
  {
    hide *;
    EncSize(hash, t, d);
    GoodShape(t, d);
    LeastEnough(d);
    BigIf(hash, t);
  }

  /** Shorter keys need not: a trie with one two-byte key is hashed but never stored. */
  lemma SmallRoot(hash: HashFn)
    ensures var t := Short(ToKey([1, 2]), Value([7]));
            Good(t, 5) && !Big(hash, t)
  {
    hide Unpack, Pack;
    var k, v := ToKey([1, 2]), Value([7]);
    var t := Short(k, v);
    assert Uniform(v, 0);
    var x, y := Str(Compact(k)), RefItem(hash, v);
    ShortSize(x, y);
    assert |x.bytes| == 3 && y == Str([7]);
    assert NodeItem(hash, t) == List([x, y]);
  }
}
