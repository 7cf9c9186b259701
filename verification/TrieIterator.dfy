/**
 The iterator: each step gives the least key past the current one, so a walk lists every key of
 the trie once, in ascending order, with its value.
 */
module TrieIterator {
  import opened Bytes
  import opened Trie
  import opened TrieCanon
  import opened TrieDelete
  import opened TrieEnc
  import opened TrieLazy
  import opened TrieStore
  import opened TrieRuns
  import opened TrieHash
  import opened TrieOrder
  import opened TrieDirty
  import opened TrieObject
  import opened HexPrefix

  lemma GoodLeaf(k: Key, c: Node, d: nat)
    requires Good(Short(k, c), d)
    ensures k != [] && |k| <= d && (c.Value? || c.Full?) && Canon(Short(k, c))
    ensures c.Value? ==> Terminated(k) && |k| == d && Body(k) == k[..|k| - 1]
    ensures c.Full? ==> Body(k) == k && Good(c, d - |k|) && Trie.Plain(k)
  {
    assert Uniform(c, d - |k|);
  }

  class Iterator {
    const trie: MerkleTrie
    var key: Option<seq<Byte>>
    var value: seq<Byte>

    constructor (trie: MerkleTrie)
      ensures this.trie == trie && key == None
    {
      this.trie, key, value := trie, None, [];
    }

    ghost predicate Stands(n: Node, t: Node, d: nat)
      reads trie, trie.backend
    {
      !n.Hash? && Rep(trie.hash, trie.kept, MemOf(trie.Seen()), n, t) && Good(t, d)
    }

    ghost function Found(k: Option<Key>): (r: Option<Hit>)
      reads this
    {
      if k.None? then None else Some(Hit(k.value, value))
    }

    /** What loading the child of a short node, or a slot of a full one, gives. */
    lemma StandsChild(n: Node, t: Node, d: nat)
      requires Stands(n, t, d)
      ensures n.Nil? || n.Short? || n.Full?
      ensures (n.Nil? <==> t.Nil?) && (n.Short? <==> t.Short?) && (n.Full? <==> t.Full?)
      ensures t.Short? && t.child.Value? ==> n.key == t.key && n.child == t.child
      ensures t.Short? && t.child.Full? ==>
        n.key == t.key && |t.key| <= d && Stands(Trans(MemOf(trie.Seen()), n.child), t.child, d - |t.key|)
      ensures t.Full? ==> |n.kids| == 17 && |t.kids| == 17 && d > 1 && t.kids[16].Nil?
      ensures t.Full? ==>
        forall i | 0 <= i < 17 :: Stands(Trans(MemOf(trie.Seen()), n.kids[i]), t.kids[i], d - 1)
    {
      hide MemOf, Rep;
      var mem := MemOf(trie.Seen());
      RepShape(trie.hash, trie.kept, mem, n, t);
      if t.Short? {
        GoodLeaf(t.key, t.child, d);
        TransRep(trie.hash, trie.kept, mem, n.child, t.child);
        RepShape(trie.hash, trie.kept, mem, n.child, t.child);
      }
      if t.Full? {
        FullDepth(t.kids, d);
        forall i | 0 <= i < 17 ensures Stands(Trans(mem, n.kids[i]), t.kids[i], d - 1) {
          TransRep(trie.hash, trie.kept, mem, n.kids[i], t.kids[i]);
        }
      }
    }

    /** key: the least key below a node. */
    method First(n: Node, ghost t: Node, ghost d: nat) returns (k: Option<Key>)
      requires Stands(n, t, d)
      modifies `value
      ensures Best(t, Anything, Found(k)) && (k.None? <==> t.Nil?)
      decreases t, 2
    {
      hide Best, MemOf, Stands;
      StandsChild(n, t, d);
      match n
      case Short(nk, c) =>
        k := FirstShort(n, t, d);
      case Full(kids) =>
        k := FirstFull(n, t, d);
      case _ =>
        k := None;
        NilBest(Anything);
    }

    method FirstShort(n: Node, ghost t: Node, ghost d: nat) returns (k: Option<Key>)
      requires Stands(n, t, d) && n.Short? && t.Short?
      modifies `value
      ensures Best(t, Anything, Found(k)) && k.Some?
      decreases t, 1
    {
      StandsGood(n, t, d);
      hide *;
      StandsChild(n, t, d);
      GoodLeaf(t.key, t.child, d);
      if n.child.Value? {
        value := n.child.data;
        k := Some(Body(n.key));
        BestLeaf(t.key, t.child, Anything);
        FoundLeaf(k);
      } else {
        k := FirstExt(n, t, d);
      }
    }

    lemma FoundLeaf(k: Option<Key>)
      requires k.Some?
      ensures Found(k) == Some(Hit(k.value, value))
    {}

    method FirstExt(n: Node, ghost t: Node, ghost d: nat) returns (k: Option<Key>)
      requires Stands(n, t, d) && n.Short? && t.Short? && t.child.Full?
      modifies `value
      ensures Best(t, Anything, Found(k)) && k.Some?
      decreases t, 0
    {
      StandsGood(n, t, d);
      hide Best, MemOf, Stands, Good, Canon, Terminated;
      StandsChild(n, t, d);
      GoodLeaf(t.key, t.child, d);
      var rest := First(Trans(MemOf(trie.Seen()), n.child), t.child, d - |t.key|);
      k := Some(Body(n.key) + if rest.Some? then rest.value else []);
      BestExt(t.key, t.child, d, Anything, Found(rest));
    }

    lemma StandsGood(n: Node, t: Node, d: nat)
      requires Stands(n, t, d)
      ensures Good(t, d)
    {}

    method FirstFull(n: Node, ghost t: Node, ghost d: nat) returns (k: Option<Key>)
      requires Stands(n, t, d) && n.Full? && t.Full?
      modifies `value
      ensures Best(t, Anything, Found(k)) && k.Some?
      decreases t, 1
    {
      StandsGood(n, t, d);
      hide Best, MemOf, Stands, Good, Skipped;
      StandsChild(n, t, d);
      var last := Trans(MemOf(trie.Seen()), n.kids[16]);
      StandsChild(last, t.kids[16], d - 1);
      if !last.Nil? {
        assert false;
      }
      NoneSkipped(t.kids);
      k := FirstKid(n, 0, t, d, Anything);
      NotEmpty(t.kids, d);
    }

    /** The loop over the slots of a full node from one on. */
    method FirstKid(n: Node, from: nat, ghost t: Node, ghost d: nat, ghost b: Bound) returns (k: Option<Key>)
      requires Stands(n, t, d) && n.Full? && t.Full? && |t.kids| == 17 && from <= 16
      requires !b.Anything? ==> b.key != [] && b.key[0] < TERM
      requires Skipped(t.kids, b, from)
      modifies `value
      ensures Best(t, b, Found(k))
      ensures k.None? ==> forall i | from <= i < 16 :: t.kids[i].Nil?
      decreases t, 0
    {
      StandsGood(n, t, d);
      hide Best, MemOf, Stands, Good, Skipped;
      StandsChild(n, t, d);
      for i := from to 16
        invariant Skipped(t.kids, b, i) && forall j | from <= j < i :: t.kids[j].Nil?
      {
        k := First(Trans(MemOf(trie.Seen()), n.kids[i]), t.kids[i], d - 1);
        if k.Some? {
          BestLater(t.kids, d, b, i as Byte, Found(k));
          k := Some([i as Byte] + k.value);
          return;
        }
        SkipOne(t.kids, b, i);
      }
      BestNone(t.kids, d, b);
      k := None;
    }

    /** next: the least key below a node past key, or from key on at the start. */
    method NextAfter(n: Node, key: Key, start: bool, ghost t: Node, ghost d: nat) returns (k: Option<Key>)
      requires Stands(n, t, d) && |key| + 1 == d && Trie.Plain(key)
      modifies `value
      ensures Best(t, BoundOf(key, start), Found(k))
      decreases t, 3
    {
      hide Best, MemOf, Stands;
      StandsChild(n, t, d);
      match n
      case Full(kids) =>
        k := NextFull(n, key, start, t, d);
      case Short(nk, c) =>
        k := NextShort(n, key, start, t, d);
      case _ =>
        k := None;
        NilBest(BoundOf(key, start));
    }

    method NextFull(n: Node, key: Key, start: bool, ghost t: Node, ghost d: nat) returns (k: Option<Key>)
      requires Stands(n, t, d) && |key| + 1 == d && Trie.Plain(key) && n.Full? && t.Full?
      modifies `value
      ensures Best(t, BoundOf(key, start), Found(k))
      decreases t, 1
    {
      StandsGood(n, t, d);
      hide Best, MemOf, Stands, Good;
      StandsChild(n, t, d);
      ghost var b := BoundOf(key, start);
      k := NextAfter(Trans(MemOf(trie.Seen()), n.kids[key[0]]), key[1..], start, t.kids[key[0]], d - 1);
      if k.Some? {
        BestSame(t.kids, d, b, Found(k));
        k := Some([key[0]] + k.value);
        return;
      }
      SkipBelow(t.kids, b);
      k := FirstKid(n, key[0] as int + 1, t, d, b);
    }

    method NextShort(n: Node, key: Key, start: bool, ghost t: Node, ghost d: nat) returns (k: Option<Key>)
      requires Stands(n, t, d) && |key| + 1 == d && Trie.Plain(key) && n.Short? && t.Short?
      modifies `value
      ensures Best(t, BoundOf(key, start), Found(k))
      decreases t, 3, 1
    {
      StandsGood(n, t, d);
      hide *;
      StandsChild(n, t, d);
      GoodLeaf(t.key, t.child, d);
      if n.child.Value? {
        k := NextLeaf(n, key, start, t, d);
      } else {
        k := NextExt(n, key, start, t, d);
      }
    }

    method NextLeaf(n: Node, key: Key, start: bool, ghost t: Node, ghost d: nat) returns (k: Option<Key>)
      requires Good(t, d) && t.Short? && t.child.Value? && n == t
      modifies `value
      ensures Best(t, BoundOf(key, start), Found(k))
    {
      hide Best, Good, Canon, Terminated;
      GoodLeaf(t.key, t.child, d);
      var nk := Body(n.key);
      BestLeaf(t.key, t.child, BoundOf(key, start));
      CompareFlip(nk, key);
      var c := Compare(nk, key);
      k := None;
      if c == 1 || (c == 0 && start) {
        value := n.child.data;
        k := Some(nk);
      }
    }

    method NextExt(n: Node, key: Key, start: bool, ghost t: Node, ghost d: nat) returns (k: Option<Key>)
      requires Stands(n, t, d) && |key| + 1 == d && Trie.Plain(key) && n.Short? && t.Short? && t.child.Full?
      modifies `value
      ensures Best(t, BoundOf(key, start), Found(k))
      decreases t, 3, 0
    {
      StandsGood(n, t, d);
      hide Best, MemOf, Stands, Good, Canon, Terminated, Trie.Plain;
      StandsChild(n, t, d);
      GoodLeaf(t.key, t.child, d);
      var nk, child := Body(n.key), Trans(MemOf(trie.Seen()), n.child);
      ghost var b := BoundOf(key, start);
      PlainSlice(key, |nk|);
      ExtShorter(t.key, t.child, d);
      if nk <= key {
        var rest := NextAfter(child, key[|nk|..], start, t.child, d - |nk|);
        BestExt(nk, t.child, d, b, Found(rest));
        k := if rest.Some? then Some(nk + rest.value) else None;
      } else if Compare(nk, key[..|nk|]) > 0 {
        CompareFlip(nk, key[..|nk|]);
        k := First(n, t, d);
        BestBeyond(nk, t.child, b, Found(k));
      } else {
        CompareFlip(nk, key[..|nk|]);
        BestBehind(nk, t.child, b);
        k := None;
      }
    }

    /** One step: the least key of the trie past the current one, with its value; false when there is none. */
    method Next() returns (more: bool)
      requires trie.Valid() && trie.len == 32 && (key.Some? ==> |key.value| == 32)
      modifies this
      ensures key.Some? && (more ==> LeastIn(trie.contents, Past(old(key)), key.value))
      ensures more ==> |key.value| == 32 && value == trie.contents[key.value]
      ensures !more ==> forall k | k in trie.contents :: !InRange(Past(old(key)), k)
    {
      hide Denotes, Best, MemOf, Rep, Stored, LeastIn, InRange, Past, BoundOf, Unpack;
      ghost var was := key;
      var start := false;
      if key.None? {
        start := true;
        key := Some(seq(32, _ => 0 as Byte));
      }
      ghost var from := key.value;
      Ready();
      var nibbles := CompactHexDecode(key.value);
      var k := NextAfter(Strip(trie.root), Body(nibbles), start, trie.tree, 65);
      HitIsLeast(trie.tree, trie.contents, 32, was, from, Found(k));
      var b := KeyOf(k);
      key := Some(b);
      more := k.Some? && |k.value| > 0;
    }

    /** The bytes of a key found. */
    method KeyOf(k: Option<Key>) returns (b: seq<Byte>)
      ensures k.Some? && Trie.Plain(k.value) && |k.value| == 64 ==> b == Pack(k.value)
    {
      hide Nibbles;
      b := DecodeCompact(if k.Some? then k.value else []);
      if k.Some? && Trie.Plain(k.value) && |k.value| == 64 {
        PlainNibbles(k.value);
        assert k.value[..64] == k.value;
      }
    }

    lemma Ready()
      requires trie.Valid()
      ensures Denotes(map[], trie.tree, trie.contents, trie.len) && Stands(Strip(trie.root), trie.tree, 2 * trie.len + 1)
    {
      hide Denotes, Rep, Stored, MemOf;
      DenotesAnyMem(MemOf(trie.Seen()), map[], trie.tree, trie.contents, trie.len);
      DenotesGood(map[], trie.tree, trie.contents, trie.len);
    }
  }

  /** The bound of a step: past the key, or at the start from the key on. */
  function BoundOf(key: Key, start: bool): (b: Bound)
  {
    if start then From(key) else Above(key)
  }

  lemma PlainSlice(key: Key, m: nat)
    requires Trie.Plain(key)
    ensures m <= |key| ==> Trie.Plain(key[m..])
  {}

  lemma ExtShorter(k: Key, c: Node, d: nat)
    requires Good(Short(k, c), d) && c.Full?
    ensures |k| < d
  {
    assert Uniform(c, d - |k|);
  }

  lemma NilBest(b: Bound)
    ensures Best(Nil, b, None)
  {}

  lemma NoneSkipped(kids: seq<Node>)
    requires |kids| == 17
    ensures Skipped(kids, Anything, 0)
  {}

  lemma SkipBelow(kids: seq<Node>, b: Bound)
    requires |kids| == 17 && !b.Anything? && b.key != [] && b.key[0] < TERM && Best(kids[b.key[0]], Tail(b, 1), None)
    ensures Skipped(kids, b, b.key[0] as nat + 1)
  {
    hide Best;
  }

  lemma SkipOne(kids: seq<Node>, b: Bound, i: nat)
    requires |kids| == 17 && i < 16 && (!b.Anything? ==> b.key != [] && b.key[0] < TERM)
    requires Skipped(kids, b, i) && kids[i].Nil?
    ensures Skipped(kids, b, i + 1)
  {
    hide Best;
  }

  lemma NotEmpty(kids: seq<Node>, d: nat)
    requires Good(Full(kids), d)
    ensures |kids| == 17 && exists i | 0 <= i < 16 :: !kids[i].Nil?
  {
    FullDepth(kids, d);
    var a, b :| 0 <= a < b < |kids| && !kids[a].Nil? && !kids[b].Nil?;
  }

  // ---------- nibbles and bytes ----------

  lemma {:induction false} UnpackOrder(a: seq<Byte>, b: seq<Byte>)
    requires |a| == |b|
    ensures Compare(Unpack(a), Unpack(b)) == Compare(a, b)
  {
    if a != [] {
      UnpackOrder(a[1..], b[1..]);
      var p, q := [a[0] / 16, a[0] % 16], [b[0] / 16, b[0] % 16];
      CompareParts(p, Unpack(a[1..]), q, Unpack(b[1..]));
      assert p[1..] == [p[1]] && q[1..] == [q[1]];
    }
  }

  lemma ContentKey(t: Node, c: Contents, len: nat, b: seq<Byte>)
    requires Denotes(map[], t, c, len) && |b| == len
    ensures HasKey(t, Unpack(b)) <==> b in c
    ensures b in c ==> At(t, Unpack(b)) == Some(Value(c[b]))
  {
    hide Get, Good;
    assert ToKey(b) == Unpack(b) + [TERM];
    assert Get(map[], t, ToKey(b)) == Some(ValueAt(c, b));
  }

  lemma KeyBytes(t: Node, c: Contents, len: nat, k: Key)
    requires Denotes(map[], t, c, len) && HasKey(t, k)
    ensures Trie.Plain(k) && |k| == 2 * len && Unpack(Pack(k)) == k && Pack(k) in c
  {
    hide Denotes, Good, At, Pack, Unpack;
    DenotesGood(map[], t, c, len);
    HasLength(t, 2 * len + 1, k);
    UnpackPack(k);
    ContentKey(t, c, len, Pack(k));
  }

  /** The bound of a step in bytes: everything at the start, then past the current key. */
  function Past(key: Option<seq<Byte>>): (b: Bound)
  {
    if key.None? then Anything else Above(key.value)
  }

  /** k is the least key of c within b. */
  ghost predicate LeastIn(c: Contents, b: Bound, k: seq<Byte>)
  {
    k in c && InRange(b, k) && forall x | x in c && InRange(b, x) :: !Less(x, k)
  }

  lemma {:induction false} ZeroIsLeast(k: seq<Byte>, z: seq<Byte>)
    requires |k| == |z| && forall i | 0 <= i < |z| :: z[i] == 0
    ensures !Less(k, z)
  {
    if k != [] {
      ZeroIsLeast(k[1..], z[1..]);
    }
  }

  lemma RangeBytes(key: Option<seq<Byte>>, from: seq<Byte>, x: seq<Byte>)
    requires |from| == |x|
    requires if key.None? then forall i | 0 <= i < |from| :: from[i] == 0 else key.value == from
    ensures InRange(BoundOf(Unpack(from), key.None?), Unpack(x)) <==> InRange(Past(key), x)
  {
    UnpackOrder(from, x);
    UnpackOrder(x, from);
    if key.None? {
      ZeroIsLeast(x, from);
    }
  }

  lemma HitIsLeast(t: Node, c: Contents, len: nat, key: Option<seq<Byte>>, from: seq<Byte>, r: Option<Hit>)
    requires Denotes(map[], t, c, len) && |from| == len
    requires if key.None? then forall i | 0 <= i < |from| :: from[i] == 0 else key.value == from
    requires Best(t, BoundOf(Unpack(from), key.None?), r)
    ensures r.None? ==> forall x | x in c :: !InRange(Past(key), x)
    ensures r.Some? ==> Trie.Plain(r.value.key) && |r.value.key| == 2 * len
    ensures r.Some? ==> var k := Pack(r.value.key); LeastIn(c, Past(key), k) && c[k] == r.value.value
  {
    hide HasKey, At, InRange, Less, Unpack, Pack, BoundOf, Past;
    forall x | x in c
      ensures HasKey(t, Unpack(x)) && (InRange(BoundOf(Unpack(from), key.None?), Unpack(x)) <==> InRange(Past(key), x))
    {
      ContentKey(t, c, len, x);
      RangeBytes(key, from, x);
    }
    if r.Some? {
      KeyBytes(t, c, len, r.value.key);
      var k := Pack(r.value.key);
      ContentKey(t, c, len, k);
      forall x | x in c && InRange(Past(key), x) ensures !Less(x, k) {
        assert !Less(Unpack(x), r.value.key);
        UnpackOrder(x, k);
        SameLess(Unpack(x), Unpack(k), x, k);
      }
    }
  }

  // ---------- a whole walk ----------

  /** A trie that has never been opened from a store is fully loaded. */
  lemma {:induction false} NothingKept(hash: HashFn, mem: Memory, n: Node, t: Node)
    requires Rep(hash, {}, mem, n, t)
    ensures n == t
    decreases t
  {
    hide Big, Encs, RootHash;
    if n.Hash? {
      OwnIn(hash, t);
    } else {
      match t
      case Short(k, c) => NothingKept(hash, mem, n.child, c);
      case Full(kids) =>
        forall i | 0 <= i < |kids| ensures n.kids[i] == kids[i] {
          NothingKept(hash, mem, n.kids[i], kids[i]);
        }
        assert n.kids == kids;
      case _ =>
    }
  }

  /** copy holds exactly the keys of c up to the current one. */
  ghost predicate UpTo(c: Contents, copy: Contents, key: Option<seq<Byte>>)
  {
    && (forall k | k in copy :: k in c && copy[k] == c[k])
    && (forall k | k in c :: k in copy <==> !InRange(Past(key), k))
  }

  lemma UpToNext(c: Contents, copy: Contents, was: Option<seq<Byte>>, k: seq<Byte>)
    requires UpTo(c, copy, was) && LeastIn(c, Past(was), k)
    ensures UpTo(c, copy[k := c[k]], Some(k)) && k !in copy
  {
    forall x | x in c ensures x in copy[k := c[k]] <==> !Less(k, x) {
      CompareFlip(k, x);
      if was.Some? && Less(k, x) {
        LessTransitive(was.value, k, x);
      }
    }
  }

  /** The keys visited, in ascending order. */
  ghost predicate Ascending(ks: seq<seq<Byte>>)
  {
    forall i | 0 < i < |ks| :: Less(ks[i - 1], ks[i])
  }

  /** A walk over c so far: the keys visited, the last one current, all copied. */
  ghost predicate Walked(c: Contents, copy: Contents, key: Option<seq<Byte>>, visited: seq<seq<Byte>>)
  {
    && UpTo(c, copy, key) && Ascending(visited) && (forall k :: k in visited <==> k in copy)
    && (if visited == [] then key.None? else key == Some(visited[|visited| - 1]))
  }

  lemma WalkStarts(c: Contents)
    ensures Walked(c, map[], None, [])
  {}

  lemma WalkGoesOn(c: Contents, copy: Contents, was: Option<seq<Byte>>, k: seq<Byte>, visited: seq<seq<Byte>>)
    requires Walked(c, copy, was, visited) && LeastIn(c, Past(was), k)
    ensures k in c && k !in copy && Walked(c, copy[k := c[k]], Some(k), visited + [k])
  {
    hide Less, UpTo;
    UpToNext(c, copy, was, k);
  }

  lemma WalkEnds(c: Contents, copy: Contents, key: Option<seq<Byte>>, visited: seq<seq<Byte>>)
    requires Walked(c, copy, key, visited) && forall k | k in c :: !InRange(Past(key), k)
    ensures copy == c && Ascending(visited) && forall k :: k in visited <==> k in c
  {}

  /**
   ParanoiaCheck: the walk visits exactly the keys of the trie, in ascending order, and copying
   them one by one always gives the same root hash.
   */
  method ParanoiaCheck(t1: MerkleTrie, backend: Backend)
    returns (same: bool, t2: MerkleTrie, ghost visited: seq<seq<Byte>>)
    requires t1.Valid() && t1.len == 32 && Clashless(t1.hash, t1.kept + Encs(t1.hash, Strip(t1.root)))
    modifies t1`cache, t1`roothash
    ensures same && fresh(t2) && t1.Valid() && t2.Valid() && t2.contents == t1.contents
    ensures Ascending(visited) && forall k :: k in visited <==> k in t1.contents
  {
    hide *;
    t2, visited := Copy(t1, backend);
    Comparable(t1, t2);
    var h2 := t2.Hash();
    var h1 := t1.Hash();
    same := h2 == h1;
  }

  ghost predicate Long(key: Option<seq<Byte>>)
  {
    key.Some? ==> |key.value| == 32
  }

  /** One key more is copied. */
  ghost predicate Extends(c: Contents, before: Contents, after: Contents, k: seq<Byte>)
  {
    k in c && k !in before && after == before[k := c[k]]
  }

  method Copy(t1: MerkleTrie, backend: Backend) returns (t2: MerkleTrie, ghost visited: seq<seq<Byte>>)
    requires t1.Valid() && t1.len == 32
    ensures fresh(t2) && t2.Valid() && t2.contents == t1.contents
    ensures t2.hash == t1.hash && t2.len == 32 && t2.kept == {}
    ensures Ascending(visited) && forall k :: k in visited <==> k in t1.contents
  {
    hide *;
    t2 := new MerkleTrie.Empty(t1.hash, backend, 32);
    var it := new Iterator(t1);
    visited := [];
    WalkStarts(t1.contents);
    LongAtFirst();
    ghost var todo := t1.contents.Keys;
    var more := true;
    while more
      invariant t2.Valid() && t2.hash == t1.hash && t2.len == 32 && t2.kept == {} && fresh(t2) && fresh(it)
      invariant it.trie == t1 && (more ==> Long(it.key))
      invariant if more then Walked(t1.contents, t2.contents, it.key, visited) && todo == t1.contents.Keys - t2.contents.Keys
                else t2.contents == t1.contents && Ascending(visited) && forall k :: k in visited <==> k in t1.contents
      decreases more, todo
    {
      ghost var k, before := [], t2.contents;
      more, k := CopyNext(t1, t2, it, visited);
      if more {
        Shrinks(t1.contents, before, t2.contents, k);
        visited := visited + [k];
        todo := todo - {k};
      }
    }
  }

  lemma LongAtFirst()
    ensures Long(None)
  {}

  lemma Shrinks(c: Contents, before: Contents, after: Contents, k: seq<Byte>)
    requires Extends(c, before, after, k)
    ensures c.Keys - after.Keys == c.Keys - before.Keys - {k} && k in c.Keys - before.Keys
  {}

  /** One step of the walk, and its key copied. */
  method CopyNext(t1: MerkleTrie, t2: MerkleTrie, it: Iterator, ghost visited: seq<seq<Byte>>)
    returns (more: bool, ghost k: seq<Byte>)
    requires t1.Valid() && t1.len == 32 && t2.Valid() && t2.len == 32 && t1 != t2
    requires it.trie == t1 && Long(it.key) && Walked(t1.contents, t2.contents, it.key, visited)
    modifies it, t2`root, t2`tree, t2`contents
    ensures t2.Valid() && (more ==> Long(it.key))
    ensures !more ==> t2.contents == t1.contents && Ascending(visited) && forall x :: x in visited <==> x in t1.contents
    ensures more ==> Extends(t1.contents, old(t2.contents), t2.contents, k)
    ensures more ==> Walked(t1.contents, t2.contents, it.key, visited + [k])
  {
    hide MemOf, Rep, Stored, Denotes, Clean, Walked, Ascending, LeastIn, Past, InRange, MerkleTrie.Valid, ApplyToMap, Extends;
    ghost var was, copy := it.key, t2.contents;
    k := [];
    more := it.Next();
    if more {
      k := it.key.value;
      CopyOne(t1, copy, was, k, visited);
      t2.Update(it.key.value, it.value);
    } else {
      WalkEnds(t1.contents, copy, was, visited);
    }
  }

  lemma CopyOne(t: MerkleTrie, copy: Contents, was: Option<seq<Byte>>, k: seq<Byte>, visited: seq<seq<Byte>>)
    requires t.Valid() && Walked(t.contents, copy, was, visited) && LeastIn(t.contents, Past(was), k)
    ensures k in t.contents
    ensures var after := ApplyToMap(copy, Update(k, t.contents[k]));
            Extends(t.contents, copy, after, k) && Walked(t.contents, after, Some(k), visited + [k])
  {
    hide MemOf, Rep, Stored, Denotes, Clean, Walked, Ascending, LeastIn, Past, MerkleTrie.Valid, ApplyToMap;
    Least(t.contents, Past(was), k);
    WalkGoesOn(t.contents, copy, was, k, visited);
    Copied(t, k, copy);
  }

  lemma Least(c: Contents, b: Bound, k: seq<Byte>)
    requires LeastIn(c, b, k)
    ensures k in c
  {}

  lemma Copied(t: MerkleTrie, k: seq<Byte>, before: Contents)
    requires t.Valid() && k in t.contents
    ensures ApplyToMap(before, Update(k, t.contents[k])) == before[k := t.contents[k]]
  {
    hide MemOf, Rep, Stored, Denotes;
    ContentsNotEmpty(MemOf(t.Seen()), t.tree, t.contents, t.len, k);
  }

  lemma ContentsNotEmpty(mem: Memory, t: Node, c: Contents, len: nat, k: seq<Byte>)
    requires Denotes(mem, t, c, len) && k in c
    ensures c[k] != []
  {}

  /** A copy with the same contents has the same tree, so it clashes no more than the original. */
  lemma Comparable(t1: MerkleTrie, t2: MerkleTrie)
    requires t1.Valid() && t2.Valid() && t1.len == t2.len && t1.hash == t2.hash && t1.contents == t2.contents
    requires t2.kept == {} && Clashless(t1.hash, t1.kept + Encs(t1.hash, Strip(t1.root)))
    ensures t1.tree == t2.tree && Clashless(t2.hash, t2.kept + Encs(t2.hash, Strip(t2.root)))
  {
    hide MemOf, Rep, Stored, Denotes, Encs, Clashless;
    var m1, m2 := MemOf(t1.Seen()), MemOf(t2.Seen());
    DenotesAnyMem(m2, m1, t2.tree, t2.contents, t2.len);
    SameContentsSameTree(m1, t1.tree, t2.tree, t1.contents, t1.len);
    NothingKept(t2.hash, m2, Strip(t2.root), t2.tree);
    RepEncs(t1.hash, t1.kept, m1, Strip(t1.root), t1.tree);
    Smaller(t1.hash, map[], {} + Encs(t2.hash, Strip(t2.root)), t1.kept + Encs(t1.hash, Strip(t1.root)));
  }
}
