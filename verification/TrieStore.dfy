/**
 Hashing and storing a trie, and building it again from what was stored. A node whose encoding
 has 32 bytes or more is stored under its hash and named by it; a smaller one is embedded in its
 parent. The hash is any function with 32-byte results; where a result needs it to be free of
 collisions, that is asked only of the finite set of encodings at hand.
 */
module TrieStore {
  import opened Bytes
  import opened RlpSpec
  import opened Trie
  import opened TrieCanon
  import opened TrieDelete
  import opened TrieEnc
  import opened TrieLazy
  import opened HexPrefix
  import CommonRlp

  /** mknode: the node a decoded value stands for. Only sixteen slots of a full node are read. */
  function MkNode(x: Item): (n: Node)
  {
    match x
    case Str(b) => if b == [] then Nil else if |b| == 32 then Hash(b) else Value(b)
    case List(xs) =>
      if |xs| == 0 then Nil
      else if |xs| == 2 && ItemBytes(xs[0]) != [] then
        var key := FromCompact(ItemBytes(xs[0]));
        if key != [] && key[|key| - 1] == TERM then Short(key, Value(ItemBytes(xs[1])))
        else Short(key, MkNode(xs[1]))
      else if |xs| == 17 then
        Full(seq(16, i requires 0 <= i < 16 => MkNode(xs[i])) + [Nil])
      else if |xs| == 32 then Hash([])
      else Value([])
  }

  /** Value.Bytes: a list has none. */
  function ItemBytes(x: Item): (b: seq<Byte>)
  {
    if x.Str? then x.bytes else []
  }

  /** What loading stored data gives; missing or undecodable data gives nil. */
  function NodeOf(data: seq<Byte>): (n: Node)
  {
    var r := CommonRlp.Decode(data, 0);
    if data != [] && r.Some? then MkNode(r.value.0) else Nil
  }

  function MemOf(db: Db): (mem: Memory)
  {
    map h | h in db :: NodeOf(db[h])
  }

  lemma NodeOfEncode(x: Item)
    requires |Encode(x)| < TWO64
    ensures NodeOf(Encode(x)) == MkNode(x)
  {
    CommonRlp.DecodeEncode(x, Encode(x), 0);
  }

  /** Different encodings have different hashes, and each has a length a machine can hold. */
  ghost predicate Clashless(hash: HashFn, s: set<seq<Byte>>)
  {
    && (forall a, b | a in s && b in s && hash(a) == hash(b) :: a == b)
    && (forall a | a in s :: |a| < TWO64)
  }

  ghost predicate Stored(hash: HashFn, db: Db, s: set<seq<Byte>>)
  {
    forall e | e in s :: hash(e) in db && db[hash(e)] == e
  }

  lemma EncsChild(hash: HashFn, n: Node, c: Node)
    requires (n.Short? && c == n.child) || (n.Full? && c in n.kids)
    ensures Encs(hash, c) <= Encs(hash, n)
  {
    if n.Full? {
      var i :| 0 <= i < |n.kids| && n.kids[i] == c;
    }
  }

  lemma StoredNone(hash: HashFn, db: Db)
    ensures Stored(hash, db, {})
  {}

  lemma EncodeInjective(x: Item, y: Item)
    requires Encode(x) == Encode(y) && |Encode(x)| < TWO64
    ensures x == y
  {
    CommonRlp.DecodeEncode(x, Encode(x), 0);
    CommonRlp.DecodeEncode(y, Encode(y), 0);
  }

  // ---------- reloading ----------

  /** t has keys of length d and all it takes to load it is among the encodings kept in db. */
  ghost predicate Loadable(hash: HashFn, kept: set<seq<Byte>>, db: Db, t: Node, d: nat)
  {
    Good(t, d) && Encs(hash, t) <= kept && Stored(hash, db, kept) && Clashless(hash, kept)
  }

  lemma Smaller(hash: HashFn, db: Db, a: set<seq<Byte>>, b: set<seq<Byte>>)
    requires a <= b
    ensures Clashless(hash, b) ==> Clashless(hash, a)
    ensures Stored(hash, db, b) ==> Stored(hash, db, a)
  {}

  lemma LoadableExt(hash: HashFn, kept: set<seq<Byte>>, db: Db, k: Key, c: Node, d: nat)
    requires Loadable(hash, kept, db, Short(k, c), d) && c.Full?
    ensures |k| <= d && Loadable(hash, kept, db, c, d - |k|)
  {
    hide Encs, Clashless, Stored;
    EncsChild(hash, Short(k, c), c);
  }

  lemma LoadableKid(hash: HashFn, kept: set<seq<Byte>>, db: Db, kids: seq<Node>, d: nat, i: nat)
    requires Loadable(hash, kept, db, Full(kids), d) && i < 16
    ensures d > 1 && |kids| == 17 && kids[16].Nil? && Loadable(hash, kept, db, kids[i], d - 1)
  {
    FullDepth(kids, d);
    hide Encs, Clashless, Stored, Canon, Uniform;
    EncsChild(hash, Full(kids), kids[i]);
  }

  /** The shape mknode gives to the RLP data of a short and of a full node. */
  lemma MkNodeOfShort(hash: HashFn, k: Key, c: Node)
    requires k != [] && (if c.Value? then Terminated(k) else Trie.Plain(k))
    ensures MkNode(NodeItem(hash, Short(k, c))) == Short(k, if c.Value? then c else MkNode(RefItem(hash, c)))
  {
    CompactRoundTrip(k);
    hide Compact, FromCompact, Enc, Terminated, Trie.Plain;
    var b := Compact(k);
    var x := NodeItem(hash, Short(k, c));
    assert x == List([Str(b), RefItem(hash, c)]);
    assert c.Value? ==> ItemBytes(RefItem(hash, c)) == c.data;
    assert ItemBytes(x.items[0]) == b;
    assert c.Value? <==> k[|k| - 1] == TERM by {
      TermOrPlain(k, c);
    }
  }

  lemma TermOrPlain(k: Key, c: Node)
    requires k != [] && (if c.Value? then Terminated(k) else Trie.Plain(k))
    ensures c.Value? <==> k[|k| - 1] == TERM
  {}

  lemma MkNodeOfFull(hash: HashFn, kids: seq<Node>)
    requires |kids| == 17
    ensures var n := MkNode(NodeItem(hash, Full(kids)));
            && n.Full? && |n.kids| == 17 && n.kids[16].Nil?
            && forall i | 0 <= i < 16 :: n.kids[i] == MkNode(RefItem(hash, kids[i]))
  {
    hide RefItem;
  }

  lemma MkNodeOfHash(h: seq<Byte>)
    requires |h| == 32
    ensures MkNode(Str(h)) == Hash(h)
  {}

  lemma MkNodeOfNil(hash: HashFn)
    ensures MkNode(RefItem(hash, Nil)) == Nil
  {}

  lemma LoadableShape(hash: HashFn, kept: set<seq<Byte>>, db: Db, t: Node, d: nat)
    requires Loadable(hash, kept, db, t, d)
    ensures t.Nil? || t.Short? || t.Full?
    ensures t.Short? ==> t.key != [] && (t.child.Value? || t.child.Full?)
    ensures t.Short? ==> if t.child.Value? then Terminated(t.key) else Trie.Plain(t.key)
  {
    hide Encs, Stored, Clashless, Uniform;
  }

  /** A node built from its own RLP data, children still unloaded, stands for the whole subtree. */
  lemma {:induction false} MkNodeRep(hash: HashFn, kept: set<seq<Byte>>, db: Db, t: Node, d: nat)
    requires Loadable(hash, kept, db, t, d) && (t.Short? || t.Full?)
    ensures !MkNode(NodeItem(hash, t)).Hash? && Rep(hash, kept, MemOf(db), MkNode(NodeItem(hash, t)), t)
    decreases t, 0
  {
    hide Loadable, NodeItem, RefItem, MkNode, MemOf, Terminated, Trie.Plain;
    LoadableShape(hash, kept, db, t, d);
    match t
    case Short(k, c) =>
      MkNodeOfShort(hash, k, c);
      if c.Full? {
        LoadableExt(hash, kept, db, k, c, d);
        RefRep(hash, kept, db, c, d - |k|);
      }
    case Full(kids) =>
      LoadableKid(hash, kept, db, kids, d, 0);
      MkNodeOfFull(hash, kids);
      var n := MkNode(NodeItem(hash, t));
      forall i | 0 <= i < 17 ensures Rep(hash, kept, MemOf(db), n.kids[i], kids[i]) {
        if i < 16 {
          LoadableKid(hash, kept, db, kids, d, i);
          RefRep(hash, kept, db, kids[i], d - 1);
        }
      }
  }

  /** So does the reference a parent holds: a hash, or the embedded node. */
  lemma {:induction false} RefRep(hash: HashFn, kept: set<seq<Byte>>, db: Db, t: Node, d: nat)
    requires Loadable(hash, kept, db, t, d)
    ensures Rep(hash, kept, MemOf(db), MkNode(RefItem(hash, t)), t)
    decreases t, 1
  {
    hide *;
    LoadableShape(hash, kept, db, t, d);
    if t.Nil? {
      MkNodeOfNil(hash);
      RepNil(hash, kept, MemOf(db));
    } else {
      MkNodeRep(hash, kept, db, t, d);
      if Big(hash, t) {
        BigRefRep(hash, kept, db, t, d);
      } else {
        RefOfSmall(hash, t);
      }
    }
  }

  lemma BigRefRep(hash: HashFn, kept: set<seq<Byte>>, db: Db, t: Node, d: nat)
    requires Loadable(hash, kept, db, t, d) && Big(hash, t)
    requires !MkNode(NodeItem(hash, t)).Hash? && Rep(hash, kept, MemOf(db), MkNode(NodeItem(hash, t)), t)
    ensures Rep(hash, kept, MemOf(db), MkNode(RefItem(hash, t)), t)
  {
    hide *;
    BigIsStored(hash, kept, db, t, d);
    RepHash(hash, kept, MemOf(db), RootHash(hash, t), t);
  }

  lemma RefOfSmall(hash: HashFn, t: Node)
    requires !Big(hash, t)
    ensures RefItem(hash, t) == NodeItem(hash, t)
  {}

  lemma OwnIn(hash: HashFn, t: Node)
    requires Big(hash, t)
    ensures Enc(hash, t) in Encs(hash, t)
  {
    hide Enc;
  }

  lemma OneStored(hash: HashFn, db: Db, s: set<seq<Byte>>, e: seq<Byte>)
    requires e in s && Stored(hash, db, s) && Clashless(hash, s)
    ensures hash(e) in db && db[hash(e)] == e && |e| < TWO64
  {}

  lemma BigIsStored(hash: HashFn, kept: set<seq<Byte>>, db: Db, t: Node, d: nat)
    requires Loadable(hash, kept, db, t, d) && Big(hash, t)
    ensures var h := RootHash(hash, t);
            && MkNode(RefItem(hash, t)) == Hash(h) && Encs(hash, t) <= kept
            && h in MemOf(db) && MemOf(db)[h] == MkNode(NodeItem(hash, t))
  {
    hide NodeItem, MkNode, NodeOf, Good, Encode, Encs, Stored, Clashless;
    var e := Enc(hash, t);
    OwnIn(hash, t);
    OneStored(hash, db, kept, e);
    NodeOfEncode(NodeItem(hash, t));
    MkNodeOfHash(hash(e));
  }
}
