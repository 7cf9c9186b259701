/**
 What hashing a partly loaded trie gives and writes: the root hash of the whole tree, which two
 tries share exactly when they hold the same contents, and every encoding needed to load it again.
 */
module TrieHash {
  import opened Bytes
  import opened RlpSpec
  import opened Trie
  import opened TrieCanon
  import opened TrieDelete
  import opened TrieEnc
  import opened TrieLazy
  import opened TrieStore
  import opened TrieRoot
  import opened TrieRuns
  import opened HexPrefix

  // ---------- a trie in memory and the tree it stands for ----------

  lemma RepShape(hash: HashFn, kept: set<seq<Byte>>, mem: Memory, n: Node, t: Node)
    requires Rep(hash, kept, mem, n, t)
    ensures n.Hash? ==> Big(hash, t) && n.h == RootHash(hash, t) && Encs(hash, t) <= kept
    ensures !n.Hash? && t.Short? ==> n.Short? && n.key == t.key && Rep(hash, kept, mem, n.child, t.child)
    ensures !n.Hash? && t.Full? ==> n.Full? && |n.kids| == |t.kids|
    ensures !n.Hash? && t.Full? ==> forall i | 0 <= i < |t.kids| :: Rep(hash, kept, mem, n.kids[i], t.kids[i])
    ensures !n.Hash? && !t.Short? && !t.Full? ==> n == t
  {
    hide Big, RootHash, Encs;
  }

  lemma SameItems(hash: HashFn, n: Node, t: Node)
    requires (n.Short? && t.Short? && n.key == t.key && RefItem(hash, n.child) == RefItem(hash, t.child)) ||
             (n.Full? && t.Full? && |n.kids| == |t.kids|
             && forall i | 0 <= i < |n.kids| :: RefItem(hash, n.kids[i]) == RefItem(hash, t.kids[i]))
    ensures NodeItem(hash, n) == NodeItem(hash, t)
  {
    hide RefItem, Compact;
    if n.Full? {
      assert NodeItem(hash, n).items == NodeItem(hash, t).items;
    }
  }

  lemma SameEnc(hash: HashFn, n: Node, t: Node)
    requires NodeItem(hash, n) == NodeItem(hash, t)
    ensures Enc(hash, n) == Enc(hash, t)
  {
    hide Encode;
  }

  lemma SameRef(hash: HashFn, n: Node, t: Node)
    requires (n.Short? && t.Short?) || (n.Full? && t.Full?)
    requires NodeItem(hash, n) == NodeItem(hash, t)
    ensures RefItem(hash, n) == RefItem(hash, t) && Own(hash, n) == Own(hash, t)
  {
    SameEnc(hash, n, t);
    hide Enc;
  }

  lemma HashRef(hash: HashFn, h: seq<Byte>, t: Node)
    requires Big(hash, t) && h == RootHash(hash, t)
    ensures RefItem(hash, Hash(h)) == RefItem(hash, t)
  {
    hide Enc;
  }

  /** A partly loaded node has the RLP data, hence the hash, of the whole subtree. */
  lemma {:induction false} RepItem(hash: HashFn, kept: set<seq<Byte>>, mem: Memory, n: Node, t: Node)
    requires Rep(hash, kept, mem, n, t)
    ensures RefItem(hash, n) == RefItem(hash, t)
    ensures !n.Hash? ==> NodeItem(hash, n) == NodeItem(hash, t)
    decreases t
  {
    hide *;
    RepShape(hash, kept, mem, n, t);
    if n.Hash? {
      HashRef(hash, n.h, t);
    } else {
      match t
      case Short(k, c) =>
        RepItem(hash, kept, mem, n.child, c);
        SameItems(hash, n, t);
        SameRef(hash, n, t);
      case Full(kids) =>
        forall i | 0 <= i < |kids| ensures RefItem(hash, n.kids[i]) == RefItem(hash, kids[i]) {
          RepItem(hash, kept, mem, n.kids[i], kids[i]);
        }
        SameItems(hash, n, t);
        SameRef(hash, n, t);
      case _ =>
    }
  }

  lemma EncsShort(hash: HashFn, k: Key, c: Node)
    ensures Encs(hash, Short(k, c)) == Own(hash, Short(k, c)) + Encs(hash, c)
  {
    hide Own;
  }

  lemma EncsFull(hash: HashFn, kids: seq<Node>, s: set<seq<Byte>>)
    ensures Own(hash, Full(kids)) <= Encs(hash, Full(kids))
    ensures Encs(hash, Full(kids)) <= s <==>
            Own(hash, Full(kids)) <= s && forall i | 0 <= i < |kids| :: Encs(hash, kids[i]) <= s
  {
    hide Own;
    forall i | 0 <= i < |kids| ensures Encs(hash, kids[i]) <= Encs(hash, Full(kids)) {
      EncsChild(hash, Full(kids), kids[i]);
    }
  }

  /** What a trie stores is what its loaded part stores plus what is kept behind its hashes. */
  lemma {:induction false} RepEncs(hash: HashFn, kept: set<seq<Byte>>, mem: Memory, n: Node, t: Node)
    requires Rep(hash, kept, mem, n, t)
    ensures Encs(hash, t) <= Encs(hash, n) + kept
    decreases t
  {
    hide *;
    RepShape(hash, kept, mem, n, t);
    RepItem(hash, kept, mem, n, t);
    if !n.Hash? {
      match t
      case Short(k, c) =>
        RepEncs(hash, kept, mem, n.child, c);
        SameRef(hash, n, t);
        EncsShort(hash, k, c);
        EncsShort(hash, k, n.child);
      case Full(kids) =>
        SameRef(hash, n, t);
        var s := Encs(hash, n) + kept;
        EncsFull(hash, kids, s);
        EncsFull(hash, n.kids, Encs(hash, n));
        forall i | 0 <= i < |kids| ensures Encs(hash, kids[i]) <= s {
          RepEncs(hash, kept, mem, n.kids[i], kids[i]);
        }
      case _ =>
    }
  }

  /** Writing to the store disturbs no trie whose kept encodings stay in place. */
  lemma {:induction false} RepGrow(hash: HashFn, kept: set<seq<Byte>>, db: Db, db2: Db, n: Node, t: Node)
    requires Rep(hash, kept, MemOf(db), n, t) && Stored(hash, db, kept) && Stored(hash, db2, kept)
    ensures Rep(hash, kept, MemOf(db2), n, t)
    decreases t, if n.Hash? then 1 else 0
  {
    hide Big, RootHash, Encs, Stored, MemOf;
    if n.Hash? {
      OneKept(hash, kept, db, db2, t);
      RepGrow(hash, kept, db, db2, MemOf(db)[n.h], t);
    } else {
      match t
      case Short(k, c) => RepGrow(hash, kept, db, db2, n.child, c);
      case Full(kids) =>
        forall i | 0 <= i < |kids| ensures Rep(hash, kept, MemOf(db2), n.kids[i], kids[i]) {
          RepGrow(hash, kept, db, db2, n.kids[i], kids[i]);
        }
      case _ =>
    }
  }

  lemma OneKept(hash: HashFn, kept: set<seq<Byte>>, db: Db, db2: Db, t: Node)
    requires Big(hash, t) && Encs(hash, t) <= kept && Stored(hash, db, kept) && Stored(hash, db2, kept)
    ensures var h := RootHash(hash, t);
            h in MemOf(db) && h in MemOf(db2) && MemOf(db)[h] == MemOf(db2)[h]
  {
    hide Enc, NodeOf;
    OwnIn(hash, t);
  }

  // ---------- the root hash and the contents ----------

  lemma {:induction false} GetAnyMem(m1: Memory, m2: Memory, t: Node, key: Key)
    requires Canon(t) || t.Value?
    ensures Get(m1, t, key) == Get(m2, t, key)
    decreases |key|
  {
    if key != [] {
      match t
      case Short(k, c) =>
        if k <= key {
          GetAnyMem(m1, m2, c, key[|k|..]);
        }
      case Full(kids) =>
        if key[0] < 17 {
          GetAnyMem(m1, m2, kids[key[0]], key[1..]);
        }
      case _ =>
    }
  }

  lemma DenotesAnyMem(m1: Memory, m2: Memory, t: Node, c: Contents, len: nat)
    requires Denotes(m1, t, c, len)
    ensures Denotes(m2, t, c, len)
  {
    forall k: seq<Byte> | |k| == len ensures Get(m2, t, ToKey(k)) == Some(ValueAt(c, k)) {
      GetAnyMem(m1, m2, t, ToKey(k));
    }
  }

  lemma EmptyDenotes(mem: Memory, len: nat)
    ensures Denotes(mem, Nil, map[], len)
  {}

  lemma DenotesGood(mem: Memory, t: Node, c: Contents, len: nat)
    requires Denotes(mem, t, c, len)
    ensures Good(t, 2 * len + 1)
  {}

  /** The root hash fixes the tree. */
  lemma RootHashFixesTree(hash: HashFn, a: Node, b: Node, d: nat)
    requires Good(a, d) && Good(b, d) && RootHash(hash, a) == RootHash(hash, b)
    requires Clashless(hash, Encs(hash, a) + Encs(hash, b) + {Enc(hash, a), Enc(hash, b)})
    ensures a == b
  {
    hide Canon, Uniform, Encs, NodeItem, Encode, Clashless;
    RefCases(hash, a, d);
    RefCases(hash, b, d);
    var s := Encs(hash, a) + Encs(hash, b) + {Enc(hash, a), Enc(hash, b)};
    SameHash(hash, s, Enc(hash, a), Enc(hash, b));
    NilOrNot(hash, a, b, d, s);
    if !a.Nil? {
      Smaller(hash, map[], Encs(hash, a) + Encs(hash, b), s);
      EncFixesTree(hash, a, d, b, d);
    }
  }

  /** Two tries have one root hash exactly when they hold the same contents. */
  lemma RootHashIsContents(hash: HashFn, mem: Memory, a: Node, c1: Contents, b: Node, c2: Contents, len: nat)
    requires Denotes(mem, a, c1, len) && Denotes(mem, b, c2, len)
    requires Clashless(hash, Encs(hash, a) + Encs(hash, b) + {Enc(hash, a), Enc(hash, b)})
    ensures RootHash(hash, a) == RootHash(hash, b) <==> c1 == c2
  {
    hide *;
    if c1 == c2 {
      SameContentsSameTree(mem, a, b, c1, len);
    }
    if RootHash(hash, a) == RootHash(hash, b) {
      DenotesGood(mem, a, c1, len);
      DenotesGood(mem, b, c2, len);
      RootHashFixesTree(hash, a, b, 2 * len + 1);
      SameTreeSameContents(mem, a, c1, c2, len);
    }
  }

  lemma NilOrNot(hash: HashFn, a: Node, b: Node, d: nat, s: set<seq<Byte>>)
    requires Good(a, d) && Good(b, d) && Enc(hash, a) == Enc(hash, b) && Enc(hash, a) in s && Clashless(hash, s)
    ensures a.Nil? <==> b.Nil?
  {
    SameItem(hash, a, b);
    ItemKind(hash, a, d);
    ItemKind(hash, b, d);
  }

  lemma ItemKind(hash: HashFn, n: Node, d: nat)
    requires Good(n, d)
    ensures n.Nil? <==> NodeItem(hash, n).Str?
  {
    hide RefItem, Uniform;
  }

  // ---------- what Hash writes ----------

  /** after is before plus the encodings s, each under its hash; a colliding key holds one of them. */
  ghost predicate Added(hash: HashFn, before: Db, after: Db, s: set<seq<Byte>>)
  {
    && (forall k | k in before :: k in after)
    && (forall k | k in after :: (k in before && after[k] == before[k]) || (after[k] in s && hash(after[k]) == k))
    && (forall e {:trigger Holds(hash, after, hash(e), s)} | e in s :: Holds(hash, after, hash(e), s))
  }

  ghost predicate Holds(hash: HashFn, db: Db, k: seq<Byte>, s: set<seq<Byte>>)
  {
    k in db && db[k] in s && hash(db[k]) == k
  }

  lemma AddedNone(hash: HashFn, db: Db)
    ensures Added(hash, db, db, {})
  {}

  lemma AddedOne(hash: HashFn, db: Db, e: seq<Byte>)
    ensures Added(hash, db, db[hash(e) := e], {e})
  {}

  lemma AddedThen(hash: HashFn, a: Db, b: Db, c: Db, s: set<seq<Byte>>, u: set<seq<Byte>>)
    requires Added(hash, a, b, s) && Added(hash, b, c, u)
    ensures Added(hash, a, c, s + u)
  {
    forall e | e in s + u ensures Holds(hash, c, hash(e), s + u) {
      var k := hash(e);
      assert Holds(hash, b, k, s) || Holds(hash, c, k, u);
    }
  }

  /** Without collisions everything written can be read back and nothing kept is lost. */
  lemma AddedStored(hash: HashFn, disk: Db, before: Db, after: Db, s: set<seq<Byte>>, kept: set<seq<Byte>>)
    requires Added(hash, before, after, s) && Stored(hash, disk + before, kept) && Clashless(hash, kept + s)
    ensures Stored(hash, disk + after, kept + s)
  {
    hide Added, Clashless;
    forall e | e in kept + s ensures hash(e) in disk + after && (disk + after)[hash(e)] == e {
      OneAdded(hash, disk, before, after, s, kept, e, hash(e));
    }
  }

  lemma OneAdded(hash: HashFn, disk: Db, before: Db, after: Db, s: set<seq<Byte>>, kept: set<seq<Byte>>,
                 e: seq<Byte>, k: seq<Byte>)
    requires Added(hash, before, after, s) && Stored(hash, disk + before, kept) && Clashless(hash, kept + s)
    requires e in kept + s && k == hash(e)
    ensures k in disk + after && (disk + after)[k] == e
  {
    hide *;
    AddedAt(hash, before, after, s, e, k);
    if e in kept {
      StoredAt(hash, disk + before, kept, e, k);
    }
    if k in after && after[k] in s && hash(after[k]) == k {
      SameHash(hash, kept + s, after[k], e);
    }
  }

  lemma AddedAt(hash: HashFn, before: Db, after: Db, s: set<seq<Byte>>, e: seq<Byte>, k: seq<Byte>)
    requires Added(hash, before, after, s) && k == hash(e)
    ensures k in before ==> k in after
    ensures k in after ==> (k in before && after[k] == before[k]) || (after[k] in s && hash(after[k]) == k)
    ensures e in s ==> k in after && after[k] in s && hash(after[k]) == k
  {
    assert e in s ==> Holds(hash, after, k, s);
  }

  lemma StoredAt(hash: HashFn, db: Db, kept: set<seq<Byte>>, e: seq<Byte>, k: seq<Byte>)
    requires Stored(hash, db, kept) && e in kept && k == hash(e)
    ensures k in db && db[k] == e
  {}

  ghost function EncsOf(hash: HashFn, kids: seq<Node>): (s: set<seq<Byte>>)
  {
    if kids == [] then {} else EncsOf(hash, kids[..|kids| - 1]) + Encs(hash, kids[|kids| - 1])
  }

  lemma {:induction false} EncsOfHas(hash: HashFn, kids: seq<Node>, e: seq<Byte>)
    ensures e in EncsOf(hash, kids) <==> exists i | 0 <= i < |kids| :: e in Encs(hash, kids[i])
  {
    hide Encs;
    if kids != [] {
      var front := kids[..|kids| - 1];
      EncsOfHas(hash, front, e);
      if e in EncsOf(hash, kids) && e in EncsOf(hash, front) {
        var i :| 0 <= i < |front| && e in Encs(hash, front[i]);
        assert kids[i] == front[i];
      }
      if i :| 0 <= i < |kids| && e in Encs(hash, kids[i]) {
        assert i < |front| ==> front[i] == kids[i];
      }
    }
  }

  lemma EncsFullIs(hash: HashFn, kids: seq<Node>)
    ensures Encs(hash, Full(kids)) == Own(hash, Full(kids)) + EncsOf(hash, kids)
  {
    hide Own, EncsOf;
    forall e ensures e in Encs(hash, Full(kids)) <==> e in Own(hash, Full(kids)) + EncsOf(hash, kids) {
      EncsOfHas(hash, kids, e);
    }
  }

  /** Hash takes a nonempty reference for the root hash and hashes the RLP data otherwise. */
  lemma HashOfRef(hash: HashFn, n: Node, t: Node, x: Item)
    requires x == RefItem(hash, n) && NodeItem(hash, n) == NodeItem(hash, t) && !n.Value? && !n.Hash?
    ensures (if x.Str? && |x.bytes| > 0 then x.bytes else hash(Encode(NodeItem(hash, n)))) == RootHash(hash, t)
  {
    hide Encode;
    SameEnc(hash, n, t);
  }

  lemma HashOfRep(hash: HashFn, kept: set<seq<Byte>>, mem: Memory, n: Node, t: Node, c: Contents, len: nat, x: Item)
    requires !n.Hash? && Rep(hash, kept, mem, n, t) && Denotes(mem, t, c, len) && x == RefItem(hash, n)
    ensures (if x.Str? && |x.bytes| > 0 then x.bytes else hash(Encode(NodeItem(hash, n)))) == RootHash(hash, t)
  {
    hide *;
    RepItem(hash, kept, mem, n, t);
    RepShape(hash, kept, mem, n, t);
    DenotesGood(mem, t, c, len);
    RefCases(hash, t, 2 * len + 1);
    HashOfRef(hash, n, t, x);
  }

  // ---------- operations on a partly loaded trie ----------

  /** An operation on the loaded part stands for the operation on the whole tree and on its contents. */
  lemma StepRep(hash: HashFn, kept: set<seq<Byte>>, mem: Memory, n: Node, t: Node, c: Contents, len: nat, op: Op)
    requires !n.Hash? && Rep(hash, kept, mem, n, t) && Denotes(mem, t, c, len) && |op.key| == len
    ensures var r, u := ApplyToTrie(mem, n, op), ApplyToTrie(mem, t, op);
            && r.Some? && u.Some? && !r.value.Hash? && Rep(hash, kept, mem, r.value, u.value)
            && Denotes(mem, u.value, ApplyToMap(c, op), len)
  {
    hide Denotes, Rep, Insert, Delete, ToKey;
    ApplyDenotes(mem, t, op, c, len);
    if op.Update? && op.value != [] {
      InsertRep(hash, kept, mem, n, t, ToKey(op.key), Value(op.value));
    } else {
      DeleteRep(hash, kept, mem, n, t, ToKey(op.key));
    }
  }

  lemma AnswerRep(hash: HashFn, kept: set<seq<Byte>>, mem: Memory, n: Node, t: Node, c: Contents, len: nat, k: seq<Byte>)
    requires !n.Hash? && Rep(hash, kept, mem, n, t) && Denotes(mem, t, c, len)
    ensures Get(mem, n, ToKey(k)) == Some(ValueAt(c, k))
  {
    hide *;
    AnswerWhole(mem, t, c, len, k);
    ValueOrNil(c, k);
    GetRep(hash, kept, mem, n, t, ToKey(k));
    RepOfValue(hash, kept, mem, Get(mem, n, ToKey(k)), ValueAt(c, k));
  }

  lemma RepOfValue(hash: HashFn, kept: set<seq<Byte>>, mem: Memory, r: Option<Node>, v: Node)
    requires RepOption(hash, kept, mem, r, Some(v)) && (v.Nil? || v.Value?)
    ensures r == Some(v)
  {
    hide Encs, Enc;
  }

  lemma ValueOrNil(c: Contents, k: seq<Byte>)
    ensures ValueAt(c, k).Nil? || ValueAt(c, k).Value?
  {}

  lemma AnswerWhole(mem: Memory, t: Node, c: Contents, len: nat, k: seq<Byte>)
    requires Denotes(mem, t, c, len)
    ensures Get(mem, t, ToKey(k)) == Some(ValueAt(c, k))
  {
    hide Get, Canon, Uniform, ToKey;
    if |k| != len {
      UniformGet(mem, t, 2 * len + 1, ToKey(k));
    }
  }

  // ---------- opening a stored trie ----------

  function Fetch(db: Db, h: seq<Byte>): (n: Node)
  {
    if h in db then NodeOf(db[h]) else Nil
  }

  /** The node fetched under a root hash stands for the whole tree. */
  lemma FetchRep(hash: HashFn, db: Db, t: Node, d: nat, h: seq<Byte>)
    requires Good(t, d) && h == RootHash(hash, t)
    requires Stored(hash, db, Encs(hash, t)) && Clashless(hash, Encs(hash, t))
    requires if t.Nil? then h !in db else Big(hash, t)
    ensures !Fetch(db, h).Hash? && Rep(hash, Encs(hash, t), MemOf(db), Fetch(db, h), t)
  {
    hide Big, RootHash, Encs, Good, Rep, NodeOf, Stored, Clashless, MemOf;
    if t.Nil? {
      RepNil(hash, Encs(hash, t), MemOf(db));
    } else {
      FetchBig(hash, db, t, d, h);
    }
  }

  lemma FetchBig(hash: HashFn, db: Db, t: Node, d: nat, h: seq<Byte>)
    requires Good(t, d) && h == RootHash(hash, t) && Big(hash, t)
    requires Stored(hash, db, Encs(hash, t)) && Clashless(hash, Encs(hash, t))
    ensures !Fetch(db, h).Hash? && Rep(hash, Encs(hash, t), MemOf(db), Fetch(db, h), t)
  {
    hide RootHash, Enc, Encs, Good, Rep, MkNode, NodeOf, NodeItem, Stored, Clashless;
    MkNodeRep(hash, Encs(hash, t), db, t, d);
    BigIsStored(hash, Encs(hash, t), db, t, d);
  }

  lemma {:induction false} EncsAreBig(hash: HashFn, t: Node, e: seq<Byte>)
    requires e in Encs(hash, t)
    ensures |e| >= 32
  {
    hide Enc;
    match t
    case Short(_, c) =>
      if e !in Own(hash, t) {
        EncsAreBig(hash, c, e);
      }
    case Full(kids) =>
      if e !in Own(hash, t) {
        var i :| 0 <= i < |kids| && e in Encs(hash, kids[i]);
        EncsAreBig(hash, kids[i], e);
      }
  }

  /**
   When a store holding what Hash wrote gives the trie back under its root hash: exactly when the
   trie is empty or its root has 32 bytes or more. A smaller root is hashed but never written.
   */
  lemma ReloadIff(hash: HashFn, t: Node, d: nat, db: Db)
    requires Good(t, d) && Clashless(hash, Encs(hash, t) + {Enc(hash, t)}) && Added(hash, map[], db, Encs(hash, t))
    ensures var n := Fetch(db, RootHash(hash, t));
            (!n.Hash? && Rep(hash, Encs(hash, t), MemOf(db), n, t)) <==> t.Nil? || Big(hash, t)
  {
    hide *;
    var s, h := Encs(hash, t), RootHash(hash, t);
    Smaller(hash, map[], s, s + {Enc(hash, t)});
    RefCases(hash, t, d);
    if Big(hash, t) {
      WrittenStored(hash, db, s);
      FetchBig(hash, db, t, d, h);
    } else {
      SmallNotFound(hash, t, db);
      FetchNothing(db, h);
      if t.Nil? {
        RepNil(hash, s, MemOf(db));
      } else {
        RepShapeNil(hash, s, MemOf(db), t);
      }
    }
  }

  lemma FetchNothing(db: Db, h: seq<Byte>)
    requires h !in db
    ensures Fetch(db, h) == Nil
  {}

  lemma WrittenStored(hash: HashFn, db: Db, s: set<seq<Byte>>)
    requires Added(hash, map[], db, s) && Clashless(hash, s)
    ensures Stored(hash, db, s)
  {
    hide Added, Clashless;
    assert {} + s == s && map[] + db == db;
    AddedStored(hash, map[], map[], db, s, {});
  }

  lemma RepShapeNil(hash: HashFn, kept: set<seq<Byte>>, mem: Memory, t: Node)
    requires !t.Nil?
    ensures !Rep(hash, kept, mem, Nil, t)
  {}

  lemma SmallNotFound(hash: HashFn, t: Node, db: Db)
    requires !Big(hash, t) && (t.Nil? || t.Short? || t.Full?)
    requires Clashless(hash, Encs(hash, t) + {Enc(hash, t)}) && Added(hash, map[], db, Encs(hash, t))
    ensures RootHash(hash, t) !in db
  {
    hide Encs, Clashless, Enc, Added;
    var h := RootHash(hash, t);
    AddedAt(hash, map[], db, Encs(hash, t), Enc(hash, t), h);
    if h in db {
      EncsAreBig(hash, t, db[h]);
      SameHash(hash, Encs(hash, t) + {Enc(hash, t)}, db[h], Enc(hash, t));
      SmallEnc(hash, t);
    }
  }

  lemma SmallEnc(hash: HashFn, t: Node)
    requires !Big(hash, t) && (t.Nil? || t.Short? || t.Full?)
    ensures |Enc(hash, t)| < 32
  {}

  /** When Hash and Commit leave the tree loadable from the store alone: it is enough to write what is not stored already. */
  lemma {:induction false} RepFlushed(hash: HashFn, kept: set<seq<Byte>>, disk: Db, before: Db, after: Db, n: Node, t: Node,
                                      written: set<seq<Byte>>)
    requires Rep(hash, kept, MemOf(disk + before), n, t) && Stored(hash, disk + before, kept)
    requires Added(hash, before, after, written) && written <= Encs(hash, n) <= written + kept
        && Clashless(hash, kept + Encs(hash, n))
    ensures Rep(hash, kept, MemOf(disk + after), n, t) && Stored(hash, disk + after, kept)
    ensures Stored(hash, disk + after, Encs(hash, t))
  {
    hide *;
    assert kept + Encs(hash, n) == kept + written;
    RepEncs(hash, kept, MemOf(disk + before), n, t);
    StoredAfter(hash, kept, disk, before, after, written, Encs(hash, t));
    RepGrow(hash, kept, disk + before, disk + after, n, t);
  }

  lemma StoredAfter(hash: HashFn, kept: set<seq<Byte>>, disk: Db, before: Db, after: Db, written: set<seq<Byte>>,
                    s: set<seq<Byte>>)
    requires Stored(hash, disk + before, kept) && Added(hash, before, after, written) && Clashless(hash, kept + written)
    requires s <= kept + written
    ensures Stored(hash, disk + after, kept) && Clashless(hash, kept) && Stored(hash, disk + after, s)
  {
    hide *;
    AddedStored(hash, disk, before, after, written, kept);
    Smaller(hash, disk + after, kept, kept + written);
    Smaller(hash, disk + after, s, kept + written);
  }

  /** What makes a committed trie of long keys loadable from its root hash. */
  lemma ReadyToOpen(hash: HashFn, kept: set<seq<Byte>>, mem: Memory, n: Node, t: Node, c: Contents, len: nat)
    requires Rep(hash, kept, mem, n, t) && Denotes(mem, t, c, len) && len >= 30 && Clashless(hash, kept + Encs(hash, n))
    ensures Denotes(map[], t, c, len) && Clashless(hash, Encs(hash, t)) && (!t.Nil? ==> Big(hash, t))
  {
    hide *;
    RepEncs(hash, kept, mem, n, t);
    Smaller(hash, map[], Encs(hash, t), kept + Encs(hash, n));
    DenotesAnyMem(mem, map[], t, c, len);
    if !t.Nil? {
      LongKeysAreBig(hash, mem, t, c, len);
    }
  }

  lemma LongKeysAreBig(hash: HashFn, mem: Memory, t: Node, c: Contents, len: nat)
    requires Denotes(mem, t, c, len) && len >= 30 && !t.Nil?
    ensures Big(hash, t)
  {
    hide *;
    DenotesGood(mem, t, c, len);
    RootIsBig(hash, t, 2 * len + 1);
  }
}
