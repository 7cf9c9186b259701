/**
 Copying a trie. The copy has a root of its own, down to the first full node; all below it shares with the
 original, and a shared node stores itself in the cache of the original. A copy of a hashed trie is a trie like
 any other. In general a committed copy can be opened exactly when what it shares had been stored before.
 */
module TrieCopy {
  import opened Bytes
  import opened HexPrefix
  import opened RlpSpec
  import opened Trie
  import opened TrieDelete
  import opened TrieDirty
  import opened TrieDisk
  import opened TrieEnc
  import opened TrieHash
  import opened TrieIterator
  import opened TrieLazy
  import opened TrieObject
  import opened TrieRoot
  import opened TrieRuns
  import opened TrieStore

  // ---------- the nodes of a copy ----------

  /** A node of another trie, as this one sees it: it is never written here. */
  function Shared(f: FNode): (r: FNode)
  {
    match f
    case FShort(k, c, _) => FShort(k, Shared(c), false)
    case FFull(kids, _) => FFull(SharedAll(kids), false)
    case _ => f
  }

  function SharedAll(fs: seq<FNode>): (rs: seq<FNode>)
    ensures |rs| == |fs| && forall i | 0 <= i < |fs| :: rs[i] == Shared(fs[i])
  {
    seq(|fs|, i requires 0 <= i < |fs| => Shared(fs[i]))
  }

  /** Copy of a node: a short node copies its child, a full node shares its children; both are dirty. */
  function CopyNode(f: FNode): (r: FNode)
  {
    match f
    case FShort(k, c, _) => FShort(k, CopyNode(c), true)
    case FFull(kids, _) => FFull(SharedAll(kids), true)
    case _ => f
  }

  lemma {:induction false} StripShared(f: FNode)
    ensures Strip(Shared(f)) == Strip(f)
  {
    match f
    case FShort(_, c, _) => StripShared(c);
    case FFull(kids, _) => StripSharedAll(kids);
    case _ =>
  }

  lemma {:induction false} StripSharedAll(fs: seq<FNode>)
    ensures StripAll(SharedAll(fs)) == StripAll(fs)
  {
    forall i | 0 <= i < |fs| ensures Strip(Shared(fs[i])) == Strip(fs[i]) {
      StripShared(fs[i]);
    }
  }

  lemma {:induction false} StripCopy(f: FNode)
    ensures Strip(CopyNode(f)) == Strip(f)
  {
    match f
    case FShort(_, c, _) => StripCopy(c);
    case FFull(kids, _) => StripSharedAll(kids);
    case _ =>
  }

  /** What a copy writes itself. */
  ghost function Top(hash: HashFn, n: Node): (s: set<seq<Byte>>)
  {
    match n
    case Short(_, c) => Own(hash, n) + Top(hash, c)
    case Full(_) => Own(hash, n)
    case _ => {}
  }

  lemma {:induction false} DirtyShared(hash: HashFn, f: FNode)
    ensures Dirty(hash, Shared(f)) == {}
    decreases f, 1
  {
    match f
    case FShort(_, c, _) => DirtyShared(hash, c);
    case FFull(kids, _) => DirtySharedAll(hash, kids);
    case _ =>
  }

  lemma {:induction false} DirtySharedAll(hash: HashFn, fs: seq<FNode>)
    ensures DirtyOf(hash, SharedAll(fs)) == {}
    decreases fs, 0
  {
    hide Dirty, Shared;
    if fs != [] {
      var front := fs[..|fs| - 1];
      assert SharedAll(fs)[..|fs| - 1] == SharedAll(front);
      DirtySharedAll(hash, front);
      DirtyShared(hash, fs[|fs| - 1]);
    }
  }

  lemma {:induction false} DirtyCopy(hash: HashFn, f: FNode)
    ensures Dirty(hash, CopyNode(f)) == Top(hash, Strip(f))
  {
    hide Big, Enc, Shared;
    StripCopy(f);
    match f
    case FShort(_, c, _) => DirtyCopy(hash, c);
    case FFull(kids, _) =>
      DirtySharedAll(hash, kids);
      StripSharedAll(kids);
    case _ =>
  }

  /** What a copy writes belongs to its tree. */
  lemma {:induction false} TopIn(hash: HashFn, kept: set<seq<Byte>>, mem: Memory, n: Node, t: Node)
    requires Rep(hash, kept, mem, n, t)
    ensures Top(hash, n) <= Encs(hash, t) && Top(hash, n) <= Encs(hash, n)
    decreases n
  {
    hide Rep, NodeItem, RefItem, Own;
    RepShape(hash, kept, mem, n, t);
    RepItem(hash, kept, mem, n, t);
    SameKind(hash, kept, mem, n, t);
    if n.Short? {
      SameRef(hash, n, t);
      TopIn(hash, kept, mem, n.child, t.child);
    } else if n.Full? {
      SameRef(hash, n, t);
      assert Own(hash, t) <= Encs(hash, t) && Own(hash, n) <= Encs(hash, n);
    }
  }

  // ---------- when a committed copy can be opened ----------

  /** Whatever is stored under the hash of one of these encodings is that encoding. */
  ghost predicate Honest(hash: HashFn, db: Db, s: set<seq<Byte>>)
  {
    forall e | e in s && hash(e) in db :: db[hash(e)] == e
  }

  /** The store after a batch: an encoding is there if it was written or was there before. */
  lemma AfterBatch(hash: HashFn, base: Db, batch: Db, s: set<seq<Byte>>, top: set<seq<Byte>>, e: seq<Byte>, k: seq<Byte>)
    requires Added(hash, map[], batch, top) && top <= s && Clashless(hash, s) && Honest(hash, base, s)
    requires e in s && k == hash(e)
    ensures k in base + batch <==> e in top || k in base
    ensures k in base + batch ==> (base + batch)[k] == e
  {
    hide Added, Clashless;
    AddedAt(hash, map[], batch, top, e, k);
    if k in batch {
      SameHash(hash, s, batch[k], e);
    }
  }

  /**
   A committed copy can be opened under its root hash exactly when all that it shares was in the store before:
   base is the store it is flushed to, with what the copy of the cache adds to it.
   */
  lemma CopyOpensIff(hash: HashFn, base: Db, batch: Db, t: Node, d: nat, top: set<seq<Byte>>)
    requires Good(t, d) && Big(hash, t) && Clashless(hash, Encs(hash, t)) && Honest(hash, base, Encs(hash, t))
    requires Added(hash, map[], batch, top) && top <= Encs(hash, t)
    ensures Comes(hash, Encs(hash, t), base + batch, t) <==> Stored(hash, base, Encs(hash, t) - top)
  {
    var s, db := Encs(hash, t), base + batch;
    hide Encs, Good, Big, Clashless, Added, Comes, Honest;
    forall e | e in s
      ensures (hash(e) in db <==> e in top || hash(e) in base) && (hash(e) in db ==> db[hash(e)] == e)
      ensures hash(e) in base ==> base[hash(e)] == e
    {
      AfterBatch(hash, base, batch, s, top, e, hash(e));
      HonestAt(hash, base, s, e);
    }
    ComesIff(hash, db, t, d);
  }

  lemma HonestAt(hash: HashFn, db: Db, s: set<seq<Byte>>, e: seq<Byte>)
    requires Honest(hash, db, s) && e in s
    ensures hash(e) in db ==> db[hash(e)] == e
  {}

  // ---------- the copy of a hashed trie ----------

  /** More may be kept. */
  lemma {:induction false} RepMore(hash: HashFn, kept: set<seq<Byte>>, more: set<seq<Byte>>, mem: Memory, n: Node, t: Node)
    requires Rep(hash, kept, mem, n, t) && kept <= more
    ensures Rep(hash, more, mem, n, t)
    decreases t, if n.Hash? then 1 else 0
  {
    hide Big, RootHash, Encs;
    if n.Hash? {
      RepMore(hash, kept, more, mem, mem[n.h], t);
    } else {
      match t
      case Short(_, c) => RepMore(hash, kept, more, mem, n.child, c);
      case Full(kids) =>
        forall i | 0 <= i < |kids| ensures Rep(hash, more, mem, n.kids[i], kids[i]) {
          RepMore(hash, kept, more, mem, n.kids[i], kids[i]);
        }
      case _ =>
    }
  }

  lemma CopyIsValid(hash: HashFn, kept: set<seq<Byte>>, db: Db, f: FNode, t: Node)
    requires Rep(hash, kept, MemOf(db), Strip(f), t) && Stored(hash, db, kept) && Stored(hash, db, Encs(hash, t)) && !f.FHash?
    ensures var more, r := kept + Encs(hash, t), CopyNode(f);
            !r.FHash? && Rep(hash, more, MemOf(db), Strip(r), t) && Stored(hash, db, more) && Clean(hash, more, r)
  {
    hide Rep, MemOf, Strip, Clean, Encs;
    var more := kept + Encs(hash, t);
    StripCopy(f);
    RepMore(hash, kept, more, MemOf(db), Strip(f), t);
    RepClean(hash, more, MemOf(db), CopyNode(f), t);
  }

  /** Copy of a trie that has been hashed since it last changed: a trie with the same contents, and no root hash. */
  method Copy(t: MerkleTrie) returns (u: MerkleTrie)
    requires t.Valid() && Stored(t.hash, t.Seen(), Encs(t.hash, t.tree))
    ensures fresh(u) && u.Valid() && u.contents == t.contents && u.tree == t.tree && u.roothash == []
    ensures u.hash == t.hash && u.backend == t.backend && u.len == t.len && u.cache == t.cache
  {
    hide Denotes, Rep, Stored, MemOf, Clean, Encs, Strip, CopyNode;
    CopyIsValid(t.hash, t.kept, t.Seen(), t.root, t.tree);
    u := new MerkleTrie.Beside(t, CopyNode(t.root), t.cache, t.kept + Encs(t.hash, t.tree));
  }

  // ---------- committing a copy ----------

  /** What the shared nodes write, to the original's cache. */
  ghost function SharedDirty(hash: HashFn, f: FNode): (s: set<seq<Byte>>)
  {
    match f
    case FShort(_, c, _) => SharedDirty(hash, c)
    case FFull(kids, _) => DirtyOf(hash, kids)
    case _ => {}
  }

  lemma {:induction false} SharedDirtyIn(hash: HashFn, f: FNode)
    ensures SharedDirty(hash, f) <= Dirty(hash, f)
  {
    hide OwnDirty;
    if f.FShort? {
      SharedDirtyIn(hash, f.child);
    }
  }

  method StoreShared(t: MerkleTrie, f: FNode)
    modifies t`cache
    ensures Added(t.hash, old(t.cache), t.cache, SharedDirty(t.hash, f))
    decreases f
  {
    hide Added, DirtyOf;
    AddedNone(t.hash, t.cache);
    match f
    case FShort(_, c, _) => StoreShared(t, c);
    case FFull(kids, _) =>
      ghost var done := {};
      NoDirtyKids(t.hash);
      for i := 0 to |kids|
        invariant done == DirtyOf(t.hash, kids[..i]) && Added(t.hash, old(t.cache), t.cache, done)
      {
        ghost var was := t.cache;
        var _ := t.StoreNode(kids[i]);
        AddedThen(t.hash, old(t.cache), was, t.cache, done, Dirty(t.hash, kids[i]));
        NextDirtyKid(t.hash, kids, i);
        done := done + Dirty(t.hash, kids[i]);
      }
      assert kids[..|kids|] == kids;
    case _ =>
  }

  /** A store that has gained nothing but encodings of s, and what the cache held. */
  ghost predicate Gained(hash: HashFn, disk: Db, cache: Db, disk2: Db, s: set<seq<Byte>>)
  {
    && (forall k | k in disk :: k in disk2)
    && forall k | k in disk2 ::
         (k in disk && disk2[k] == disk[k]) || (k in cache && disk2[k] == cache[k]) || (disk2[k] in s && hash(disk2[k]) == k)
  }

  lemma FlushGains(hash: HashFn, disk: Db, cache: Db, batch: Db, top: set<seq<Byte>>, s: set<seq<Byte>>)
    requires Added(hash, map[], batch, top) && top <= s
    ensures Gained(hash, disk, cache, disk + batch, s) && Gained(hash, disk, cache, disk + (cache + batch), s)
  {}

  /** Nothing the original needs is lost by what its copy stores. */
  lemma KeptStays(hash: HashFn, kept: set<seq<Byte>>, disk: Db, cache: Db, disk2: Db, cache2: Db, s: set<seq<Byte>>,
                  w: set<seq<Byte>>)
    requires Stored(hash, disk + cache, kept) && Clashless(hash, kept + s) && w <= s
    requires Gained(hash, disk, cache, disk2, s) && Added(hash, cache, cache2, w)
    ensures Stored(hash, disk2 + cache2, kept)
  {
    hide Added, Clashless, Gained;
    forall e | e in kept ensures hash(e) in disk2 + cache2 && (disk2 + cache2)[hash(e)] == e {
      OneStays(hash, kept, disk, cache, disk2, cache2, s, w, e, hash(e));
    }
  }

  lemma OneStays(hash: HashFn, kept: set<seq<Byte>>, disk: Db, cache: Db, disk2: Db, cache2: Db, s: set<seq<Byte>>,
                 w: set<seq<Byte>>, e: seq<Byte>, k: seq<Byte>)
    requires Clashless(hash, kept + s) && Gained(hash, disk, cache, disk2, s) && Added(hash, cache, cache2, w) && w <= s
    requires e in kept && k == hash(e) && k in disk + cache && (disk + cache)[k] == e
    ensures k in disk2 + cache2 && (disk2 + cache2)[k] == e
  {
    hide Added, Clashless;
    AddedAt(hash, cache, cache2, w, e, k);
    if k in cache2 {
      if !(k in cache && cache2[k] == cache[k]) {
        SameHash(hash, kept + s, cache2[k], e);
      }
    } else if disk2[k] in s && hash(disk2[k]) == k {
      SameHash(hash, kept + s, disk2[k], e);
    }
  }

  /** The original after its copy has been committed. */
  lemma OriginalStays(hash: HashFn, kept: set<seq<Byte>>, disk: Db, cache: Db, disk2: Db, cache2: Db, f: FNode, t: Node,
                      c: Contents, len: nat)
    requires Denotes(MemOf(disk + cache), t, c, len) && Rep(hash, kept, MemOf(disk + cache), Strip(f), t)
    requires Stored(hash, disk + cache, kept) && Clean(hash, kept, f) && Clashless(hash, kept + Encs(hash, Strip(f)))
    requires Gained(hash, disk, cache, disk2, Encs(hash, Strip(f))) && Added(hash, cache, cache2, SharedDirty(hash, f))
    ensures Denotes(MemOf(disk2 + cache2), t, c, len) && Rep(hash, kept, MemOf(disk2 + cache2), Strip(f), t)
    ensures Stored(hash, disk2 + cache2, kept)
  {
    hide *;
    var s := Encs(hash, Strip(f));
    SharedDirtyIn(hash, f);
    CleanLosesNothing(hash, kept, f);
    KeptStays(hash, kept, disk, cache, disk2, cache2, s, SharedDirty(hash, f));
    RepGrow(hash, kept, disk + cache, disk2 + cache2, Strip(f), t);
    DenotesAnyMem(MemOf(disk + cache), MemOf(disk2 + cache2), t, c, len);
  }

  /** The encodings a copy shares. */
  ghost function Below(hash: HashFn, f: FNode, t: Node): (s: set<seq<Byte>>)
  {
    Encs(hash, t) - Top(hash, Strip(f))
  }

  lemma Parts(t: MerkleTrie)
    requires t.Valid()
    ensures Denotes(MemOf(t.Seen()), t.tree, t.contents, t.len) && Stored(t.hash, t.Seen(), t.kept)
    ensures !Strip(t.root).Hash? && Rep(t.hash, t.kept, MemOf(t.Seen()), Strip(t.root), t.tree) && Clean(t.hash, t.kept, t.root)
    ensures t.Seen() == t.backend.db + t.cache
  {
    hide Denotes, Rep, Stored, MemOf, Clean;
  }

  /** Copy and Hash of the copy: its batch, which starts empty, and the root hash. */
  method HashCopy(t: MerkleTrie) returns (u: MerkleTrie)
    requires t.Valid()
    ensures fresh(u) && u.hash == t.hash && u.backend == t.backend && u.tree == t.tree && u.roothash == RootHash(t.hash, t.tree)
    ensures Added(t.hash, map[], u.cache, Top(t.hash, Strip(t.root)))
  {
    hide *;
    Parts(t);
    StripCopy(t.root);
    DirtyCopy(t.hash, t.root);
    u := new MerkleTrie.Beside(t, CopyNode(t.root), map[], t.kept);
    var x := u.StoreNode(u.root);
    HashOfRep(t.hash, t.kept, MemOf(t.Seen()), Strip(t.root), t.tree, t.contents, t.len, x);
    u.roothash := if x.Str? && |x.bytes| > 0 then x.bytes else t.hash(Encode(NodeItem(t.hash, Strip(u.root))));
  }

  lemma OpensIff(hash: HashFn, kept: set<seq<Byte>>, mem: Memory, f: FNode, t: Node, c: Contents, len: nat, base: Db, batch: Db)
    requires Denotes(mem, t, c, len) && Rep(hash, kept, mem, Strip(f), t)
    requires len >= 30 && !t.Nil? && Clashless(hash, kept + Encs(hash, Strip(f)))
    requires Honest(hash, base, Encs(hash, t)) && Added(hash, map[], batch, Top(hash, Strip(f)))
    ensures Comes(hash, Encs(hash, t), base + batch, t) <==> Stored(hash, base, Below(hash, f, t))
  {
    hide *;
    ReadyToOpen(hash, kept, mem, Strip(f), t, c, len);
    DenotesGood(mem, t, c, len);
    TopIn(hash, kept, mem, Strip(f), t);
    CopyOpensIff(hash, base, batch, t, 2 * len + 1, Top(hash, Strip(f)));
    BelowIs(hash, f, t);
  }

  lemma BelowIs(hash: HashFn, f: FNode, t: Node)
    ensures Below(hash, f, t) == Encs(hash, t) - Top(hash, Strip(f))
  {}

  lemma AddAssociative(a: Db, b: Db, c: Db)
    ensures a + (b + c) == a + b + c
  {}

  /** The shared nodes go to the original's cache, the batch or the cache of the copy to the database. */
  method FlushCopy(t: MerkleTrie, batch: Db, batched: bool)
    requires t.Valid() && Clashless(t.hash, t.kept + Encs(t.hash, Strip(t.root)))
    requires Added(t.hash, map[], batch, Top(t.hash, Strip(t.root)))
    modifies t`cache, t.backend
    ensures t.Valid() && t.backend.db == (if batched then old(t.backend.db) else old(t.Seen())) + batch
    ensures Added(t.hash, old(t.cache), t.cache, SharedDirty(t.hash, t.root))
  {
    hide Denotes, Rep, Stored, MemOf, Clean, Encs, Strip, Clashless, Added, Top, SharedDirty, Gained;
    var cache := t.cache + batch;
    ghost var disk, was := t.backend.db, t.cache;
    TopIn(t.hash, t.kept, MemOf(t.Seen()), Strip(t.root), t.tree);
    FlushGains(t.hash, disk, was, batch, Top(t.hash, Strip(t.root)), Encs(t.hash, Strip(t.root)));
    StoreShared(t, t.root);
    t.backend.db := t.backend.db + if batched then batch else cache;
    OriginalStays(t.hash, t.kept, disk, was, t.backend.db, t.cache, t.root, t.tree, t.contents, t.len);
    AddAssociative(disk, was, batch);
  }

  /**
   Copy and Commit of the copy, over a database that takes the batch or one that takes the cache entry by entry.
   The copy can be opened exactly when what it shares was there: in the database if it takes the batch, which
   never holds shared nodes, and in the database or the original's cache if it does not.
   */
  method CommitCopy(t: MerkleTrie, batched: bool) returns (u: MerkleTrie)
    requires t.Valid() && t.len >= 30 && !t.tree.Nil? && Clashless(t.hash, t.kept + Encs(t.hash, Strip(t.root)))
    requires Honest(t.hash, t.Seen(), Encs(t.hash, t.tree)) && Honest(t.hash, t.backend.db, Encs(t.hash, t.tree))
    modifies t`cache, t.backend
    ensures t.Valid() && fresh(u) && u.tree == t.tree && u.roothash == RootHash(t.hash, t.tree)
    ensures Added(t.hash, old(t.cache), t.cache, SharedDirty(t.hash, t.root))
    ensures Comes(t.hash, Encs(t.hash, t.tree), t.backend.db, t.tree) <==>
            Stored(t.hash, if batched then old(t.backend.db) else old(t.Seen()), Below(t.hash, t.root, t.tree))
  {
    hide *;
    u := HashCopy(t);
    ghost var base := if batched then t.backend.db else t.Seen();
    Parts(t);
    OpensIff(t.hash, t.kept, MemOf(t.Seen()), t.root, t.tree, t.contents, t.len, base, u.cache);
    FlushCopy(t, u.cache, batched);
  }

  // ---------- a copy that cannot be opened ----------

  /** A full root that shares something large: its children are not written. */
  lemma SharesKids(hash: HashFn, t: Node, d: nat)
    requires Good(t, d) && d >= 62 && t.Full? && Clashless(hash, Encs(hash, t))
    ensures exists e :: e in Encs(hash, t) - Top(hash, t)
  {
    hide *;
    FullDepth(t.kids, d);
    var i := SomeKid(t.kids, d);
    var c := t.kids[i];
    RootIsBig(hash, c, d - 1);
    OwnIn(hash, c);
    EncsChild(hash, t, c);
    TopOfFull(hash, t);
    if Enc(hash, c) == Enc(hash, t) {
      BigShape(hash, c);
      assert Encs(hash, c) + Encs(hash, t) == Encs(hash, t);
      EncFixesTree(hash, c, d - 1, t, d);
    }
    assert Enc(hash, c) in Encs(hash, t) - Top(hash, t);
  }

  lemma SomeKid(kids: seq<Node>, d: nat) returns (i: nat)
    requires Good(Full(kids), d)
    ensures i < |kids| && !kids[i].Nil?
  {
    var a, b :| 0 <= a < b < |kids| && !kids[a].Nil? && !kids[b].Nil?;
    i := a;
  }

  lemma TopOfFull(hash: HashFn, t: Node)
    requires t.Full?
    ensures Top(hash, t) <= {Enc(hash, t)}
  {
    hide Enc;
  }

  /** Two keys that differ in their first nibble. */
  predicate Apart(a: seq<Byte>, b: seq<Byte>)
  {
    |a| == 32 == |b| && a[0] / 16 != b[0] / 16
  }

  /** No collision among the nodes of a trie with these contents. */
  ghost predicate NoClash(hash: HashFn, c: Contents)
  {
    forall n | Denotes(map[], n, c, 32) :: Clashless(hash, Encs(hash, n))
  }

  lemma NoClashIn(hash: HashFn, c: Contents, n: Node)
    requires NoClash(hash, c) && Denotes(map[], n, c, 32)
    ensures Clashless(hash, Encs(hash, n))
  {
    hide Denotes, Clashless, Encs;
  }

  /** They part at the root. */
  lemma PartAtRoot(t: Node, c: Contents, a: seq<Byte>, b: seq<Byte>)
    requires Denotes(map[], t, c, 32) && a in c && b in c && Apart(a, b)
    ensures t.Full?
  {
    hide Uniform;
    FirstNibble(t, c, a);
    FirstNibble(t, c, b);
  }

  lemma FirstNibble(t: Node, c: Contents, a: seq<Byte>)
    requires Denotes(map[], t, c, 32) && a in c && |a| == 32
    ensures t.Full? || (t.Short? && t.key != [] && t.key[0] == a[0] / 16)
  {
    hide Uniform;
    var k := ToKey(a);
    assert k[0] == a[0] / 16;
    assert Get(map[], t, k) == Some(ValueAt(c, a));
  }

  /** An empty store holds no encoding. */
  lemma EmptyStore(hash: HashFn, s: set<seq<Byte>>, e: seq<Byte>)
    requires e in s
    ensures !Stored(hash, map[], s) && Honest(hash, map[], s)
  {}

  /** A trie with two keys that has never been hashed: its committed copy cannot be opened. */
  method LostCopy(hash: HashFn, a: seq<Byte>, b: seq<Byte>, v: seq<Byte>, batched: bool) returns (t: MerkleTrie, u: MerkleTrie)
    requires Apart(a, b) && v != [] && NoClash(hash, map[a := v, b := v])
    ensures fresh(t) && t.Valid() && t.hash == hash && t.contents == map[a := v, b := v]
    ensures fresh(u) && u.tree == t.tree && u.roothash == RootHash(hash, t.tree)
    ensures !Comes(hash, Encs(hash, t.tree), t.backend.db, t.tree)
  {
    hide *;
    t := TwoKeys(hash, a, b, v);
    u := CommitLost(t, a, b, batched);
  }

  method CommitLost(t: MerkleTrie, ghost a: seq<Byte>, ghost b: seq<Byte>, batched: bool) returns (u: MerkleTrie)
    requires t.Valid() && t.len == 32 && t.kept == {} && t.cache == map[] && t.backend.db == map[]
    requires a in t.contents && b in t.contents && Apart(a, b) && NoClash(t.hash, t.contents)
    modifies t`cache, t.backend
    ensures t.Valid() && fresh(u) && u.tree == t.tree && u.roothash == RootHash(t.hash, t.tree)
    ensures !Comes(t.hash, Encs(t.hash, t.tree), t.backend.db, t.tree)
  {
    hide *;
    NeverHashed(t, a, b);
    u := CommitCopy(t, batched);
  }

  method TwoKeys(hash: HashFn, a: seq<Byte>, b: seq<Byte>, v: seq<Byte>) returns (t: MerkleTrie)
    requires Apart(a, b) && v != []
    ensures fresh(t) && fresh(t.backend) && t.Valid() && t.hash == hash && t.len == 32 && t.contents == map[a := v, b := v]
    ensures t.kept == {} && t.cache == map[] && t.backend.db == map[]
  {
    hide MerkleTrie.Valid;
    var backend := new Backend();
    t := new MerkleTrie.Empty(hash, backend, 32);
    t.Update(a, v);
    t.Update(b, v);
  }

  lemma NeverHashed(t: MerkleTrie, a: seq<Byte>, b: seq<Byte>)
    requires t.Valid() && t.len == 32 && t.kept == {} && t.cache == map[] && t.backend.db == map[]
    requires a in t.contents && b in t.contents && Apart(a, b) && NoClash(t.hash, t.contents)
    ensures !t.tree.Nil? && Clashless(t.hash, t.kept + Encs(t.hash, Strip(t.root))) && t.Seen() == map[]
    ensures Honest(t.hash, map[], Encs(t.hash, t.tree)) && !Stored(t.hash, map[], Below(t.hash, t.root, t.tree))
  {
    hide *;
    Parts(t);
    DenotesAnyMem(MemOf(t.Seen()), map[], t.tree, t.contents, 32);
    DenotesGood(map[], t.tree, t.contents, 32);
    NoClashIn(t.hash, t.contents, t.tree);
    PartAtRoot(t.tree, t.contents, a, b);
    NothingKept(t.hash, MemOf(t.Seen()), Strip(t.root), t.tree);
    assert {} + Encs(t.hash, t.tree) == Encs(t.hash, t.tree);
    SharesKids(t.hash, t.tree, 65);
    BelowIs(t.hash, t.root, t.tree);
    var e :| e in Encs(t.hash, t.tree) - Top(t.hash, t.tree);
    EmptyStore(t.hash, Encs(t.hash, t.tree), e);
    EmptyStore(t.hash, Below(t.hash, t.root, t.tree), e);
  }
}
