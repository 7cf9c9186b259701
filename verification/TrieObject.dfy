/**
 The Trie object over a backing store: updates act on the loaded part of the tree, Hash writes
 every large node to the cache, Commit flushes the cache, and opening the root hash again gives
 a trie with the same contents.
 */
module TrieObject {
  import opened Bytes
  import opened RlpSpec
  import opened Trie
  import opened TrieEnc
  import opened TrieLazy
  import opened TrieStore
  import opened TrieRuns
  import opened TrieHash
  import opened TrieDirty
  import opened HexPrefix

  class Backend {
    var db: Db

    constructor ()
      ensures db == map[]
    {
      db := map[];
    }
  }

  /** An empty tree over any store. */
  lemma NothingYet(hash: HashFn, db: Db, len: nat)
    ensures Denotes(MemOf(db), Nil, map[], len) && Rep(hash, {}, MemOf(db), Strip(FNil), Nil)
        && Stored(hash, db, {}) && Clean(hash, {}, FNil)
  {
    hide Denotes, Rep, Stored, MemOf, Clean;
    NilClean(hash, {});
    EmptyDenotes(MemOf(db), len);
    RepNil(hash, {}, MemOf(db));
    StoredNone(hash, db);
  }

  /** What becomes of a node, by its size and its flag. */
  lemma KeepCases(hash: HashFn, f: FNode, item: Item)
    requires (f.FShort? || f.FFull?) && item == NodeItem(hash, Strip(f))
    ensures var data := Encode(item);
            && RefItem(hash, Strip(f)) == (if |data| >= 32 then Str(hash(data)) else item)
            && OwnDirty(hash, f) == if |data| >= 32 && f.dirty then {data} else {}
  {
    hide RefItem, NodeItem, Encode, Strip, Big, Enc;
    RefBySize(hash, Strip(f));
  }

  lemma RefBySize(hash: HashFn, n: Node)
    requires n.Short? || n.Full?
    ensures var data := Encode(NodeItem(hash, n));
            && Enc(hash, n) == data && (Big(hash, n) <==> |data| >= 32)
            && RefItem(hash, n) == if |data| >= 32 then Str(hash(data)) else NodeItem(hash, n)
  {
    hide Encode;
  }

  /** The node a trie is opened with. */
  lemma Opened(hash: HashFn, db: Db, t: Node, c: Contents, len: nat, h: seq<Byte>)
    requires Denotes(map[], t, c, len) && h == RootHash(hash, t)
    requires Stored(hash, db, Encs(hash, t)) && Clashless(hash, Encs(hash, t))
    requires if t.Nil? then h !in db else Big(hash, t)
    ensures var f := FFetch(db, h);
            Denotes(MemOf(db), t, c, len) && !f.FHash? && Rep(hash, Encs(hash, t), MemOf(db), Strip(f), t)
              && Clean(hash, Encs(hash, t), f)
  {
    hide *;
    DenotesGood(map[], t, c, len);
    FetchRep(hash, db, t, 2 * len + 1, h);
    StripFetch(db, h);
    DenotesAnyMem(map[], MemOf(db), t, c, len);
    RepClean(hash, Encs(hash, t), MemOf(db), FFetch(db, h), t);
  }

  lemma StripFetch(db: Db, h: seq<Byte>)
    ensures Strip(FFetch(db, h)) == Fetch(db, h)
  {
    hide FNodeOf, NodeOf, Strip;
    if h in db {
      StripNodeOf(db[h]);
    }
  }

  class MerkleTrie {
    const hash: HashFn
    const backend: Backend
    ghost const len: nat
    var root: FNode
    var roothash: seq<Byte>
    var cache: Db
    /** The fully loaded tree, what it holds, and the encodings behind the hashes still in root. */
    ghost var tree: Node
    ghost var contents: Contents
    ghost var kept: set<seq<Byte>>

    /** What Cache.Get sees: the cache first, then the backend. */
    function Seen(): (db: Db)
      reads this, backend
    {
      backend.db + cache
    }

    ghost predicate Valid()
      reads this, backend
    {
      && Denotes(MemOf(Seen()), tree, contents, len)
      && !root.FHash? && Rep(hash, kept, MemOf(Seen()), Strip(root), tree)
      && Stored(hash, Seen(), kept) && Clean(hash, kept, root)
    }

    /** New without a root. */
    constructor Empty(hash: HashFn, backend: Backend, ghost len: nat)
      ensures Valid() && contents == map[] && tree == Nil && kept == {}
      ensures this.hash == hash && this.backend == backend && this.len == len && cache == map[]
    {
      hide Denotes, Rep, Stored, MemOf, Clean;
      this.hash, this.backend, this.len := hash, backend, len;
      root, roothash, cache := FNil, [], map[];
      tree, contents, kept := Nil, map[], {};
      new;
      NothingYet(hash, Seen(), len);
    }

    /** New with the root hash of a trie whose nodes are stored. */
    constructor Open(hash: HashFn, backend: Backend, ghost len: nat, h: seq<Byte>, ghost t: Node, ghost c: Contents)
      requires Denotes(map[], t, c, len) && h == RootHash(hash, t)
      requires Stored(hash, backend.db, Encs(hash, t)) && Clashless(hash, Encs(hash, t))
      requires if t.Nil? then h !in backend.db else Big(hash, t)
      ensures Valid() && contents == c && tree == t && roothash == h && kept == Encs(hash, t)
      ensures this.hash == hash && this.backend == backend && this.len == len && cache == map[]
    {
      hide Denotes, Rep, Stored, Clashless, Big, RootHash, Encs, MemOf, FFetch, Strip, Clean;
      this.hash, this.backend, this.len := hash, backend, len;
      root, roothash, cache := FFetch(backend.db, h), h, map[];
      tree, contents, kept := t, c, Encs(hash, t);
      new;
      assert Seen() == backend.db;
      Opened(hash, backend.db, t, c, len, h);
    }

    /** A trie with a root and a cache of its own over the store of another; it has no root hash yet. */
    constructor Beside(t: MerkleTrie, root: FNode, cache: Db, ghost kept: set<seq<Byte>>)
      ensures hash == t.hash && backend == t.backend && len == t.len && roothash == []
      ensures this.root == root && this.cache == cache && tree == t.tree && contents == t.contents && this.kept == kept
    {
      hash, backend, len := t.hash, t.backend, t.len;
      this.root, roothash, this.cache := root, [], cache;
      tree, contents, this.kept := t.tree, t.contents, kept;
    }

    method Update(key: seq<Byte>, value: seq<Byte>)
      requires Valid() && |key| == len
      modifies `root, `tree, `contents
      ensures Valid() && contents == ApplyToMap(old(contents), TrieRuns.Update(key, value))
    {
      Apply(TrieRuns.Update(key, value));
    }

    method Delete(key: seq<Byte>)
      requires Valid() && |key| == len
      modifies `root, `tree, `contents
      ensures Valid() && contents == old(contents) - {key}
    {
      Apply(Remove(key));
    }

    method Apply(op: Op)
      requires Valid() && |op.key| == len
      modifies `root, `tree, `contents
      ensures Valid() && contents == ApplyToMap(old(contents), op)
    {
      hide Denotes, Rep, Stored, MemOf, ApplyToTrie, ApplyToMap, Clean, FApply, FMemOf, Strip, StripMem;
      ghost var mem := MemOf(Seen());
      StripMemOf(Seen());
      StripApply(FMemOf(Seen()), root, op);
      StepRep(hash, kept, mem, Strip(root), tree, contents, len, op);
      ApplyClean(hash, kept, FMemOf(Seen()), root, tree, op);
      root := FApply(FMemOf(Seen()), root, op).value;
      tree := ApplyToTrie(mem, tree, op).value;
      contents := ApplyToMap(contents, op);
    }

    /** A key of any length; absent keys give the empty string. */
    method Get(key: seq<Byte>) returns (v: seq<Byte>)
      requires Valid()
      ensures v == if key in contents then contents[key] else []
    {
      hide Denotes, Rep, Stored, MemOf, Trie.Get, ToKey;
      AnswerRep(hash, kept, MemOf(Seen()), Strip(root), tree, contents, len, key);
      var n := Trie.Get(MemOf(Seen()), Strip(root), ToKey(key)).value;
      v := if n.Value? then n.data else [];
    }

    /** store: every large dirty node below f goes to the cache, children first; the result is the reference to f. */
    method StoreNode(f: FNode) returns (x: Item)
      modifies `cache
      ensures x == RefItem(hash, Strip(f)) && Added(hash, old(cache), cache, Dirty(hash, f))
      decreases f, 2
    {
      hide Added, RefItem, Compact, OwnDirty, Enc;
      AddedNone(hash, cache);
      match f
      case FShort(k, c, _) =>
        var y := StoreNode(c);
        x := Keep(f, List([Str(if k == [] then [] else Compact(k)), y]), Dirty(hash, c), old(cache));
      case FFull(kids, _) =>
        x := StoreFull(f);
      case _ =>
        x := NodeItem(hash, Strip(f));
        RefOfSmall(hash, Strip(f));
    }

    method StoreFull(f: FNode) returns (x: Item)
      requires f.FFull?
      modifies `cache
      ensures x == RefItem(hash, Strip(f)) && Added(hash, old(cache), cache, Dirty(hash, f))
      decreases f, 1
    {
      hide Added, RefItem, OwnDirty, DirtyOf, Strip;
      var ys := [];
      AddedNone(hash, cache);
      ghost var done := {};
      NoDirtyKids(hash);
      for i := 0 to |f.kids|
        invariant |ys| == i && forall j | 0 <= j < i :: ys[j] == RefItem(hash, Strip(f.kids[j]))
        invariant done == DirtyOf(hash, f.kids[..i]) && Added(hash, old(cache), cache, done)
      {
        ghost var was := cache;
        var y := StoreNode(f.kids[i]);
        AddedThen(hash, old(cache), was, cache, done, Dirty(hash, f.kids[i]));
        NextDirtyKid(hash, f.kids, i);
        done := done + Dirty(hash, f.kids[i]);
        ys := ys + [y];
      }
      assert f.kids[..|f.kids|] == f.kids;
      StripFull(f.kids, f.dirty);
      assert NodeItem(hash, Strip(f)).items == ys;
      x := Keep(f, List(ys), done, old(cache));
    }

    /**
     A node of 32 bytes or more is named by its hash, and written under it if it is dirty; a smaller one
     stands for itself.
     */
    method Keep(f: FNode, item: Item, ghost below: set<seq<Byte>>, ghost start: Db) returns (x: Item)
      requires (f.FShort? || f.FFull?) && item == NodeItem(hash, Strip(f))
      requires Added(hash, start, cache, below) && Dirty(hash, f) == OwnDirty(hash, f) + below
      modifies `cache
      ensures x == RefItem(hash, Strip(f)) && Added(hash, start, cache, Dirty(hash, f))
    {
      hide *;
      var data := Encode(item);
      ghost var was := cache;
      KeepCases(hash, f, item);
      if |data| >= 32 {
        var key := hash(data);
        if f.dirty {
          cache := cache[key := data];
          AddedOne(hash, was, data);
          AddedThen(hash, start, was, cache, below, {data});
          assert Dirty(hash, f) == below + {data};
        } else {
          assert Dirty(hash, f) == below;
        }
        x := Str(key);
      } else {
        x := item;
        assert Dirty(hash, f) == below;
      }
    }

    /** The root hash; all that is needed to load the trie again is now in the cache or the backend. */
    method Hash() returns (h: seq<Byte>)
      requires Valid() && Clashless(hash, kept + Encs(hash, Strip(root)))
      modifies `cache, `roothash
      ensures Valid() && h == RootHash(hash, tree) && roothash == h
      ensures Stored(hash, Seen(), Encs(hash, tree)) && Added(hash, old(cache), cache, Dirty(hash, root))
    {
      hide Denotes, Rep, Stored, Clashless, MemOf, Encs, Added, RefItem, NodeItem, Encode, RootHash, Clean, Dirty, Strip;
      var x := StoreNode(root);
      Flushed(hash, kept, backend.db, old(cache), cache, root, tree, contents, len);
      h := if x.Str? && |x.bytes| > 0 then x.bytes else hash(Encode(NodeItem(hash, Strip(root))));
      HashOfRep(hash, kept, MemOf(Seen()), Strip(root), tree, contents, len, x);
      roothash := h;
    }

    method Commit()
      requires Valid() && Clashless(hash, kept + Encs(hash, Strip(root)))
      modifies `cache, `roothash, backend
      ensures Valid() && roothash == RootHash(hash, tree)
      ensures backend.db == Seen() && Stored(hash, backend.db, Encs(hash, tree))
      ensures tree.Nil? ==> backend.db == old(Seen())
    {
      hide Denotes, Rep, Stored, Clashless, MemOf, Encs, Added, RootHash, Clean, Dirty, Strip;
      if tree.Nil? {
        NilRoot(hash, kept, MemOf(Seen()), root);
      }
      var h := Hash();
      if tree.Nil? {
        NothingAdded(hash, old(cache), cache);
      }
      AddedTwice(backend.db, cache);
      backend.db := backend.db + cache;
    }

    /** What makes a committed trie loadable from its root hash. */
    lemma Reloadable()
      requires Valid() && len >= 30 && Clashless(hash, kept + Encs(hash, Strip(root)))
      ensures Denotes(map[], tree, contents, len) && Clashless(hash, Encs(hash, tree))
      ensures !tree.Nil? ==> Big(hash, tree)
    {
      hide Denotes, Rep, Stored, Clashless, MemOf, Encs, Big, Clean;
      ReadyToOpen(hash, kept, MemOf(Seen()), Strip(root), tree, contents, len);
    }
  }

  lemma AddedTwice(db: Db, cache: Db)
    ensures db + cache + cache == db + cache
  {}

  /** What writing the dirty nodes of a trie leaves true of it. */
  lemma Flushed(hash: HashFn, kept: set<seq<Byte>>, disk: Db, before: Db, after: Db, f: FNode, t: Node, c: Contents, len: nat)
    requires Denotes(MemOf(disk + before), t, c, len) && Rep(hash, kept, MemOf(disk + before), Strip(f), t)
    requires Stored(hash, disk + before, kept) && Clean(hash, kept, f) && Added(hash, before, after, Dirty(hash, f))
    requires Clashless(hash, kept + Encs(hash, Strip(f)))
    ensures Denotes(MemOf(disk + after), t, c, len) && Rep(hash, kept, MemOf(disk + after), Strip(f), t)
    ensures Stored(hash, disk + after, kept) && Stored(hash, disk + after, Encs(hash, t))
  {
    hide *;
    CleanLosesNothing(hash, kept, f);
    RepFlushed(hash, kept, disk, before, after, Strip(f), t, Dirty(hash, f));
    DenotesAnyMem(MemOf(disk + before), MemOf(disk + after), t, c, len);
  }

  lemma NilRoot(hash: HashFn, kept: set<seq<Byte>>, mem: Memory, f: FNode)
    requires !f.FHash? && Rep(hash, kept, mem, Strip(f), Nil)
    ensures f.FNil? && Dirty(hash, f) == {}
  {}

  lemma NothingAdded(hash: HashFn, before: Db, after: Db)
    requires Added(hash, before, after, {})
    ensures after == before
  {}

  /**
   Commit and reload: a trie opened from the committed root hash holds the same contents, for keys
   of 30 bytes or more. (An empty trie needs the hash of the empty string to be unused.)
   */
  method CommitAndOpen(t: MerkleTrie) returns (u: MerkleTrie)
    requires t.Valid() && t.len >= 30 && Clashless(t.hash, t.kept + Encs(t.hash, Strip(t.root)))
    requires t.tree.Nil? ==> RootHash(t.hash, Nil) !in t.Seen()
    modifies t`cache, t`roothash, t.backend
    ensures t.Valid() && u.Valid() && fresh(u) && u.backend == t.backend
    ensures u.contents == t.contents && u.tree == t.tree && u.roothash == t.roothash
  {
    hide *;
    t.Reloadable();
    t.Commit();
    u := new MerkleTrie.Open(t.hash, t.backend, t.len, t.roothash, t.tree, t.contents);
  }
}
