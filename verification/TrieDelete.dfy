/** Deletion on tries whose keys all have one length: canonical in, canonical out, and map removal. */
module TrieDelete {
  import opened Bytes
  import opened Trie
  import opened TrieCanon

  /** Every key below n has length d, terminator included. */
  ghost predicate Uniform(n: Node, d: nat)
    decreases n
  {
    match n
    case Nil => true
    case Value(_) => d == 0
    case Short(k, c) => |k| <= d && Uniform(c, d - |k|)
    case Full(kids) => d > 0 && forall i | 0 <= i < |kids| :: Uniform(kids[i], d - 1)
    case Hash(_) => false
  }

  ghost predicate Good(n: Node, d: nat)
  {
    Canon(n) && Uniform(n, d)
  }

  /** With keys of one length no branch holds a value. */
  lemma FullDepth(kids: seq<Node>, d: nat)
    requires Good(Full(kids), d)
    ensures d > 1 && |kids| == 17 && kids[16].Nil?
    ensures forall i | 0 <= i < 17 :: Good(kids[i], d - 1)
  {
    var a, b :| 0 <= a < b < |kids| && !kids[a].Nil? && !kids[b].Nil?;
    assert Uniform(kids[a], d - 1) && Uniform(kids[b], d - 1);
    assert Canon(kids[a]);
    assert d > 1;
    assert Uniform(kids[16], d - 1);
    forall i | 0 <= i < 17 ensures Good(kids[i], d - 1) {
      assert Uniform(kids[i], d - 1);
    }
  }

  lemma GoodNotHash(n: Node, d: nat)
    requires Good(n, d)
    ensures !n.Hash?
  {}

  // ---------- insertion keeps the length ----------

  lemma UniformAttach(k: Key, c: Node, d: nat)
    requires |k| <= d && Uniform(c, d - |k|)
    ensures Uniform(Attach(k, c), d)
  {}

  lemma UniformFork(i: Byte, a: Node, j: Byte, b: Node, d: nat)
    requires i <= TERM && j <= TERM && d > 0 && Uniform(a, d - 1) && Uniform(b, d - 1)
    ensures Uniform(Fork(i, a, j, b), d)
  {}

  lemma SplitUniform(mem: Memory, k: Key, c: Node, key: Key, v: Node, d: nat)
    requires Good(Short(k, c), d) && Terminated(key) && |key| == d && IsValue(v) && MatchLen(key, k) < |k|
    ensures Insert(mem, Short(k, c), key, v).Some? && Uniform(Insert(mem, Short(k, c), key, v).value, d)
  {
    hide Insert, Canon, Fork, Attach, MatchLen;
    SplitCanon(mem, k, c, key, v);
    var m := MatchLen(key, k);
    var a, b := Attach(k[m + 1..], c), Attach(key[m + 1..], v);
    UniformAttach(k[m + 1..], c, d - m - 1);
    UniformAttach(key[m + 1..], v, d - m - 1);
    UniformFork(k[m], a, key[m], b, d - m);
    UniformAttach(key[..m], Fork(k[m], a, key[m], b), d);
  }

  lemma {:induction false} InsertGood(mem: Memory, n: Node, key: Key, v: Node, d: nat)
    requires Good(n, d) && Terminated(key) && |key| == d && IsValue(v)
    ensures Insert(mem, n, key, v).Some? && Good(Insert(mem, n, key, v).value, d)
    decreases |key|
  {
    hide Canon, MatchLen, Fork, Attach;
    InsertCanon(mem, n, key, v);
    match n
    case Nil =>
      assert Uniform(v, 0);
    case Short(k, c) =>
      if k == key {
        assert Uniform(v, 0);
      } else if MatchLen(key, k) == |k| {
        InsertExt(mem, k, c, key, v);
        ShortStep(k, c, key);
        InsertGood(mem, c, key[|k|..], v, d - |k|);
      } else {
        SplitUniform(mem, k, c, key, v, d);
      }
    case Full(kids) =>
      FullDepth(kids, d);
      FullStep(n, key);
      InsertFull(mem, kids, key, v);
      InsertGood(mem, kids[key[0]], key[1..], v, d - 1);
  }

  // ---------- the counting loop ----------

  lemma {:induction false} ScanCounts(kids: seq<Node>, i: nat, pos: int)
    requires i <= |kids| && Counted(kids, i, pos)
    ensures Counted(kids, |kids|, Scan(kids, i, pos))
    decreases |kids| - i
  {
    if i < |kids| {
      if pos == -2 {
        var x, y :| 0 <= x < y < i && !kids[x].Nil? && !kids[y].Nil?;
        assert Counted(kids, i + 1, -2);
      }
      if pos >= 0 && !kids[i].Nil? {
        assert Counted(kids, i + 1, -2);
      }
      ScanCounts(kids, i + 1, if kids[i].Nil? then pos else if pos == -1 then i else -2);
    }
  }

  // ---------- deletion keeps the shape ----------

  lemma MergeGood(mem: Memory, k: Key, child: Node, d: nat)
    requires k != [] && Trie.Plain(k) && |k| <= d && Good(child, d - |k|) && (child.Short? || child.Full?)
    ensures Good(Merge(mem, k, child), d)
  {
    if child.Short? {
      var k2 := child.key;
      assert !child.child.Hash?;
      assert forall i | 0 <= i < |k + k2| :: (k + k2)[i] == if i < |k| then k[i] else k2[i - |k|];
    }
  }

  lemma CollapseGood(mem: Memory, kids: seq<Node>, d: nat)
    requires |kids| == 17 && d > 1 && kids[16].Nil? && forall i | 0 <= i < 17 :: Good(kids[i], d - 1)
    requires exists i :: 0 <= i < 17 && !kids[i].Nil?
    ensures Good(Collapse(mem, kids), d)
    ensures Collapse(mem, kids).Short? || Collapse(mem, kids).Full?
  {
    ScanCounts(kids, 0, -1);
    var pos := Scan(kids, 0, -1);
    if pos >= 0 {
      assert pos != 16;
      assert Good(kids[pos], d - 1);
      MergeGood(mem, [pos as Byte], kids[pos], d);
    } else {
      assert TwoKids(kids);
    }
  }

  lemma TransAllGood(mem: Memory, kids: seq<Node>, d: nat)
    requires forall i | 0 <= i < |kids| :: Good(kids[i], d)
    ensures TransAll(mem, kids) == kids
  {
    assert forall i | 0 <= i < |kids| :: !kids[i].Hash?;
  }

  /** A full node that loses one child still has another. */
  lemma OneLeft(kids: seq<Node>, i: int, n: Node, kept: seq<Node>)
    requires TwoKids(kids) && 0 <= i < |kids| && kept == kids[i := n]
    ensures exists x :: 0 <= x < |kept| && !kept[x].Nil?
  {
    var a, b :| 0 <= a < b < |kids| && !kids[a].Nil? && !kids[b].Nil?;
    assert !kept[if a == i then b else a].Nil?;
  }

  /** Deletion in a full node, one step: the child loses the key, then the node is collapsed. */
  lemma DeleteFull(mem: Memory, kids: seq<Node>, key: Key, d: nat)
    requires Good(Full(kids), d) && Terminated(key) && |key| == d
    requires var r := Delete(mem, kids[key[0]], key[1..]); r.Some? && Good(r.value, d - 1)
    ensures |kids| == 17 && kids[16].Nil? && key[0] < TERM && d > 1
    ensures var kept := kids[key[0] as int := Delete(mem, kids[key[0]], key[1..]).value];
            && Delete(mem, Full(kids), key) == Some(Collapse(mem, kept))
            && kept[16].Nil? && (forall i | 0 <= i < 17 :: Good(kept[i], d - 1))
            && exists i :: 0 <= i < 17 && !kept[i].Nil?
  {
    FullDepth(kids, d);
    var r := Delete(mem, kids[key[0]], key[1..]).value;
    GoodNotHash(kids[key[0]], d - 1);
    TransAllGood(mem, kids[key[0] as int := r], d - 1);
    OneLeft(kids, key[0] as int, r, kids[key[0] as int := r]);
  }

  /** Deletion never panics and keeps the trie canonical; a full node never vanishes. */
  lemma {:induction false} DeleteGood(mem: Memory, n: Node, key: Key, d: nat)
    requires Good(n, d) && Terminated(key) && |key| == d
    ensures Delete(mem, n, key).Some? && Good(Delete(mem, n, key).value, d)
    ensures n.Full? ==> Delete(mem, n, key).value.Short? || Delete(mem, n, key).value.Full?
    decreases |key|
  {
    match n
    case Nil =>
    case Short(k, c) =>
      if key != k && k <= key {
        ShortStep(k, c, key);
        DeleteGood(mem, c, key[|k|..], d - |k|);
        MergeGood(mem, k, Delete(mem, c, key[|k|..]).value, d);
      }
    case Full(kids) =>
      hide Canon, Uniform, Collapse;
      FullDepth(kids, d);
      FullStep(n, key);
      DeleteGood(mem, kids[key[0]], key[1..], d - 1);
      DeleteFull(mem, kids, key, d);
      var kept := kids[key[0] as int := Delete(mem, kids[key[0]], key[1..]).value];
      CollapseGood(mem, kept, d);
  }

  // ---------- deletion is map removal ----------

  /** Stitching two keys together does not change a lookup. */
  lemma GetStitched(mem: Memory, k: Key, k2: Key, c: Node, other: Key)
    requires k != [] && k2 != [] && !c.Hash? && Terminated(other) && Trie.Plain(k)
    ensures Get(mem, Short(k + k2, c), other) == Get(mem, Short(k, Short(k2, c)), other)
  {
    GetShort(mem, k + k2, c, other);
    GetShort(mem, k, Short(k2, c), other);
    hide Get;
    if k <= other {
      assert other == k + other[|k|..];
      var rest := other[|k|..];
      assert other[|k| - 1] == k[|k| - 1] && rest != [];
      GetShort(mem, k2, c, rest);
      assert k + k2 <= other <==> k2 <= rest by {
        if k2 <= rest {
          assert other == k + (k2 + rest[|k2|..]);
        }
        if k + k2 <= other {
          assert rest[..|k2|] == other[|k|..|k| + |k2|] == k2;
        }
      }
      if k2 <= rest {
        assert other[|k + k2|..] == rest[|k2|..];
      }
    } else {
      NotPrefix(k, k + k2, other);
    }
  }

  lemma GetMerge(mem: Memory, k: Key, child: Node, d: nat, other: Key)
    requires k != [] && Trie.Plain(k) && Good(child, d) && (child.Short? || child.Full?) && Terminated(other)
    ensures Get(mem, Merge(mem, k, child), other) == Get(mem, Short(k, child), other)
  {
    if child.Short? {
      GetStitched(mem, k, child.key, child.child, other);
    }
  }

  lemma GetCollapse(mem: Memory, kids: seq<Node>, d: nat, other: Key)
    requires |kids| == 17 && d > 1 && kids[16].Nil? && forall i | 0 <= i < 17 :: Good(kids[i], d - 1)
    requires exists i :: 0 <= i < 17 && !kids[i].Nil?
    requires Terminated(other)
    ensures Get(mem, Collapse(mem, kids), other) == Get(mem, Full(kids), other)
  {
    ScanCounts(kids, 0, -1);
    var pos := Scan(kids, 0, -1);
    if pos >= 0 {
      assert pos != 16;
      var p := pos as Byte;
      assert Good(kids[pos], d - 1) && Good(kids[other[0]], d - 1);
      assert Collapse(mem, kids) == Merge(mem, [p], kids[pos]);
      GetMerge(mem, [p], kids[pos], d - 1, other);
      GetFull(mem, kids, other);
      GetShort(mem, [p], kids[pos], other);
      assert [p] <= other <==> other[0] == p;
    }
  }

  /** Lookup after deletion: nothing at the deleted key, everything else as before. */
  lemma {:induction false} GetDelete(mem: Memory, n: Node, key: Key, d: nat, other: Key)
    requires Good(n, d) && Terminated(key) && |key| == d && Terminated(other)
    ensures Delete(mem, n, key).Some?
    ensures Get(mem, Delete(mem, n, key).value, other) ==
            if other == key then Some(Nil) else Get(mem, n, other)
    decreases |key|
  {
    DeleteGood(mem, n, key, d);
    match n
    case Nil =>
    case Short(k, c) =>
      if k == key {
        GetInsertNil(mem, k, c, other);
      } else if k <= key {
        GetDeleteExt(mem, k, c, key, d, other);
      } else if other == key {
        GetShort(mem, k, c, other);
      }
    case Full(kids) =>
      GetDeleteFull(mem, kids, key, d, other);
  }

  lemma {:induction false} GetDeleteExt(mem: Memory, k: Key, c: Node, key: Key, d: nat, other: Key)
    requires Good(Short(k, c), d) && Terminated(key) && |key| == d && Terminated(other) && k != key && k <= key
    ensures Delete(mem, Short(k, c), key).Some?
    ensures Get(mem, Delete(mem, Short(k, c), key).value, other) ==
            if other == key then Some(Nil) else Get(mem, Short(k, c), other)
    decreases |key|, 0
  {
    hide Get, Delete, Merge, Canon, Uniform;
    DeleteExt(mem, k, c, key, d);
    var rest := key[|k|..];
    var r := Delete(mem, c, rest).value;
    GetMerge(mem, k, r, d - |k|, other);
    GetShort(mem, k, r, other);
    GetShort(mem, k, c, other);
    if k <= other {
      ShortStep(k, c, other);
      assert key == k + rest && other == k + other[|k|..];
      GetDelete(mem, c, rest, d - |k|, other[|k|..]);
    }
  }

  lemma DeleteExt(mem: Memory, k: Key, c: Node, key: Key, d: nat)
    requires Good(Short(k, c), d) && Terminated(key) && |key| == d && k != key && k <= key
    ensures k != [] && |k| < d && Trie.Plain(k) && c.Full? && Good(c, d - |k|) && Terminated(key[|k|..])
    ensures Delete(mem, c, key[|k|..]).Some?
    ensures var r := Delete(mem, c, key[|k|..]).value;
            Good(r, d - |k|) && (r.Short? || r.Full?) && Delete(mem, Short(k, c), key) == Some(Merge(mem, k, r))
  {
    ShortStep(k, c, key);
    DeleteGood(mem, c, key[|k|..], d - |k|);
  }

  lemma {:induction false} GetDeleteFull(mem: Memory, kids: seq<Node>, key: Key, d: nat, other: Key)
    requires Good(Full(kids), d) && Terminated(key) && |key| == d && Terminated(other)
    ensures Delete(mem, Full(kids), key).Some?
    ensures Get(mem, Delete(mem, Full(kids), key).value, other) ==
            if other == key then Some(Nil) else Get(mem, Full(kids), other)
    decreases |key|, 0
  {
    hide Get, Delete, Canon, Uniform, Collapse;
    FullDepth(kids, d);
    FullStep(Full(kids), key);
    FullStep(Full(kids), other);
    DeleteGood(mem, kids[key[0]], key[1..], d - 1);
    DeleteFull(mem, kids, key, d);
    var r := Delete(mem, kids[key[0]], key[1..]).value;
    var kept := kids[key[0] as int := r];
    GetCollapse(mem, kept, d, other);
    GoodNotHash(kept[other[0]], d - 1);
    GetFull(mem, kept, other);
    GetFull(mem, kids, other);
    assert key == [key[0]] + key[1..] && other == [other[0]] + other[1..];
    if key[0] == other[0] {
      GetDelete(mem, kids[key[0]], key[1..], d - 1, other[1..]);
    }
  }
}
