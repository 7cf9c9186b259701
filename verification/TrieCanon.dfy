/**
 Canonical tries: fully loaded, every full node has two children or more, no short node
 points at a short node. Insertion keeps a trie canonical and acts as map update.
 */
module TrieCanon {
  import opened Bytes
  import opened Trie

  ghost predicate IsValue(n: Node)
  {
    n.Value? && n.data != []
  }

  ghost predicate TwoKids(kids: seq<Node>)
  {
    exists i, j :: 0 <= i < j < |kids| && !kids[i].Nil? && !kids[j].Nil?
  }

  ghost predicate Canon(n: Node)
  {
    match n
    case Nil => true
    case Short(k, c) =>
      && k != []
      && (if c.Value? then Terminated(k) && c.data != [] else Trie.Plain(k) && c.Full? && Canon(c))
    case Full(kids) =>
      && |kids| == 17
      && (forall i | 0 <= i < 16 :: Canon(kids[i]))
      && (kids[16].Nil? || IsValue(kids[16]))
      && TwoKids(kids)
    case _ => false
  }

  /** A key that may be looked up below a node: a terminated one, or the rest after the terminator. */
  ghost predicate Fits(n: Node, key: Key)
  {
    if key == [] then n.Nil? || IsValue(n) else Terminated(key) && Canon(n)
  }

  lemma FullStep(n: Node, key: Key)
    requires n.Full? && key != [] && Fits(n, key)
    ensures key[0] as int < |n.kids| && Fits(n.kids[key[0]], key[1..])
    ensures !n.kids[key[0]].Hash?
    ensures key[0] < TERM <==> key[1..] != []
  {}

  lemma ShortStep(k: Key, c: Node, key: Key)
    requires Canon(Short(k, c)) && Terminated(key) && k <= key
    ensures Fits(c, key[|k|..])
    ensures c.Full? <==> k != key
    ensures key[|k|..] == [] <==> k == key
  {
    if k != key {
      assert k[|k| - 1] == key[|k| - 1];
      var rest := key[|k|..];
      assert rest[|rest| - 1] == key[|key| - 1];
    }
  }

  lemma {:induction false} GetIsSafe(mem: Memory, n: Node, key: Key)
    requires Fits(n, key)
    ensures Get(mem, n, key).Some?
    ensures Get(mem, n, key).value.Nil? || IsValue(Get(mem, n, key).value)
    decreases |key|
  {
    if key != [] {
      match n
      case Nil =>
      case Short(k, c) =>
        if k <= key {
          ShortStep(k, c, key);
          GetIsSafe(mem, c, key[|k|..]);
        }
      case Full(kids) =>
        FullStep(n, key);
        GetIsSafe(mem, kids[key[0]], key[1..]);
    }
  }

  /** A new full node holds two canonical children under different nibbles. */
  lemma ForkCanon(i: Byte, a: Node, j: Byte, b: Node)
    requires i <= TERM && j <= TERM && i != j && !a.Nil? && !b.Nil?
    requires if i < TERM then Canon(a) else IsValue(a)
    requires if j < TERM then Canon(b) else IsValue(b)
    ensures Canon(Fork(i, a, j, b))
  {
    var kids := Fork(i, a, j, b).kids;
    assert kids[i as int] == a && kids[j as int] == b;
    assert TwoKids(kids) by {
      if i < j {
        assert !kids[i as int].Nil? && !kids[j as int].Nil?;
      } else {
        assert !kids[j as int].Nil? && !kids[i as int].Nil?;
      }
    }
  }

  /** What hangs below a cut key is canonical, or is the value itself at the terminator. */
  lemma AttachCanon(k: Key, m: nat, c: Node)
    requires m < |k| && Canon(Short(k, c))
    ensures k[m] <= TERM && !Attach(k[m + 1..], c).Nil?
    ensures if k[m] < TERM then Canon(Attach(k[m + 1..], c)) else IsValue(Attach(k[m + 1..], c))
  {}

  lemma NotPastKey(key: Key, k: Key, c: Node)
    requires Terminated(key) && Canon(Short(k, c)) && MatchLen(key, k) < |k|
    ensures MatchLen(key, k) < |key|
  {
    var m := MatchLen(key, k);
    assert m > 0 ==> k[..m][m - 1] == key[..m][m - 1];
  }

  /** Splitting a short node gives a canonical node. */
  lemma SplitCanon(mem: Memory, k: Key, c: Node, key: Key, v: Node)
    requires Canon(Short(k, c)) && Terminated(key) && IsValue(v) && MatchLen(key, k) < |k|
    ensures var m := MatchLen(key, k);
            && m < |key| && k[m] <= TERM && key[m] <= TERM
            && var fork := Fork(k[m], Attach(k[m + 1..], c), key[m], Attach(key[m + 1..], v));
               Insert(mem, Short(k, c), key, v) == Some(Attach(key[..m], fork)) && Canon(Attach(key[..m], fork))
  {
    var m := MatchLen(key, k);
    NotPastKey(key, k, c);
    AttachCanon(k, m, c);
    AttachCanon(key, m, v);
    hide *;
    SplitInsert(mem, k, c, key, v);
    var a, b := Attach(k[m + 1..], c), Attach(key[m + 1..], v);
    ForkCanon(k[m], a, key[m], b);
    AboveFork(key, m, k[m], a, b);
  }

  /** The shared part of two keys above the fork. */
  lemma AboveFork(key: Key, m: nat, i: Byte, a: Node, b: Node)
    requires Terminated(key) && m < |key| && i <= TERM && key[m] <= TERM && Canon(Fork(i, a, key[m], b))
    ensures Canon(Attach(key[..m], Fork(i, a, key[m], b)))
  {
    assert Fork(i, a, key[m], b).Full?;
    hide Fork;
  }

  /** What insert builds where a key parts from a short node. */
  lemma SplitInsert(mem: Memory, k: Key, c: Node, key: Key, v: Node)
    requires Canon(Short(k, c)) && IsValue(v) && MatchLen(key, k) < |k| && MatchLen(key, k) < |key|
    requires k[MatchLen(key, k)] <= TERM && key[MatchLen(key, k)] <= TERM
    ensures var m := MatchLen(key, k);
            Insert(mem, Short(k, c), key, v) ==
            Some(Attach(key[..m], Fork(k[m], Attach(k[m + 1..], c), key[m], Attach(key[m + 1..], v))))
  {
    hide Fork, Attach;
  }

  /** Insertion of a nonempty value never panics and keeps the trie canonical; a full node stays full. */
  lemma {:induction false} InsertCanon(mem: Memory, n: Node, key: Key, v: Node)
    requires Fits(n, key) && IsValue(v)
    ensures Insert(mem, n, key, v).Some?
    ensures var r := Insert(mem, n, key, v).value;
            && Fits(r, key) && !r.Nil? && (n.Full? ==> r.Full?)
    decreases |key|
  {
    if key != [] {
      match n
      case Nil =>
      case Short(k, c) =>
        if k != key {
          var m := MatchLen(key, k);
          if m == |k| {
            assert key[..m] == k;
            ShortStep(k, c, key);
            InsertCanon(mem, c, key[m..], v);
            assert Insert(mem, n, key, v) == Some(Short(k, Insert(mem, c, key[m..], v).value));
          } else {
            SplitCanon(mem, k, c, key, v);
          }
        }
      case Full(kids) =>
        FullStep(n, key);
        InsertCanon(mem, kids[key[0]], key[1..], v);
        var r := Insert(mem, kids[key[0]], key[1..], v).value;
        assert Insert(mem, n, key, v) == Some(Full(kids[key[0] as int := r]));
        FullCanonUpdate(kids, key[0], r);
    }
  }

  lemma FullCanonUpdate(kids: seq<Node>, i: Byte, r: Node)
    requires Canon(Full(kids)) && i <= TERM && !r.Nil?
    requires if i < TERM then Canon(r) else IsValue(r)
    ensures Canon(Full(kids[i as int := r]))
  {
    TwoKidsKept(kids, i as int, r);
  }

  lemma TwoKidsKept(kids: seq<Node>, i: int, n: Node)
    requires TwoKids(kids) && 0 <= i < |kids| && !n.Nil?
    ensures TwoKids(kids[i := n])
  {
    var a, b :| 0 <= a < b < |kids| && !kids[a].Nil? && !kids[b].Nil?;
    var new_ := kids[i := n];
    assert !new_[a].Nil? && !new_[b].Nil?;
  }

  // ---------- insertion is map update ----------

  lemma PrefixFree(a: Key, b: Key)
    requires Terminated(a) && Terminated(b) && a <= b
    ensures a == b
  {
    assert a[|a| - 1] == b[|a| - 1];
  }

  lemma SuffixTerminated(key: Key, m: nat)
    requires Terminated(key) && m < |key|
    ensures Terminated(key[m..])
  {
    var rest := key[m..];
    assert rest[|rest| - 1] == key[|key| - 1];
  }

  /** Looking up below an attached key. */
  lemma GetAttach(mem: Memory, k: Key, c: Node, key: Key)
    requires !c.Hash?
    ensures Get(mem, Attach(k, c), key) ==
            if k <= key then Get(mem, c, key[|k|..])
            else if key == [] then Some(Attach(k, c)) else Some(Nil)
  {
    if k == [] {
      assert key[0..] == key;
    }
  }

  /** Looking up in a new full node. */
  lemma GetFork(mem: Memory, i: Byte, a: Node, j: Byte, b: Node, key: Key)
    requires i <= TERM && j <= TERM && i != j && !a.Hash? && !b.Hash? && Terminated(key)
    ensures Get(mem, Fork(i, a, j, b), key) ==
            if key[0] == j then Get(mem, b, key[1..])
            else if key[0] == i then Get(mem, a, key[1..])
            else Some(Nil)
  {
    var kids := Fork(i, a, j, b).kids;
    assert kids[key[0]] == if key[0] == j then b else if key[0] == i then a else Nil;
    assert key[0] <= TERM;
  }

  lemma PrefixAcross(k: Key, m: nat, other: Key)
    requires m < |k| && m < |other| && k[..m] == other[..m]
    ensures k <= other <==> k[m] == other[m] && k[m + 1..] <= other[m + 1..]
    ensures k <= other ==> other[|k|..] == other[m + 1..][|k| - m - 1..]
    ensures k == other <==> k[m] == other[m] && k[m + 1..] == other[m + 1..]
  {
    assert k == k[..m] + [k[m]] + k[m + 1..];
    assert other == other[..m] + [other[m]] + other[m + 1..];
    if k <= other {
      assert k[m + 1..] == other[m + 1..|k|] == other[m + 1..][..|k| - m - 1];
    }
    if k[m] == other[m] && k[m + 1..] <= other[m + 1..] {
      assert k == other[..m] + [other[m]] + other[m + 1..][..|k| - m - 1] == other[..|k|];
    }
  }

  /** What follows a common nibble of two terminated keys. */
  lemma AfterNibble(a: Key, b: Key, m: nat)
    requires Terminated(a) && Terminated(b) && m < |a| && m < |b| && a[m] == b[m]
    ensures a[m + 1..] <= b[m + 1..] <==> a[m + 1..] == b[m + 1..]
    ensures b[m + 1..] == [] ==> a[m + 1..] == []
  {
    if a[m] < TERM {
      SuffixTerminated(a, m + 1);
      SuffixTerminated(b, m + 1);
      if a[m + 1..] <= b[m + 1..] {
        PrefixFree(a[m + 1..], b[m + 1..]);
      }
    }
  }

  /** The split of a short node: both old and new keys are found, everything else is absent. */
  lemma GetSplit(mem: Memory, k: Key, c: Node, key: Key, v: Node, other: Key)
    requires Canon(Short(k, c)) && Terminated(key) && Terminated(other) && IsValue(v)
    requires MatchLen(key, k) < |k|
    ensures Insert(mem, Short(k, c), key, v).Some?
    ensures Get(mem, Insert(mem, Short(k, c), key, v).value, other) ==
            if other == key then Some(v) else Get(mem, Short(k, c), other)
  {
    var m := MatchLen(key, k);
    NotPastKey(key, k, c);
    AttachCanon(k, m, c);
    var a, b := Attach(k[m + 1..], c), Attach(key[m + 1..], v);
    var fork := Fork(k[m], a, key[m], b);
    SplitInsert(mem, k, c, key, v);
    hide Canon, Get, Insert, Fork, MatchLen, Attach;
    GetAttach(mem, key[..m], fork, other);
    if key[..m] <= other {
      assert m == 0 || other[m - 1] == key[..m][m - 1];
      GetBelowFork(mem, k, c, key, v, other, m);
    } else {
      NotBelow(mem, k, c, key, other, m);
    }
  }

  lemma NotBelow(mem: Memory, k: Key, c: Node, key: Key, other: Key, m: nat)
    requires Terminated(other) && m < |k| && m < |key| && key[..m] == k[..m] && !(key[..m] <= other)
    ensures other != key && Get(mem, Short(k, c), other) == Some(Nil)
  {
    NotPrefix(k[..m], k, other);
    NotPrefix(key[..m], key, other);
  }

  lemma NotPrefix(a: Key, k: Key, other: Key)
    requires a <= k && !(a <= other)
    ensures !(k <= other)
  {}

  lemma GetBelowFork(mem: Memory, k: Key, c: Node, key: Key, v: Node, other: Key, m: nat)
    requires Canon(Short(k, c)) && Terminated(key) && Terminated(other) && IsValue(v)
    requires m < |k| && m < |key| && m < |other| && key[..m] == k[..m] == other[..m] && k[m] != key[m]
    requires k[m] <= TERM && key[m] <= TERM
    ensures Get(mem, Fork(k[m], Attach(k[m + 1..], c), key[m], Attach(key[m + 1..], v)), other[m..]) ==
            if other == key then Some(v) else Get(mem, Short(k, c), other)
  {
    var a, b := Attach(k[m + 1..], c), Attach(key[m + 1..], v);
    var rest := other[m..];
    SuffixTerminated(other, m);
    GetFork(mem, k[m], a, key[m], b, rest);
    hide Canon, Get, Fork, Attach;
    assert rest[0] == other[m] && rest[1..] == other[m + 1..];
    if other[m] == key[m] {
      GetNewBranch(mem, key, v, other, m);
      GetOtherNibble(mem, k, c, other, m);
    } else {
      PrefixAcross(key, m, other);
      if other[m] == k[m] {
        GetOldBranch(mem, k, c, other, m);
      } else {
        GetOtherNibble(mem, k, c, other, m);
      }
    }
  }

  lemma GetNewBranch(mem: Memory, key: Key, v: Node, other: Key, m: nat)
    requires Terminated(key) && Terminated(other) && IsValue(v)
    requires m < |key| && m < |other| && key[..m] == other[..m] && key[m] == other[m]
    ensures Get(mem, Attach(key[m + 1..], v), other[m + 1..]) == if other == key then Some(v) else Some(Nil)
  {
    PrefixAcross(key, m, other);
    AfterNibble(key, other, m);
    GetAttach(mem, key[m + 1..], v, other[m + 1..]);
  }

  lemma GetOldBranch(mem: Memory, k: Key, c: Node, other: Key, m: nat)
    requires Canon(Short(k, c)) && Terminated(other)
    requires m < |k| && m < |other| && k[..m] == other[..m] && k[m] == other[m]
    ensures Get(mem, Attach(k[m + 1..], c), other[m + 1..]) == Get(mem, Short(k, c), other)
  {
    GetShort(mem, k, c, other);
    hide Get;
    PrefixAcross(k, m, other);
    GetAttach(mem, k[m + 1..], c, other[m + 1..]);
  }

  lemma GetOtherNibble(mem: Memory, k: Key, c: Node, other: Key, m: nat)
    requires m < |k| && m < |other| && k[m] != other[m]
    ensures Get(mem, Short(k, c), other) == Some(Nil)
  {
    assert !(k <= other);
  }

  /** Unfolding lookups one node at a time. */
  lemma GetShort(mem: Memory, k: Key, c: Node, key: Key)
    requires k != [] && !c.Hash? && key != []
    ensures Get(mem, Short(k, c), key) == if k <= key then Get(mem, c, key[|k|..]) else Some(Nil)
  {}

  lemma GetFull(mem: Memory, kids: seq<Node>, key: Key)
    requires key != [] && key[0] as int < |kids| && !kids[key[0]].Hash?
    ensures Get(mem, Full(kids), key) == Get(mem, kids[key[0]], key[1..])
  {}

  /** Insertion below an extension. */
  lemma InsertExt(mem: Memory, k: Key, c: Node, key: Key, v: Node)
    requires Canon(Short(k, c)) && Terminated(key) && k != key && MatchLen(key, k) == |k| && IsValue(v)
    ensures k <= key && Fits(c, key[|k|..]) && key[|k|..] != [] && Insert(mem, c, key[|k|..], v).Some?
    ensures Insert(mem, Short(k, c), key, v) == Some(Short(k, Insert(mem, c, key[|k|..], v).value))
    ensures !Insert(mem, c, key[|k|..], v).value.Hash?
  {
    assert key[..|k|] == k;
    ShortStep(k, c, key);
    InsertCanon(mem, c, key[|k|..], v);
  }

  lemma InsertFull(mem: Memory, kids: seq<Node>, key: Key, v: Node)
    requires Canon(Full(kids)) && Terminated(key) && IsValue(v)
    ensures key[0] as int < |kids| && Insert(mem, kids[key[0]], key[1..], v).Some?
    ensures !Insert(mem, kids[key[0]], key[1..], v).value.Hash?
    ensures Insert(mem, Full(kids), key, v) ==
            Some(Full(kids[key[0] as int := Insert(mem, kids[key[0]], key[1..], v).value]))
  {
    FullStep(Full(kids), key);
    InsertCanon(mem, kids[key[0]], key[1..], v);
  }

  lemma GetInsertNil(mem: Memory, key: Key, v: Node, other: Key)
    requires Terminated(key) && Terminated(other) && IsValue(v)
    ensures Get(mem, Short(key, v), other) == if other == key then Some(v) else Some(Nil)
  {
    GetShort(mem, key, v, other);
    if key <= other {
      PrefixFree(key, other);
    }
  }

  /** Lookup after insertion: the inserted value at its key, everything else as before. */
  lemma {:induction false} GetInsert(mem: Memory, n: Node, key: Key, v: Node, other: Key)
    requires Fits(n, key) && Fits(n, other) && (key == [] <==> other == []) && IsValue(v)
    ensures Insert(mem, n, key, v).Some?
    ensures Get(mem, Insert(mem, n, key, v).value, other) ==
            if other == key then Some(v) else Get(mem, n, other)
    decreases |key|
  {
    InsertCanon(mem, n, key, v);
    if key != [] {
      match n
      case Nil =>
        GetInsertNil(mem, key, v, other);
      case Short(k, c) =>
        if k == key {
          GetInsertNil(mem, key, v, other);
          GetInsertNil(mem, key, c, other);
        } else if MatchLen(key, k) < |k| {
          GetSplit(mem, k, c, key, v, other);
        } else {
          GetInsertExt(mem, k, c, key, v, other);
        }
      case Full(kids) =>
        GetInsertFull(mem, kids, key, v, other);
    }
  }

  lemma {:induction false} GetInsertExt(mem: Memory, k: Key, c: Node, key: Key, v: Node, other: Key)
    requires Canon(Short(k, c)) && Terminated(key) && Terminated(other) && IsValue(v)
    requires k != key && MatchLen(key, k) == |k|
    ensures Insert(mem, Short(k, c), key, v).Some?
    ensures Get(mem, Insert(mem, Short(k, c), key, v).value, other) ==
            if other == key then Some(v) else Get(mem, Short(k, c), other)
    decreases |key|, 0
  {
    InsertExt(mem, k, c, key, v);
    hide Get, Insert, MatchLen;
    var rest := key[|k|..];
    var r := Insert(mem, c, rest, v).value;
    GetShort(mem, k, r, other);
    GetShort(mem, k, c, other);
    if k <= other {
      ShortStep(k, c, other);
      ShortStep(k, c, key);
      assert key == k + rest && other == k + other[|k|..];
      GetInsert(mem, c, rest, v, other[|k|..]);
    }
  }

  lemma {:induction false} GetInsertFull(mem: Memory, kids: seq<Node>, key: Key, v: Node, other: Key)
    requires Canon(Full(kids)) && Terminated(key) && Terminated(other) && IsValue(v)
    ensures Insert(mem, Full(kids), key, v).Some?
    ensures Get(mem, Insert(mem, Full(kids), key, v).value, other) ==
            if other == key then Some(v) else Get(mem, Full(kids), other)
    decreases |key|, 0
  {
    hide Get, Insert, Canon;
    FullStep(Full(kids), key);
    FullStep(Full(kids), other);
    InsertFull(mem, kids, key, v);
    var r := Insert(mem, kids[key[0]], key[1..], v).value;
    assert key == [key[0]] + key[1..] && other == [other[0]] + other[1..];
    GetFull(mem, kids[key[0] as int := r], other);
    GetFull(mem, kids, other);
    if key[0] == other[0] {
      GetInsert(mem, kids[key[0]], key[1..], v, other[1..]);
    }
  }
}
