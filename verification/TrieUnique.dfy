/** One shape per map: canonical tries that answer every lookup alike are the same tree. */
module TrieUnique {
  import opened Bytes
  import opened Trie
  import opened TrieCanon

  ghost predicate Has(mem: Memory, n: Node, key: Key)
  {
    Terminated(key) && Get(mem, n, key).Some? && Get(mem, n, key).value.Value?
  }

  ghost predicate SameMap(mem: Memory, a: Node, b: Node)
  {
    forall k | Terminated(k) :: Get(mem, a, k) == Get(mem, b, k)
  }

  /** Every canonical trie but nil holds a key. */
  lemma {:induction false} SomeKey(mem: Memory, n: Node) returns (key: Key)
    requires Canon(n) && !n.Nil?
    ensures Has(mem, n, key)
  {
    match n
    case Short(k, c) =>
      if c.Value? {
        key := k;
        GetShort(mem, k, c, key);
      } else {
        var rest := SomeKey(mem, c);
        key := k + rest;
        GetShort(mem, k, c, key);
        assert key[|k|..] == rest;
      }
    case Full(kids) =>
      var i, j :| 0 <= i < j < |kids| && !kids[i].Nil? && !kids[j].Nil?;
      key := KidKey(mem, kids, i);
  }

  /** Every child of a full node contributes a key that starts with its nibble. */
  lemma {:induction false} KidKey(mem: Memory, kids: seq<Node>, i: nat) returns (key: Key)
    requires Canon(Full(kids)) && i < 17 && !kids[i].Nil?
    ensures Has(mem, Full(kids), key) && key[0] == i as Byte
  {
    if i == 16 {
      key := [16];
      GetFull(mem, kids, key);
    } else {
      var rest := SomeKey(mem, kids[i]);
      key := [i as Byte] + rest;
      GetFull(mem, kids, key);
      assert key[1..] == rest;
    }
  }

  lemma HasShort(mem: Memory, k: Key, c: Node, key: Key)
    requires k != [] && !c.Hash? && Has(mem, Short(k, c), key)
    ensures k <= key
  {}

  /** A full node has keys on both sides of any given first nibble. */
  lemma OtherNibble(mem: Memory, n: Node, x: Byte) returns (key: Key)
    requires Canon(n) && n.Full?
    ensures Has(mem, n, key) && key[0] != x
  {
    var i, j :| 0 <= i < j < |n.kids| && !n.kids[i].Nil? && !n.kids[j].Nil?;
    key := KidKey(mem, n.kids, if i as Byte == x then j else i);
  }

  /** The keys below an extension agree on nothing beyond its own key. */
  lemma ExtKeys(mem: Memory, k: Key, c: Node, p: Key)
    requires Canon(Short(k, c)) && c.Full?
    requires forall key | Has(mem, Short(k, c), key) :: p <= key
    ensures p <= k
  {
    var x := OtherNibble(mem, c, 255);
    BelowExt(mem, k, c, x);
    if |k| < |p| {
      var y := OtherNibble(mem, c, p[|k|]);
      BelowExt(mem, k, c, y);
      assert false;
    }
    assert p <= k + x;
    assert (k + x)[..|p|] == k[..|p|];
  }

  lemma BelowExt(mem: Memory, k: Key, c: Node, key: Key)
    requires Canon(Short(k, c)) && c.Full? && Terminated(key)
    ensures Terminated(k + key)
    ensures Get(mem, Short(k, c), k + key) == Get(mem, c, key)
    ensures Has(mem, c, key) ==> Has(mem, Short(k, c), k + key)
  {
    GetShort(mem, k, c, k + key);
    assert (k + key)[|k|..] == key;
  }

  lemma SameHas(mem: Memory, a: Node, b: Node, key: Key)
    requires SameMap(mem, a, b) && Has(mem, a, key)
    ensures Has(mem, b, key) && Get(mem, b, key) == Get(mem, a, key)
  {}

  lemma SameSymmetric(mem: Memory, a: Node, b: Node)
    requires SameMap(mem, a, b)
    ensures SameMap(mem, b, a)
  {}

  lemma ShortIsNotFull(mem: Memory, a: Node, b: Node)
    requires Canon(a) && Canon(b) && SameMap(mem, a, b) && b.Full?
    ensures !a.Short?
  {
    if a.Short? {
      var key := OtherNibble(mem, b, a.key[0]);
      SameSymmetric(mem, a, b);
      SameHas(mem, b, a, key);
      assert false;
    }
  }

  lemma NilIsEmpty(mem: Memory, a: Node, b: Node)
    requires Canon(a) && Canon(b) && SameMap(mem, a, b) && a.Nil?
    ensures b.Nil?
  {
    if !b.Nil? {
      var key := SomeKey(mem, b);
      SameSymmetric(mem, a, b);
      SameHas(mem, b, a, key);
      assert false;
    }
  }

  /** A leaf holds one key, an extension two. */
  lemma LeafMatches(mem: Memory, a: Node, b: Node)
    requires Canon(a) && Canon(b) && SameMap(mem, a, b) && a.Short? && b.Short? && a.child.Value?
    ensures a == b
  {
    GetShort(mem, a.key, a.child, a.key);
    SameHas(mem, a, b, a.key);
    HasShort(mem, b.key, b.child, a.key);
    ShortStep(b.key, b.child, a.key);
    GetShort(mem, b.key, b.child, a.key);
    if b.child.Full? {
      var x := OtherNibble(mem, b.child, 255);
      var y := OtherNibble(mem, b.child, x[0]);
      OneLeafKey(mem, a, b, x);
      OneLeafKey(mem, a, b, y);
      assert false;
    }
  }

  lemma OneLeafKey(mem: Memory, a: Node, b: Node, x: Key)
    requires Canon(a) && Canon(b) && SameMap(mem, a, b) && a.Short? && b.Short? && a.child.Value? && b.child.Full?
    requires Has(mem, b.child, x)
    ensures b.key + x == a.key
  {
    BelowExt(mem, b.key, b.child, x);
    SameSymmetric(mem, a, b);
    SameHas(mem, b, a, b.key + x);
    HasShort(mem, a.key, a.child, b.key + x);
    PrefixFree(a.key, b.key + x);
  }

  lemma ExtPrefix(mem: Memory, a: Node, b: Node)
    requires Canon(a) && Canon(b) && SameMap(mem, a, b) && a.Short? && b.Short?
    requires a.child.Full? && b.child.Full?
    ensures b.key <= a.key
  {
    forall key | Has(mem, a, key) ensures b.key <= key {
      SameHas(mem, a, b, key);
      HasShort(mem, b.key, b.child, key);
    }
    ExtKeys(mem, a.key, a.child, b.key);
  }

  /** The main uniqueness result: same answers, same tree. */
  lemma {:induction false} Unique(mem: Memory, a: Node, b: Node)
    requires Canon(a) && Canon(b) && SameMap(mem, a, b)
    ensures a == b
    decreases a
  {
    SameSymmetric(mem, a, b);
    if a.Nil? || b.Nil? {
      if a.Nil? { NilIsEmpty(mem, a, b); } else { NilIsEmpty(mem, b, a); }
    } else if a.Full? {
      ShortIsNotFull(mem, b, a);
      forall i | 0 <= i < 17 ensures a.kids[i] == b.kids[i] {
        if i == 16 {
          GetFull(mem, a.kids, [16]);
          GetFull(mem, b.kids, [16]);
          assert Get(mem, a, [16]) == Get(mem, b, [16]);
        } else {
          SameKid(mem, a, b, i);
          Unique(mem, a.kids[i], b.kids[i]);
        }
      }
      assert a.kids == b.kids;
    } else {
      if b.Full? { ShortIsNotFull(mem, a, b); }
      if a.child.Value? {
        LeafMatches(mem, a, b);
      } else if b.child.Value? {
        LeafMatches(mem, b, a);
      } else {
        ExtPrefix(mem, a, b);
        ExtPrefix(mem, b, a);
        SameExtChild(mem, a, b);
        Unique(mem, a.child, b.child);
      }
    }
  }

  lemma SameKid(mem: Memory, a: Node, b: Node, i: nat)
    requires Canon(a) && Canon(b) && SameMap(mem, a, b) && a.Full? && b.Full? && i < 16
    ensures SameMap(mem, a.kids[i], b.kids[i])
  {
    assert |a.kids| == |b.kids| == 17 && !a.kids[i].Hash? && !b.kids[i].Hash? by {
      assert Canon(a.kids[i]) && Canon(b.kids[i]);
    }
    hide Canon, Get;
    forall k | Terminated(k) ensures Get(mem, a.kids[i], k) == Get(mem, b.kids[i], k) {
      var key := [i as Byte] + k;
      assert key[1..] == k;
      GetFull(mem, a.kids, key);
      GetFull(mem, b.kids, key);
      assert Terminated(key);
      assert Get(mem, a, key) == Get(mem, b, key);
    }
  }

  lemma SameExtChild(mem: Memory, a: Node, b: Node)
    requires Canon(a) && Canon(b) && SameMap(mem, a, b) && a.Short? && b.Short? && a.key == b.key
    requires a.child.Full? && b.child.Full?
    ensures SameMap(mem, a.child, b.child)
  {
    forall k | Terminated(k) ensures Get(mem, a.child, k) == Get(mem, b.child, k) {
      BelowExt(mem, a.key, a.child, k);
      BelowExt(mem, b.key, b.child, k);
      assert Get(mem, a, a.key + k) == Get(mem, b, a.key + k);
    }
  }
}
