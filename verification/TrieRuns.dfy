/**
 Runs of Update and Delete over byte keys of one length: the trie is the key-value map the
 run leaves, and the map alone decides the tree.
 */
module TrieRuns {
  import opened Bytes
  import opened Trie
  import opened TrieCanon
  import opened TrieDelete
  import opened TrieUnique
  import opened HexPrefix

  type Contents = map<seq<Byte>, seq<Byte>>

  datatype Op = Update(key: seq<Byte>, value: seq<Byte>) | Remove(key: seq<Byte>)

  ghost predicate KeysOfLength(ops: seq<Op>, len: nat)
  {
    forall op <- ops :: |op.key| == len
  }

  /** What an operation does to the map: an update with an empty value deletes. */
  function ApplyToMap(c: Contents, op: Op): (r: Contents)
  {
    match op
    case Update(k, v) => if v == [] then c - {k} else c[k := v]
    case Remove(k) => c - {k}
  }

  function MapAfter(ops: seq<Op>): (c: Contents)
  {
    if ops == [] then map[] else ApplyToMap(MapAfter(ops[..|ops| - 1]), ops[|ops| - 1])
  }

  /** What it does to the root. */
  function ApplyToTrie(mem: Memory, t: Node, op: Op): (r: Option<Node>)
  {
    match op
    case Update(k, v) => if v == [] then Delete(mem, t, ToKey(k)) else Insert(mem, t, ToKey(k), Value(v))
    case Remove(k) => Delete(mem, t, ToKey(k))
  }

  /** The root after a run from the empty trie; None if some operation panicked. */
  function TrieAfter(mem: Memory, ops: seq<Op>): (r: Option<Node>)
  {
    if ops == [] then Some(Nil)
    else
      var before := TrieAfter(mem, ops[..|ops| - 1]);
      if before.None? then None else ApplyToTrie(mem, before.value, ops[|ops| - 1])
  }

  ghost function ValueAt(c: Contents, k: seq<Byte>): (n: Node)
  {
    if k in c then Value(c[k]) else Nil
  }

  /** t is a canonical trie of len-byte keys holding exactly c. */
  ghost predicate Denotes(mem: Memory, t: Node, c: Contents, len: nat)
  {
    && Good(t, 2 * len + 1)
    && (forall k <- c :: |k| == len && c[k] != [])
    && (forall k: seq<Byte> | |k| == len :: Get(mem, t, ToKey(k)) == Some(ValueAt(c, k)))
  }

  lemma {:induction false} UniformGet(mem: Memory, n: Node, d: nat, key: Key)
    requires Good(n, d) && Terminated(key) && |key| != d
    ensures Get(mem, n, key) == Some(Nil)
    decreases |key|
  {
    match n
    case Nil =>
    case Short(k, c) =>
      GetShort(mem, k, c, key);
      assert Uniform(c, d - |k|);
      if k <= key {
        ShortStep(k, c, key);
        if c.Full? {
          UniformGet(mem, c, d - |k|, key[|k|..]);
        }
      }
    case Full(kids) =>
      FullDepth(kids, d);
      FullStep(n, key);
      GetFull(mem, kids, key);
      if key[0] < TERM {
        assert Good(kids[key[0]], d - 1);
        UniformGet(mem, kids[key[0]], d - 1, key[1..]);
      }
  }

  /** A terminated key of odd length is the key of a byte string. */
  lemma KeyIsToKey(key: Key, len: nat) returns (b: seq<Byte>)
    requires Terminated(key) && |key| == 2 * len + 1
    ensures |b| == len && ToKey(b) == key
  {
    var h := key[..2 * len];
    b := Pack(h);
    UnpackPack(h);
    assert key == h + [TERM];
  }

  /** The map decides the tree. */
  lemma SameContentsSameTree(mem: Memory, a: Node, b: Node, c: Contents, len: nat)
    requires Denotes(mem, a, c, len) && Denotes(mem, b, c, len)
    ensures a == b
  {
    forall k | Terminated(k) ensures Get(mem, a, k) == Get(mem, b, k) {
      if |k| == 2 * len + 1 {
        var bytes := KeyIsToKey(k, len);
      } else {
        UniformGet(mem, a, 2 * len + 1, k);
        UniformGet(mem, b, 2 * len + 1, k);
      }
    }
    Unique(mem, a, b);
  }

  /** And the tree decides the map. */
  lemma SameTreeSameContents(mem: Memory, t: Node, c1: Contents, c2: Contents, len: nat)
    requires Denotes(mem, t, c1, len) && Denotes(mem, t, c2, len)
    ensures c1 == c2
  {
    hide Get, Good, ToKey;
    forall k | k in c1 ensures k in c2 && c2[k] == c1[k] {
      assert Get(mem, t, ToKey(k)) == Some(ValueAt(c1, k)) == Some(ValueAt(c2, k));
    }
    forall k | k in c2 ensures k in c1 {
      assert Get(mem, t, ToKey(k)) == Some(ValueAt(c2, k)) == Some(ValueAt(c1, k));
    }
  }

  lemma GetAfterOp(mem: Memory, t: Node, op: Op, c: Contents, len: nat, k: seq<Byte>)
    requires Denotes(mem, t, c, len) && |op.key| == len == |k|
    ensures var r := ApplyToTrie(mem, t, op);
            r.Some? && Get(mem, r.value, ToKey(k)) == Some(ValueAt(ApplyToMap(c, op), k))
  {
    hide Get, Insert, Delete, Canon, Uniform, ToKey;
    var key, other := ToKey(op.key), ToKey(k);
    if key == other {
      ToKeyInjective(op.key, k);
    }
    if op.Update? && op.value != [] {
      GetInsert(mem, t, key, Value(op.value), other);
    } else {
      GetDelete(mem, t, key, 2 * len + 1, other);
    }
  }

  /** Every operation acts on the trie as it acts on the map, and never panics. */
  lemma ApplyDenotes(mem: Memory, t: Node, op: Op, c: Contents, len: nat)
    requires Denotes(mem, t, c, len) && |op.key| == len
    ensures ApplyToTrie(mem, t, op).Some?
    ensures Denotes(mem, ApplyToTrie(mem, t, op).value, ApplyToMap(c, op), len)
  {
    hide Get, Insert, Delete, Canon, Uniform, ToKey;
    var key := ToKey(op.key);
    if op.Update? && op.value != [] {
      InsertGood(mem, t, key, Value(op.value), 2 * len + 1);
    } else {
      DeleteGood(mem, t, key, 2 * len + 1);
    }
    var r := ApplyToTrie(mem, t, op).value;
    forall k: seq<Byte> | |k| == len ensures Get(mem, r, ToKey(k)) == Some(ValueAt(ApplyToMap(c, op), k)) {
      GetAfterOp(mem, t, op, c, len, k);
    }
  }

  /** Map refinement over whole runs. */
  lemma {:induction false} RunDenotes(mem: Memory, ops: seq<Op>, len: nat)
    requires KeysOfLength(ops, len)
    ensures TrieAfter(mem, ops).Some?
    ensures Denotes(mem, TrieAfter(mem, ops).value, MapAfter(ops), len)
  {
    if ops != [] {
      var front, last := ops[..|ops| - 1], ops[|ops| - 1];
      RunDenotes(mem, front, len);
      ApplyDenotes(mem, TrieAfter(mem, front).value, last, MapAfter(front), len);
    }
  }

  /** History independence: two runs leave the same tree exactly when they leave the same map. */
  lemma HistoryIndependence(mem: Memory, ops1: seq<Op>, ops2: seq<Op>, len: nat)
    requires KeysOfLength(ops1, len) && KeysOfLength(ops2, len)
    ensures TrieAfter(mem, ops1) == TrieAfter(mem, ops2) <==> MapAfter(ops1) == MapAfter(ops2)
  {
    RunDenotes(mem, ops1, len);
    RunDenotes(mem, ops2, len);
    var a, b := TrieAfter(mem, ops1).value, TrieAfter(mem, ops2).value;
    if MapAfter(ops1) == MapAfter(ops2) {
      SameContentsSameTree(mem, a, b, MapAfter(ops1), len);
    }
    if a == b {
      SameTreeSameContents(mem, a, MapAfter(ops1), MapAfter(ops2), len);
    }
  }
}
