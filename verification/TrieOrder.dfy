/** Lexicographic order on keys, and the keys of a trie in that order. */
module TrieOrder {
  import opened Bytes
  import opened Trie
  import opened TrieCanon
  import opened TrieDelete
  import opened TrieRuns

  /** bytes.Compare. */
  function Compare(a: Key, b: Key): (c: int)
    ensures c == 0 <==> a == b
    ensures c in {-1, 0, 1}
  {
    if a == [] then if b == [] then 0 else -1
    else if b == [] then 1
    else if a[0] < b[0] then -1
    else if a[0] > b[0] then 1
    else Compare(a[1..], b[1..])
  }

  predicate Less(a: Key, b: Key)
  {
    Compare(a, b) == -1
  }

  lemma {:induction false} CompareFlip(a: Key, b: Key)
    ensures Compare(a, b) == -Compare(b, a)
  {
    if a != [] && b != [] {
      CompareFlip(a[1..], b[1..]);
    }
  }

  lemma {:induction false} LessTransitive(a: Key, b: Key, c: Key)
    requires Less(a, b) && Less(b, c)
    ensures Less(a, c)
  {
    if a != [] && a[0] == b[0] == c[0] {
      LessTransitive(a[1..], b[1..], c[1..]);
    }
  }

  /** A shared beginning decides nothing, different beginnings of one length decide all. */
  lemma {:induction false} CompareParts(p: Key, a: Key, q: Key, b: Key)
    requires |p| == |q|
    ensures Compare(p + a, q + b) == if p == q then Compare(a, b) else Compare(p, q)
  {
    if p == [] {
      assert p + a == a && q + b == b;
    } else {
      CompareParts(p[1..], a, q[1..], b);
      assert (p + a)[1..] == p[1..] + a && (q + b)[1..] == q[1..] + b;
      assert p == [p[0]] + p[1..] && q == [q[0]] + q[1..];
    }
  }

  lemma CompareAt(x: Key, y: Key, m: nat)
    requires m <= |x| && m <= |y|
    ensures Compare(x, y) == if x[..m] == y[..m] then Compare(x[m..], y[m..]) else Compare(x[..m], y[..m])
  {
    CompareParts(x[..m], x[m..], y[..m], y[m..]);
    assert x == x[..m] + x[m..] && y == y[..m] + y[m..];
  }

  // ---------- the keys of a trie ----------

  ghost function At(t: Node, k: Key): (r: Option<Node>)
  {
    Get(map[], t, k + [TERM])
  }

  /** t holds the key of nibbles k. */
  ghost predicate HasKey(t: Node, k: Key)
  {
    Trie.Plain(k) && At(t, k).Some? && At(t, k).value.Value?
  }

  lemma HasLeaf(k: Key, v: Node, x: Key)
    requires Canon(Short(k, v)) && v.Value?
    ensures Terminated(k) && (HasKey(Short(k, v), x) <==> x == k[..|k| - 1])
    ensures HasKey(Short(k, v), x) ==> At(Short(k, v), x) == Some(v)
  {
    var key := x + [TERM];
    if Trie.Plain(x) {
      GetShort(map[], k, v, key);
      if k <= key {
        PrefixFree(k, key);
      }
      assert key == k ==> x == k[..|k| - 1];
    }
    assert k == k[..|k| - 1] + [TERM];
  }

  lemma HasExt(k: Key, c: Node, x: Key)
    requires Canon(Short(k, c)) && c.Full?
    ensures HasKey(Short(k, c), x) <==> k <= x && HasKey(c, x[|k|..])
    ensures HasKey(Short(k, c), x) ==> At(Short(k, c), x) == At(c, x[|k|..])
  {
    hide Get;
    var key := x + [TERM];
    GetShort(map[], k, c, key);
    if Trie.Plain(x) && k <= key {
      assert k != key by {
        assert Trie.Plain(k);
        assert key[|key| - 1] == TERM;
      }
      assert k <= x && key[|k|..] == x[|k|..] + [TERM];
    }
    if k <= x && HasKey(c, x[|k|..]) {
      assert k <= key && key[|k|..] == x[|k|..] + [TERM];
      assert x == k + x[|k|..];
    }
  }

  lemma HasFull(kids: seq<Node>, d: nat, x: Key)
    requires Good(Full(kids), d)
    ensures |kids| == 17
    ensures HasKey(Full(kids), x) <==> x != [] && x[0] < TERM && HasKey(kids[x[0]], x[1..])
    ensures HasKey(Full(kids), x) ==> At(Full(kids), x) == At(kids[x[0]], x[1..])
  {
    FullDepth(kids, d);
    hide Get, Canon, Uniform;
    var key := x + [TERM];
    if Trie.Plain(x) {
      GetFull(map[], kids, key);
      if x != [] {
        assert key[1..] == x[1..] + [TERM];
      } else {
        assert key[1..] == [];
        GetNil(key[1..]);
      }
    }
    if x != [] && x[0] < TERM && HasKey(kids[x[0]], x[1..]) {
      assert x == [x[0]] + x[1..];
    }
  }

  lemma GetNil(key: Key)
    ensures Get(map[], Nil, key) == Some(Nil)
  {}

  lemma HasLength(t: Node, d: nat, k: Key)
    requires Good(t, d) && HasKey(t, k)
    ensures |k| + 1 == d
  {
    if |k| + 1 != d {
      UniformGet(map[], t, d, k + [TERM]);
    }
  }

  // ---------- the least key within a bound ----------

  datatype Bound = Anything | From(key: Key) | Above(key: Key)

  predicate InRange(b: Bound, k: Key)
  {
    match b
    case Anything => true
    case From(key) => !Less(k, key)
    case Above(key) => Less(key, k)
  }

  /** The bound left after m nibbles shared with it. */
  function Tail(b: Bound, m: nat): (r: Bound)
    requires !b.Anything? ==> m <= |b.key|
  {
    match b
    case Anything => Anything
    case From(key) => From(key[m..])
    case Above(key) => Above(key[m..])
  }

  datatype Hit = Hit(key: Key, value: seq<Byte>)

  function Prepend(k: Key, r: Option<Hit>): (h: Option<Hit>)
  {
    if r.None? then None else Some(Hit(k + r.value.key, r.value.value))
  }

  /** r is the least key of t within b, with its value; None if there is none. */
  ghost predicate Best(t: Node, b: Bound, r: Option<Hit>)
  {
    if r.None? then forall k | HasKey(t, k) :: !InRange(b, k)
    else
      && HasKey(t, r.value.key) && InRange(b, r.value.key) && At(t, r.value.key) == Some(Value(r.value.value))
      && forall k | HasKey(t, k) && InRange(b, k) :: !Less(k, r.value.key)
  }

  lemma RangeAt(b: Bound, k: Key, m: nat)
    requires m <= |k| && (!b.Anything? ==> m <= |b.key|)
    ensures !b.Anything? && b.key[..m] == k[..m] ==> (InRange(b, k) <==> InRange(Tail(b, m), k[m..]))
    ensures !b.Anything? && b.key[..m] != k[..m] ==> (InRange(b, k) <==> Less(b.key[..m], k[..m]))
  {
    if !b.Anything? {
      CompareAt(k, b.key, m);
      CompareAt(b.key, k, m);
      CompareFlip(k[..m], b.key[..m]);
    }
  }

  lemma BestLeaf(k: Key, v: Node, b: Bound)
    requires Canon(Short(k, v)) && v.Value?
    ensures Terminated(k)
    ensures var x := k[..|k| - 1]; Best(Short(k, v), b, if InRange(b, x) then Some(Hit(x, v.data)) else None)
  {
    hide Canon, At, InRange, HasKey, Terminated;
    HasLeaf(k, v, []);
    var x := k[..|k| - 1];
    HasLeaf(k, v, x);
    forall y | HasKey(Short(k, v), y) ensures y == x {
      HasLeaf(k, v, y);
    }
  }

  /** Below an extension, when the bound starts with its key. */
  lemma BestExt(k: Key, c: Node, d: nat, b: Bound, r: Option<Hit>)
    requires Good(Short(k, c), d) && c.Full? && (b.Anything? || k <= b.key) && Best(c, Tail(b, |k|), r)
    ensures Best(Short(k, c), b, Prepend(k, r))
  {
    hide At, HasKey, Less, Canon, Uniform;
    forall y | HasKey(Short(k, c), y)
      ensures k <= y && HasKey(c, y[|k|..]) && (InRange(b, y) <==> InRange(Tail(b, |k|), y[|k|..]))
    {
      HasExt(k, c, y);
      RangeAt(b, y, |k|);
    }
    if r.Some? {
      var x := k + r.value.key;
      assert x[|k|..] == r.value.key;
      HasExt(k, c, x);
      RangeAt(b, x, |k|);
      forall y | HasKey(Short(k, c), y) && InRange(b, y) ensures !Less(y, x) {
        CompareAt(y, x, |k|);
        assert !Less(y[|k|..], r.value.key);
        SameLess(y, x, y[|k|..], r.value.key);
      }
    }
  }

  lemma SameLess(a: Key, b: Key, c: Key, d: Key)
    requires Compare(a, b) == Compare(c, d)
    ensures Less(a, b) <==> Less(c, d)
  {}

  /** Past an extension whose key is beyond the bound: everything below it is in range. */
  lemma BestBeyond(k: Key, c: Node, b: Bound, r: Option<Hit>)
    requires Canon(Short(k, c)) && c.Full? && !b.Anything? && |k| <= |b.key| && Less(b.key[..|k|], k)
    requires Best(Short(k, c), Anything, r)
    ensures Best(Short(k, c), b, r)
  {
    hide At, HasKey, Canon;
    forall y | HasKey(Short(k, c), y) ensures InRange(b, y) {
      HasExt(k, c, y);
      assert y[..|k|] == k;
      RangeAt(b, y, |k|);
    }
  }

  lemma BestBehind(k: Key, c: Node, b: Bound)
    requires Canon(Short(k, c)) && c.Full? && !b.Anything? && |k| <= |b.key|
    requires b.key[..|k|] != k && !Less(b.key[..|k|], k)
    ensures Best(Short(k, c), b, None)
  {
    hide At, HasKey, Canon;
    forall y | HasKey(Short(k, c), y) ensures !InRange(b, y) {
      HasExt(k, c, y);
      assert y[..|k|] == k;
      RangeAt(b, y, |k|);
    }
  }

  /** A key of a full node against a bound: the first nibble decides, unless it is the bound's own. */
  lemma KidRange(kids: seq<Node>, d: nat, b: Bound, y: Key)
    requires Good(Full(kids), d) && HasKey(Full(kids), y) && !b.Anything? && b.key != []
    ensures |kids| == 17 && y != [] && y[0] < TERM && HasKey(kids[y[0]], y[1..])
    ensures InRange(b, y) <==> b.key[0] < y[0] || (b.key[0] == y[0] && InRange(Tail(b, 1), y[1..]))
  {
    hide At, HasKey, Canon, Uniform;
    HasFull(kids, d, y);
    RangeAt(b, y, 1);
    assert y[..1] == [y[0]] && b.key[..1] == [b.key[0]];
    OneNibble(b.key[0], y[0]);
  }

  lemma OneNibble(a: Byte, b: Byte)
    ensures Less([a], [b]) <==> a < b
  {}

  /** The first child with a key in range gives the least key. */
  lemma BestKid(kids: seq<Node>, d: nat, b: Bound, i: Byte, sub: Bound, r: Option<Hit>)
    requires Good(Full(kids), d) && |kids| == 17 && i < TERM && r.Some? && Best(kids[i], sub, r)
    requires forall y | HasKey(Full(kids), y) && InRange(b, y) :: y != [] && i <= y[0]
    requires forall y | HasKey(Full(kids), y) && y != [] && y[0] == i :: InRange(b, y) <==> InRange(sub, y[1..])
    ensures Best(Full(kids), b, Prepend([i], r))
  {
    hide At, HasKey, Canon, Uniform, InRange, Less;
    var x := [i] + r.value.key;
    assert x[1..] == r.value.key;
    HasFull(kids, d, x);
    forall y | HasKey(Full(kids), y) && InRange(b, y) ensures !Less(y, x) {
      HasFull(kids, d, y);
      CompareAt(y, x, 1);
      assert y[..1] == [y[0]] && x[..1] == [i];
      if y[0] == i {
        SameLess(y, x, y[1..], r.value.key);
      } else {
        SameLess(y, x, [y[0]], [i]);
        OneNibble(y[0], i);
      }
    }
  }

  lemma BestSame(kids: seq<Node>, d: nat, b: Bound, r: Option<Hit>)
    requires Good(Full(kids), d) && |kids| == 17 && !b.Anything? && b.key != [] && b.key[0] < TERM
    requires r.Some? && Best(kids[b.key[0]], Tail(b, 1), r)
    ensures Best(Full(kids), b, Prepend([b.key[0]], r))
  {
    hide At, HasKey, Canon, Uniform, InRange, Best;
    var i := b.key[0];
    forall y | HasKey(Full(kids), y)
      ensures y != [] && (InRange(b, y) ==> i <= y[0]) && (y[0] == i ==> (InRange(b, y) <==> InRange(Tail(b, 1), y[1..])))
    {
      KidRange(kids, d, b, y);
    }
    BestKid(kids, d, b, i, Tail(b, 1), r);
  }

  /** No child before i holds a key in range. */
  ghost predicate Skipped(kids: seq<Node>, b: Bound, i: nat)
    requires |kids| == 17 && i <= 16 && (!b.Anything? ==> b.key != [] && b.key[0] < TERM)
  {
    if b.Anything? then forall j | 0 <= j < i :: kids[j].Nil?
    else
      && b.key[0] as nat < i && Best(kids[b.key[0]], Tail(b, 1), None)
      && forall j | b.key[0] as nat < j < i :: kids[j].Nil?
  }

  lemma SkippedRange(kids: seq<Node>, d: nat, b: Bound, i: nat, y: Key)
    requires Good(Full(kids), d) && |kids| == 17 && i <= 16 && (!b.Anything? ==> b.key != [] && b.key[0] < TERM)
    requires Skipped(kids, b, i) && HasKey(Full(kids), y)
    ensures y != [] && y[0] < TERM
    ensures InRange(b, y) <==> y[0] as nat >= i
  {
    HasFull(kids, d, y);
    if !b.Anything? {
      KidRange(kids, d, b, y);
    }
  }

  lemma BestLater(kids: seq<Node>, d: nat, b: Bound, i: Byte, r: Option<Hit>)
    requires Good(Full(kids), d) && |kids| == 17 && i < TERM && (!b.Anything? ==> b.key != [] && b.key[0] < TERM)
    requires Skipped(kids, b, i as nat) && r.Some? && Best(kids[i], Anything, r)
    ensures Best(Full(kids), b, Prepend([i], r))
  {
    hide At, HasKey, Canon, Uniform, Best, Less, Skipped;
    forall y | HasKey(Full(kids), y)
      ensures y != [] && (InRange(b, y) ==> i <= y[0]) && (y[0] == i ==> InRange(b, y))
    {
      SkippedRange(kids, d, b, i as nat, y);
    }
    BestKid(kids, d, b, i, Anything, r);
  }

  lemma BestNone(kids: seq<Node>, d: nat, b: Bound)
    requires Good(Full(kids), d) && |kids| == 17 && (!b.Anything? ==> b.key != [] && b.key[0] < TERM)
    requires Skipped(kids, b, 16)
    ensures Best(Full(kids), b, None)
  {
    hide At, HasKey, Canon, Uniform, Less, Skipped, InRange;
    forall y | HasKey(Full(kids), y) ensures !InRange(b, y) {
      SkippedRange(kids, d, b, 16, y);
    }
  }
}
