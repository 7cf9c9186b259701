/**
 Loading on access is invisible: a trie some of whose nodes are only hashes answers and
 changes exactly as the fully loaded trie it stands for.
 */
module TrieLazy {
  import opened Bytes
  import opened Trie
  import opened TrieEnc

  /**
   n, with whatever mem holds behind its hashes, is the loaded tree t; all that is stored of the
   subtrees behind those hashes is in kept.
   */
  ghost predicate Rep(hash: HashFn, kept: set<seq<Byte>>, mem: Memory, n: Node, t: Node)
    decreases t, if n.Hash? then 1 else 0
  {
    if n.Hash? then
      && Big(hash, t) && n.h == RootHash(hash, t) && Encs(hash, t) <= kept
      && n.h in mem && !mem[n.h].Hash? && Rep(hash, kept, mem, mem[n.h], t)
    else match t
      case Nil => n.Nil?
      case Value(_) => n == t
      case Short(k, c) => n.Short? && n.key == k && Rep(hash, kept, mem, n.child, c)
      case Full(kids) =>
        n.Full? && |n.kids| == |kids| && forall i | 0 <= i < |kids| :: Rep(hash, kept, mem, n.kids[i], kids[i])
      case Hash(_) => false
  }

  ghost predicate RepOption(hash: HashFn, kept: set<seq<Byte>>, mem: Memory, n: Option<Node>, t: Option<Node>)
  {
    if t.Some? then n.Some? && !n.value.Hash? && Rep(hash, kept, mem, n.value, t.value) else n.None?
  }

  lemma RepNil(hash: HashFn, kept: set<seq<Byte>>, mem: Memory)
    ensures Rep(hash, kept, mem, Nil, Nil)
  {}

  lemma RepValue(hash: HashFn, kept: set<seq<Byte>>, mem: Memory, v: Node)
    requires v.Value?
    ensures Rep(hash, kept, mem, v, v)
  {}

  lemma RepHash(hash: HashFn, kept: set<seq<Byte>>, mem: Memory, h: seq<Byte>, t: Node)
    requires Big(hash, t) && h == RootHash(hash, t) && Encs(hash, t) <= kept
    requires h in mem && !mem[h].Hash? && Rep(hash, kept, mem, mem[h], t)
    ensures Rep(hash, kept, mem, Hash(h), t)
  {
    hide Big, RootHash, Encs;
  }

  lemma TransRep(hash: HashFn, kept: set<seq<Byte>>, mem: Memory, n: Node, t: Node)
    requires Rep(hash, kept, mem, n, t)
    ensures !t.Hash? && Trans(mem, t) == t
    ensures !Trans(mem, n).Hash? && Rep(hash, kept, mem, Trans(mem, n), t)
    ensures Trans(mem, n).Nil? <==> t.Nil?
  {
    hide Big, RootHash, Encs;
  }

  /** A loaded tree stands for itself. */
  lemma {:induction false} RepSelf(hash: HashFn, kept: set<seq<Byte>>, mem: Memory, t: Node)
    requires Loaded(t)
    ensures Rep(hash, kept, mem, t, t)
  {
    hide Big, RootHash, Encs;
    match t
    case Short(k, c) => RepSelf(hash, kept, mem, c);
    case Full(kids) =>
      forall i | 0 <= i < |kids| ensures Rep(hash, kept, mem, kids[i], kids[i]) {
        RepSelf(hash, kept, mem, kids[i]);
      }
    case _ =>
  }

  ghost predicate Loaded(t: Node)
  {
    match t
    case Short(_, c) => Loaded(c)
    case Full(kids) => forall i | 0 <= i < |kids| :: Loaded(kids[i])
    case Hash(_) => false
    case _ => true
  }

  lemma {:induction false} GetRep(hash: HashFn, kept: set<seq<Byte>>, mem: Memory, n: Node, t: Node, key: Key)
    requires !n.Hash? && Rep(hash, kept, mem, n, t)
    ensures RepOption(hash, kept, mem, Get(mem, n, key), Get(mem, t, key))
    decreases |key|
  {
    hide Big, RootHash, Encs;
    if key != [] {
      match t
      case Short(k, c) =>
        TransRep(hash, kept, mem, n.child, c);
        if k <= key && k != [] {
          GetRep(hash, kept, mem, Trans(mem, n.child), c, key[|k|..]);
        }
      case Full(kids) =>
        if key[0] as nat < |kids| {
          TransRep(hash, kept, mem, n.kids[key[0]], kids[key[0]]);
          GetRep(hash, kept, mem, Trans(mem, n.kids[key[0]]), kids[key[0]], key[1..]);
        }
      case _ =>
    }
  }

  lemma AttachRep(hash: HashFn, kept: set<seq<Byte>>, mem: Memory, k: Key, n: Node, t: Node)
    requires !n.Hash? && Rep(hash, kept, mem, n, t)
    ensures !Attach(k, n).Hash? && Rep(hash, kept, mem, Attach(k, n), Attach(k, t))
  {
    hide Big, RootHash, Encs;
  }

  lemma ForkRep(hash: HashFn, kept: set<seq<Byte>>, mem: Memory, i: Byte, a: Node, ta: Node, j: Byte, b: Node, tb: Node)
    requires i <= TERM && j <= TERM && Rep(hash, kept, mem, a, ta) && Rep(hash, kept, mem, b, tb)
    ensures Rep(hash, kept, mem, Fork(i, a, j, b), Fork(i, ta, j, tb))
  {
    hide *;
    var f, t := Fork(i, a, j, b), Fork(i, ta, j, tb);
    ForkSlots(i, a, j, b);
    ForkSlots(i, ta, j, tb);
    RepNil(hash, kept, mem);
    forall x | 0 <= x < 17 ensures Rep(hash, kept, mem, f.kids[x], t.kids[x]) {}
    RepFull(hash, kept, mem, f.kids, t.kids);
  }

  lemma ForkSlots(i: Byte, a: Node, j: Byte, b: Node)
    requires i <= TERM && j <= TERM
    ensures var f := Fork(i, a, j, b);
            f.Full? && |f.kids| == 17 && f == Full(f.kids)
              && forall x | 0 <= x < 17 :: f.kids[x] == if x == j as int then b else if x == i as int then a else Nil
  {}

  lemma RepFull(hash: HashFn, kept: set<seq<Byte>>, mem: Memory, kids: seq<Node>, ts: seq<Node>)
    requires |kids| == |ts| && forall x | 0 <= x < |ts| :: Rep(hash, kept, mem, kids[x], ts[x])
    ensures Rep(hash, kept, mem, Full(kids), Full(ts))
  {}

  lemma SplitRep(hash: HashFn, kept: set<seq<Byte>>, mem: Memory, k: Key, n: Node, t: Node, key: Key, v: Node, m: nat)
    requires m < |k| && m < |key| && k[m] <= TERM && key[m] <= TERM
    requires !n.Hash? && Rep(hash, kept, mem, n, t) && v.Value? && Rep(hash, kept, mem, v, v)
    ensures var b := Attach(key[m + 1..], v);
            var r := Attach(key[..m], Fork(k[m], Attach(k[m + 1..], n), key[m], b));
            !r.Hash? && Rep(hash, kept, mem, r, Attach(key[..m], Fork(k[m], Attach(k[m + 1..], t), key[m], b)))
  {
    hide Big, RootHash, Encs, Rep, Attach;
    var b := Attach(key[m + 1..], v);
    AttachRep(hash, kept, mem, k[m + 1..], n, t);
    AttachRep(hash, kept, mem, key[m + 1..], v, v);
    ForkRep(hash, kept, mem, k[m], Attach(k[m + 1..], n), Attach(k[m + 1..], t), key[m], b, b);
    AttachRep(hash, kept, mem, key[..m], Fork(k[m], Attach(k[m + 1..], n), key[m], b),
              Fork(k[m], Attach(k[m + 1..], t), key[m], b));
  }

  lemma {:induction false} InsertRep(hash: HashFn, kept: set<seq<Byte>>, mem: Memory, n: Node, t: Node, key: Key, v: Node)
    requires !n.Hash? && Rep(hash, kept, mem, n, t) && v.Value?
    ensures RepOption(hash, kept, mem, Insert(mem, n, key, v), Insert(mem, t, key, v))
    decreases |key|, 1
  {
    hide Big, RootHash, Encs;
    assert Rep(hash, kept, mem, v, v);
    if key != [] {
      match t
      case Short(k, c) =>
        InsertShortRep(hash, kept, mem, n, k, c, key, v);
      case Full(kids) =>
        InsertFullRep(hash, kept, mem, n, kids, key, v);
      case _ =>
    }
  }

  lemma {:induction false} InsertFullRep(hash: HashFn, kept: set<seq<Byte>>, mem: Memory, n: Node, kids: seq<Node>,
      key: Key, v: Node)
    requires !n.Hash? && Rep(hash, kept, mem, n, Full(kids)) && v.Value? && key != []
    ensures RepOption(hash, kept, mem, Insert(mem, n, key, v), Insert(mem, Full(kids), key, v))
    decreases |key|, 0
  {
    assert n.Full? && |n.kids| == |kids| && forall i | 0 <= i < |kids| :: Rep(hash, kept, mem, n.kids[i], kids[i]);
    hide Big, RootHash, Encs, Rep, Trans;
    if key[0] as nat < |kids| {
      var i := key[0];
      TransRep(hash, kept, mem, n.kids[i], kids[i]);
      InsertRep(hash, kept, mem, Trans(mem, n.kids[i]), kids[i], key[1..], v);
      assert Trans(mem, kids[i]) == kids[i];
      var r, u := Insert(mem, Trans(mem, n.kids[i]), key[1..], v), Insert(mem, kids[i], key[1..], v);
      if u.Some? {
        RepFull(hash, kept, mem, n.kids[i := r.value], kids[i := u.value]);
      }
    }
  }

  lemma RepShort(hash: HashFn, kept: set<seq<Byte>>, mem: Memory, n: Node, k: Key, c: Node)
    requires !n.Hash?
    ensures Rep(hash, kept, mem, n, Short(k, c)) <==> n.Short? && n.key == k && Rep(hash, kept, mem, n.child, c)
  {
    hide Big, RootHash, Encs;
  }

  lemma {:induction false} InsertShortRep(hash: HashFn, kept: set<seq<Byte>>, mem: Memory, n: Node, k: Key, c: Node,
      key: Key, v: Node)
    requires !n.Hash? && Rep(hash, kept, mem, n, Short(k, c)) && v.Value? && key != []
    ensures RepOption(hash, kept, mem, Insert(mem, n, key, v), Insert(mem, Short(k, c), key, v))
    decreases |key|, 0
  {
    hide Big, RootHash, Encs, Attach, Fork, MatchLen, Rep;
    RepShort(hash, kept, mem, n, k, c);
    TransRep(hash, kept, mem, n.child, c);
    RepValue(hash, kept, mem, v);
    RepShort(hash, kept, mem, Short(key, v), key, v);
    var child, m := Trans(mem, n.child), MatchLen(key, k);
    if k != key {
      if m == |k| {
        if m > 0 {
          InsertRep(hash, kept, mem, child, c, key[m..], v);
          var r, u := Insert(mem, child, key[m..], v), Insert(mem, c, key[m..], v);
          if u.Some? {
            RepShort(hash, kept, mem, Short(key[..m], r.value), key[..m], u.value);
          }
        }
      } else if m < |key| && k[m] <= TERM && key[m] <= TERM {
        SplitRep(hash, kept, mem, k, child, c, key, v, m);
      }
    }
  }

  lemma {:induction false} ScanRep(ns: seq<Node>, ts: seq<Node>, i: nat, pos: int)
    requires |ns| == |ts| && i <= |ns| && forall x | 0 <= x < |ns| :: ns[x].Nil? <==> ts[x].Nil?
    ensures Scan(ns, i, pos) == Scan(ts, i, pos)
    decreases |ns| - i
  {
    hide Big, RootHash, Encs;
    if i < |ns| {
      ScanRep(ns, ts, i + 1, if ns[i].Nil? then pos else if pos == -1 then i else -2);
    }
  }

  lemma MergeRep(hash: HashFn, kept: set<seq<Byte>>, mem: Memory, k: Key, n: Node, t: Node)
    requires !n.Hash? && Rep(hash, kept, mem, n, t)
    ensures !Merge(mem, k, n).Hash? && Rep(hash, kept, mem, Merge(mem, k, n), Merge(mem, k, t))
  {
    hide Big, RootHash, Encs;
    if t.Short? {
      TransRep(hash, kept, mem, n.child, t.child);
    }
  }

  lemma CollapseRep(hash: HashFn, kept: set<seq<Byte>>, mem: Memory, ns: seq<Node>, ts: seq<Node>)
    requires |ns| == |ts| && forall x | 0 <= x < |ns| :: !ns[x].Hash? && Rep(hash, kept, mem, ns[x], ts[x])
    ensures !Collapse(mem, ns).Hash? && Rep(hash, kept, mem, Collapse(mem, ns), Collapse(mem, ts))
  {
    hide Big, RootHash, Encs;
    ScanRep(ns, ts, 0, -1);
    var pos := Scan(ts, 0, -1);
    if 0 <= pos < |ts| {
      assert Rep(hash, kept, mem, ns[pos], ts[pos]);
      if ts[pos].Short? {
        TransRep(hash, kept, mem, ns[pos].child, ts[pos].child);
      }
    }
  }

  lemma TransAllRep(hash: HashFn, kept: set<seq<Byte>>, mem: Memory, ns: seq<Node>, ts: seq<Node>)
    requires |ns| == |ts| && forall x | 0 <= x < |ns| :: Rep(hash, kept, mem, ns[x], ts[x])
    ensures TransAll(mem, ts) == ts
    ensures forall x | 0 <= x < |ns| :: !TransAll(mem, ns)[x].Hash? && Rep(hash, kept, mem, TransAll(mem, ns)[x], ts[x])
  {
    hide Big, RootHash, Encs;
    forall x | 0 <= x < |ns|
      ensures ts[x] == Trans(mem, ts[x]) && !TransAll(mem, ns)[x].Hash? && Rep(hash, kept, mem, TransAll(mem, ns)[x], ts[x])
    {
      TransRep(hash, kept, mem, ns[x], ts[x]);
    }
  }

  lemma {:induction false} DeleteRep(hash: HashFn, kept: set<seq<Byte>>, mem: Memory, n: Node, t: Node, key: Key)
    requires !n.Hash? && Rep(hash, kept, mem, n, t)
    ensures RepOption(hash, kept, mem, Delete(mem, n, key), Delete(mem, t, key))
    decreases |key|
  {
    hide Big, RootHash, Encs;
    match t
    case Short(k, c) =>
      TransRep(hash, kept, mem, n.child, c);
      if key != k && |key| >= |k| && k != [] && k <= key {
        DeleteRep(hash, kept, mem, Trans(mem, n.child), c, key[|k|..]);
        var r := Delete(mem, c, key[|k|..]);
        if r.Some? {
          MergeRep(hash, kept, mem, k, Delete(mem, Trans(mem, n.child), key[|k|..]).value, r.value);
        }
      }
    case Full(kids) =>
      if key != [] && key[0] as nat < |kids| {
        TransRep(hash, kept, mem, n.kids[key[0]], kids[key[0]]);
        DeleteRep(hash, kept, mem, Trans(mem, n.kids[key[0]]), kids[key[0]], key[1..]);
        var r := Delete(mem, kids[key[0]], key[1..]);
        if r.Some? {
          var rn := Delete(mem, Trans(mem, n.kids[key[0]]), key[1..]).value;
          var ns, ts := n.kids[key[0] as int := rn], kids[key[0] as int := r.value];
          TransAllRep(hash, kept, mem, ns, ts);
          CollapseRep(hash, kept, mem, TransAll(mem, ns), ts);
        }
      }
    case _ =>
  }
}
