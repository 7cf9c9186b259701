/**
 Nodes with their dirty flag. Whatever insert and delete build is dirty; only short nodes read from the
 store are clean. store writes dirty nodes only, and nothing is lost by that: a clean node that has to be
 stored is stored already.
 */
module TrieDirty {
  import opened Bytes
  import opened RlpSpec
  import opened Trie
  import opened TrieEnc
  import opened TrieLazy
  import opened TrieStore
  import opened TrieRuns
  import opened TrieHash
  import opened HexPrefix
  import CommonRlp

  /** The flags of value and hash nodes decide nothing. */
  datatype FNode =
    | FNil
    | FValue(data: seq<Byte>)
    | FShort(key: Key, child: FNode, dirty: bool)
    | FFull(kids: seq<FNode>, dirty: bool)
    | FHash(h: seq<Byte>)

  type FMemory = map<seq<Byte>, FNode>

  /** The node without its flags. */
  function Strip(f: FNode): (n: Node)
    ensures f.FNil? <==> n.Nil?
    ensures f.FHash? <==> n.Hash?
    ensures f.FShort? <==> n.Short?
    ensures f.FFull? <==> n.Full?
  {
    match f
    case FNil => Nil
    case FValue(data) => Value(data)
    case FShort(k, c, _) => Short(k, Strip(c))
    case FFull(kids, _) => Full(StripAll(kids))
    case FHash(h) => Hash(h)
  }

  function StripAll(fs: seq<FNode>): (ns: seq<Node>)
    ensures |ns| == |fs| && forall i | 0 <= i < |fs| :: ns[i] == Strip(fs[i])
  {
    seq(|fs|, i requires 0 <= i < |fs| => Strip(fs[i]))
  }

  // ---------- the operations ----------

  /** mknode: a short node is clean; setting the children of a full node makes it dirty. */
  function FMkNode(x: Item): (f: FNode)
  {
    match x
    case Str(b) => if b == [] then FNil else if |b| == 32 then FHash(b) else FValue(b)
    case List(xs) =>
      if |xs| == 0 then FNil
      else if |xs| == 2 && ItemBytes(xs[0]) != [] then
        var key := FromCompact(ItemBytes(xs[0]));
        if key != [] && key[|key| - 1] == TERM then FShort(key, FValue(ItemBytes(xs[1])), false)
        else FShort(key, FMkNode(xs[1]), false)
      else if |xs| == 17 then
        FFull(seq(16, i requires 0 <= i < 16 => FMkNode(xs[i])) + [FNil], true)
      else if |xs| == 32 then FHash([])
      else FValue([])
  }

  function FNodeOf(data: seq<Byte>): (f: FNode)
  {
    var r := CommonRlp.Decode(data, 0);
    if data != [] && r.Some? then FMkNode(r.value.0) else FNil
  }

  function FMemOf(db: Db): (fm: FMemory)
  {
    map h | h in db :: FNodeOf(db[h])
  }

  function FFetch(db: Db, h: seq<Byte>): (f: FNode)
  {
    if h in db then FNodeOf(db[h]) else FNil
  }

  function FTrans(fm: FMemory, f: FNode): (r: FNode)
  {
    if f.FHash? then (if f.h in fm then fm[f.h] else FNil) else f
  }

  function FTransAll(fm: FMemory, kids: seq<FNode>): (r: seq<FNode>)
    ensures |r| == |kids| && forall i | 0 <= i < |kids| :: r[i] == FTrans(fm, kids[i])
  {
    seq(|kids|, i requires 0 <= i < |kids| => FTrans(fm, kids[i]))
  }

  function FAttach(key: Key, f: FNode): (r: FNode)
  {
    if key == [] then f else FShort(key, f, true)
  }

  function FFork(i: Byte, a: FNode, j: Byte, b: FNode): (r: FNode)
    requires i <= TERM && j <= TERM
  {
    FFull(seq(17, _ => FNil)[i as int := a][j as int := b], true)
  }

  function FInsert(fm: FMemory, f: FNode, key: Key, v: FNode): (r: Option<FNode>)
    decreases |key|
  {
    if key == [] then Some(v)
    else match f
      case FNil => Some(FShort(key, v, true))
      case FShort(k, c, _) =>
        var child := FTrans(fm, c);
        if k == key then Some(FShort(key, v, true))
        else
          var m := MatchLen(key, k);
          if m == |k| then
            if m == 0 then None
            else
              var r := FInsert(fm, child, key[m..], v);
              if r.None? then None else Some(FShort(key[..m], r.value, true))
          else if m == |key| || k[m] > TERM || key[m] > TERM then None
          else
            Some(FAttach(key[..m], FFork(k[m], FAttach(k[m + 1..], child), key[m], FAttach(key[m + 1..], v))))
      case FFull(kids, _) =>
        if key[0] as nat >= |kids| then None
        else
          var r := FInsert(fm, FTrans(fm, kids[key[0]]), key[1..], v);
          if r.None? then None else Some(FFull(kids[key[0] := r.value], true))
      case _ => None
  }

  function FCollapse(fm: FMemory, kids: seq<FNode>): (r: FNode)
  {
    var pos := Scan(StripAll(kids), 0, -1);
    if pos == 16 && |kids| == 17 then FShort([16], kids[16], true)
    else if 0 <= pos < |kids| && pos < 256 then
      match kids[pos]
      case FShort(k, c, _) => FShort([pos as Byte] + k, FTrans(fm, c), true)
      case FFull(_, _) => FShort([pos as Byte], kids[pos], true)
      case _ => FNil
    else FFull(kids, true)
  }

  function FMerge(fm: FMemory, k: Key, child: FNode): (r: FNode)
  {
    match child
    case FShort(k2, c2, _) => FShort(k + k2, FTrans(fm, c2), true)
    case FFull(_, _) => FShort(k, child, true)
    case _ => FNil
  }

  function FDelete(fm: FMemory, f: FNode, key: Key): (r: Option<FNode>)
    decreases |key|
  {
    match f
    case FNil => Some(FNil)
    case FShort(k, c, _) =>
      if key == k then Some(FNil)
      else if |key| < |k| || k == [] then None
      else if k <= key then
        var child := FDelete(fm, FTrans(fm, c), key[|k|..]);
        if child.None? then None else Some(FMerge(fm, k, child.value))
      else Some(f)
    case FFull(kids, _) =>
      if key == [] || key[0] as nat >= |kids| then None
      else
        var r := FDelete(fm, FTrans(fm, kids[key[0]]), key[1..]);
        if r.None? then None else Some(FCollapse(fm, FTransAll(fm, kids[key[0] := r.value])))
    case _ => None
  }

  function FApply(fm: FMemory, f: FNode, op: Op): (r: Option<FNode>)
  {
    match op
    case Update(k, v) => if v == [] then FDelete(fm, f, ToKey(k)) else FInsert(fm, f, ToKey(k), FValue(v))
    case Remove(k) => FDelete(fm, f, ToKey(k))
  }

  // ---------- the flags change nothing else ----------

  ghost function StripOption(r: Option<FNode>): (s: Option<Node>)
  {
    if r.None? then None else Some(Strip(r.value))
  }

  ghost function StripMem(fm: FMemory): (mem: Memory)
  {
    map h | h in fm :: Strip(fm[h])
  }

  lemma {:induction false} StripMkNode(x: Item)
    ensures Strip(FMkNode(x)) == MkNode(x)
  {
    hide FromCompact;
    if x.List? {
      var xs := x.items;
      if |xs| == 2 {
        StripMkNode(xs[1]);
      } else if |xs| == 17 {
        forall i | 0 <= i < 16 ensures Strip(FMkNode(xs[i])) == MkNode(xs[i]) {
          StripMkNode(xs[i]);
        }
      }
    }
  }

  lemma StripNodeOf(data: seq<Byte>)
    ensures Strip(FNodeOf(data)) == NodeOf(data)
  {
    hide FMkNode, MkNode, CommonRlp.Decode;
    var r := CommonRlp.Decode(data, 0);
    if r.Some? {
      StripMkNode(r.value.0);
    }
  }

  lemma StripMemOf(db: Db)
    ensures StripMem(FMemOf(db)) == MemOf(db)
  {
    hide FNodeOf, NodeOf, Strip;
    forall h | h in db ensures Strip(FNodeOf(db[h])) == NodeOf(db[h]) {
      StripNodeOf(db[h]);
    }
  }

  lemma StripTrans(fm: FMemory, f: FNode)
    ensures Strip(FTrans(fm, f)) == Trans(StripMem(fm), Strip(f))
  {}

  lemma StripAttach(key: Key, f: FNode)
    ensures Strip(FAttach(key, f)) == Attach(key, Strip(f))
  {}

  lemma StripFork(i: Byte, a: FNode, j: Byte, b: FNode)
    requires i <= TERM && j <= TERM
    ensures Strip(FFork(i, a, j, b)) == Fork(i, Strip(a), j, Strip(b))
  {
    hide Strip;
    assert Strip(FFork(i, a, j, b)) == Full(StripAll(FFork(i, a, j, b).kids)) by {
      StripFull(FFork(i, a, j, b).kids, true);
    }
    assert Strip(FNil) == Nil;
    assert StripAll(FFork(i, a, j, b).kids) == Fork(i, Strip(a), j, Strip(b)).kids;
  }

  lemma StripFull(kids: seq<FNode>, dirty: bool)
    ensures Strip(FFull(kids, dirty)) == Full(StripAll(kids))
  {}

  lemma StripSplit(fm: FMemory, k: Key, child: FNode, key: Key, v: FNode, m: nat)
    requires m < |k| && m < |key| && k[m] <= TERM && key[m] <= TERM
    ensures Strip(FAttach(key[..m], FFork(k[m], FAttach(k[m + 1..], child), key[m], FAttach(key[m + 1..], v)))) ==
            Attach(key[..m], Fork(k[m], Attach(k[m + 1..], Strip(child)), key[m], Attach(key[m + 1..], Strip(v))))
  {
    hide *;
    var a, b := FAttach(k[m + 1..], child), FAttach(key[m + 1..], v);
    StripAttach(k[m + 1..], child);
    StripAttach(key[m + 1..], v);
    StripFork(k[m], a, key[m], b);
    StripAttach(key[..m], FFork(k[m], a, key[m], b));
  }

  lemma {:induction false} StripInsert(fm: FMemory, f: FNode, key: Key, v: FNode)
    ensures StripOption(FInsert(fm, f, key, v)) == Insert(StripMem(fm), Strip(f), key, Strip(v))
    decreases |key|, 1
  {
    if key != [] {
      match f
      case FShort(k, c, d) => StripInsertShort(fm, k, c, d, key, v);
      case FFull(kids, d) => StripInsertFull(fm, kids, d, key, v);
      case _ =>
    }
  }

  lemma {:induction false} StripInsertShort(fm: FMemory, k: Key, c: FNode, d: bool, key: Key, v: FNode)
    requires key != []
    ensures StripOption(FInsert(fm, FShort(k, c, d), key, v)) == Insert(StripMem(fm), Short(k, Strip(c)), key, Strip(v))
    decreases |key|, 0
  {
    hide StripMem, FTrans, Trans, FAttach, Attach, FFork, Fork, MatchLen, Strip;
    StripTrans(fm, c);
    StripShort(k, c, d);
    StripShort(key, v, true);
    var child, m := FTrans(fm, c), MatchLen(key, k);
    if k != key {
      if m == |k| {
        if m > 0 {
          StripInsert(fm, child, key[m..], v);
          var r := FInsert(fm, child, key[m..], v);
          if r.Some? {
            StripShort(key[..m], r.value, true);
          }
        }
      } else if m < |key| && k[m] <= TERM && key[m] <= TERM {
        StripSplit(fm, k, child, key, v, m);
      }
    }
  }

  lemma StripShort(k: Key, c: FNode, d: bool)
    ensures Strip(FShort(k, c, d)) == Short(k, Strip(c))
  {}

  lemma {:induction false} StripInsertFull(fm: FMemory, kids: seq<FNode>, d: bool, key: Key, v: FNode)
    requires key != []
    ensures StripOption(FInsert(fm, FFull(kids, d), key, v)) == Insert(StripMem(fm), Full(StripAll(kids)), key, Strip(v))
    decreases |key|, 0
  {
    hide StripMem, FTrans, Trans, Strip;
    if key[0] as nat < |kids| {
      StripTrans(fm, kids[key[0]]);
      StripInsert(fm, FTrans(fm, kids[key[0]]), key[1..], v);
      var r := FInsert(fm, FTrans(fm, kids[key[0]]), key[1..], v);
      if r.Some? {
        var ks := kids[key[0] := r.value];
        StripFull(ks, true);
        assert StripAll(ks) == StripAll(kids)[key[0] := Strip(r.value)];
      }
    }
  }

  lemma StripCollapse(fm: FMemory, kids: seq<FNode>)
    ensures Strip(FCollapse(fm, kids)) == Collapse(StripMem(fm), StripAll(kids))
  {
    hide StripMem, FTrans, Trans, Scan;
    var pos := Scan(StripAll(kids), 0, -1);
    if 0 <= pos < |kids| && kids[pos].FShort? {
      StripTrans(fm, kids[pos].child);
    }
  }

  lemma StripMerge(fm: FMemory, k: Key, child: FNode)
    ensures Strip(FMerge(fm, k, child)) == Merge(StripMem(fm), k, Strip(child))
  {
    hide StripMem, FTrans, Trans;
    if child.FShort? {
      StripTrans(fm, child.child);
    }
  }

  lemma StripTransAll(fm: FMemory, kids: seq<FNode>)
    ensures StripAll(FTransAll(fm, kids)) == TransAll(StripMem(fm), StripAll(kids))
  {
    hide StripMem, FTrans, Trans, Strip;
    forall i | 0 <= i < |kids| ensures Strip(FTrans(fm, kids[i])) == Trans(StripMem(fm), Strip(kids[i])) {
      StripTrans(fm, kids[i]);
    }
  }

  lemma {:induction false} StripDelete(fm: FMemory, f: FNode, key: Key)
    ensures StripOption(FDelete(fm, f, key)) == Delete(StripMem(fm), Strip(f), key)
    decreases |key|
  {
    hide StripMem, FTrans, Trans, FCollapse, Collapse, FMerge, Merge, FTransAll, TransAll;
    match f
    case FShort(k, c, _) =>
      if key != k && |key| >= |k| && k != [] && k <= key {
        StripTrans(fm, c);
        StripDelete(fm, FTrans(fm, c), key[|k|..]);
        var child := FDelete(fm, FTrans(fm, c), key[|k|..]);
        if child.Some? {
          StripMerge(fm, k, child.value);
        }
      }
    case FFull(kids, _) =>
      if key != [] && key[0] as nat < |kids| {
        StripTrans(fm, kids[key[0]]);
        StripDelete(fm, FTrans(fm, kids[key[0]]), key[1..]);
        var r := FDelete(fm, FTrans(fm, kids[key[0]]), key[1..]);
        if r.Some? {
          var ks := kids[key[0] := r.value];
          assert StripAll(ks) == StripAll(kids)[key[0] := Strip(r.value)];
          StripTransAll(fm, ks);
          StripCollapse(fm, FTransAll(fm, ks));
        }
      }
    case _ =>
  }

  lemma StripApply(fm: FMemory, f: FNode, op: Op)
    ensures StripOption(FApply(fm, f, op)) == ApplyToTrie(StripMem(fm), Strip(f), op)
  {
    hide FInsert, FDelete, Insert, Delete, StripMem, ToKey;
    if op.Update? && op.value != [] {
      StripInsert(fm, f, ToKey(op.key), FValue(op.value));
    } else {
      StripDelete(fm, f, ToKey(op.key));
    }
  }

  // ---------- clean nodes are stored ----------

  /** A clean node of 32 bytes or more is among the encodings stored already. */
  ghost predicate OwnClean(hash: HashFn, kept: set<seq<Byte>>, n: Node, dirty: bool)
  {
    !dirty && Big(hash, n) ==> Enc(hash, n) in kept
  }

  ghost predicate Clean(hash: HashFn, kept: set<seq<Byte>>, f: FNode)
  {
    match f
    case FShort(_, c, dirty) => OwnClean(hash, kept, Strip(f), dirty) && Clean(hash, kept, c)
    case FFull(kids, dirty) => OwnClean(hash, kept, Strip(f), dirty) && AllClean(hash, kept, kids)
    case _ => true
  }

  ghost predicate AllClean(hash: HashFn, kept: set<seq<Byte>>, fs: seq<FNode>)
  {
    forall i | 0 <= i < |fs| :: Clean(hash, kept, fs[i])
  }

  /** A node that stands for a tree whose encodings are all kept is clean whatever its flags. */
  lemma {:induction false} RepClean(hash: HashFn, kept: set<seq<Byte>>, mem: Memory, f: FNode, t: Node)
    requires Rep(hash, kept, mem, Strip(f), t) && Encs(hash, t) <= kept
    ensures Clean(hash, kept, f)
    decreases f
  {
    hide Rep, Enc, Encs, NodeItem, RefItem, OwnClean, Big;
    var n := Strip(f);
    RepShape(hash, kept, mem, n, t);
    match f
    case FShort(k, c, dirty) =>
      SameKind(hash, kept, mem, n, t);
      OwnIsClean(hash, kept, mem, n, t, dirty);
      EncsChild(hash, t, t.child);
      RepClean(hash, kept, mem, c, t.child);
    case FFull(kids, dirty) =>
      SameKind(hash, kept, mem, n, t);
      OwnIsClean(hash, kept, mem, n, t, dirty);
      forall i | 0 <= i < |kids| ensures Clean(hash, kept, kids[i]) {
        EncsChild(hash, t, t.kids[i]);
        RepClean(hash, kept, mem, kids[i], t.kids[i]);
      }
    case _ =>
  }

  lemma SameKind(hash: HashFn, kept: set<seq<Byte>>, mem: Memory, n: Node, t: Node)
    requires Rep(hash, kept, mem, n, t)
    ensures n.Short? ==> t.Short?
    ensures n.Full? ==> t.Full?
  {
    hide Big, RootHash, Encs;
  }

  lemma OwnIsClean(hash: HashFn, kept: set<seq<Byte>>, mem: Memory, n: Node, t: Node, dirty: bool)
    requires Rep(hash, kept, mem, n, t) && Encs(hash, t) <= kept && (n.Short? || n.Full?)
        && (n.Short? ==> t.Short?) && (n.Full? ==> t.Full?)
    ensures OwnClean(hash, kept, n, dirty)
  {
    hide Rep, NodeItem, RefItem, Encs, Encode;
    RepItem(hash, kept, mem, n, t);
    SameEnc(hash, n, t);
    if Big(hash, n) {
      OwnIn(hash, t);
    }
  }

  /** Loading keeps it clean. */
  lemma TransClean(hash: HashFn, kept: set<seq<Byte>>, fm: FMemory, f: FNode, t: Node)
    requires Rep(hash, kept, StripMem(fm), Strip(f), t) && Clean(hash, kept, f)
    ensures Clean(hash, kept, FTrans(fm, f)) && !Strip(FTrans(fm, f)).Hash?
        && Rep(hash, kept, StripMem(fm), Strip(FTrans(fm, f)), t)
  {
    hide Big, RootHash, Encs, Clean;
    TransRep(hash, kept, StripMem(fm), Strip(f), t);
    StripTrans(fm, f);
    if f.FHash? {
      RepClean(hash, kept, StripMem(fm), fm[f.h], t);
    }
  }

  lemma DirtyShort(hash: HashFn, kept: set<seq<Byte>>, k: Key, c: FNode)
    requires Clean(hash, kept, c)
    ensures Clean(hash, kept, FShort(k, c, true)) && Clean(hash, kept, FAttach(k, c))
  {}

  lemma DirtyFull(hash: HashFn, kept: set<seq<Byte>>, kids: seq<FNode>)
    requires AllClean(hash, kept, kids)
    ensures Clean(hash, kept, FFull(kids, true))
  {}

  lemma ForkClean(hash: HashFn, kept: set<seq<Byte>>, i: Byte, a: FNode, j: Byte, b: FNode)
    requires i <= TERM && j <= TERM && Clean(hash, kept, a) && Clean(hash, kept, b)
    ensures Clean(hash, kept, FFork(i, a, j, b))
  {
    assert Clean(hash, kept, FNil);
  }

  lemma KidClean(hash: HashFn, kept: set<seq<Byte>>, f: FNode, i: nat)
    requires Clean(hash, kept, f)
    ensures f.FShort? ==> Clean(hash, kept, f.child)
    ensures f.FFull? ==> AllClean(hash, kept, f.kids) && (i < |f.kids| ==> Clean(hash, kept, f.kids[i]))
  {}

  lemma {:induction false} InsertClean(hash: HashFn, kept: set<seq<Byte>>, fm: FMemory, f: FNode, t: Node, key: Key, v: FNode)
    requires !f.FHash? && Rep(hash, kept, StripMem(fm), Strip(f), t) && Clean(hash, kept, f) && v.FValue?
    ensures var r := FInsert(fm, f, key, v); r.Some? ==> Clean(hash, kept, r.value)
    decreases |key|
  {
    hide Rep, Clean, AllClean, StripMem, FTrans, FAttach, FFork, MatchLen;
    assert Clean(hash, kept, v) by {
      ValueClean(hash, kept, v);
    }
    if key != [] {
      RepShape(hash, kept, StripMem(fm), Strip(f), t);
      SameKind(hash, kept, StripMem(fm), Strip(f), t);
      match f
      case FNil => DirtyShort(hash, kept, key, v);
      case FShort(k, c, _) =>
        KidClean(hash, kept, f, 0);
        TransClean(hash, kept, fm, c, t.child);
        ShortClean(hash, kept, fm, k, FTrans(fm, c), t.child, key, v);
      case FFull(kids, _) =>
        if key[0] as nat < |kids| {
          KidClean(hash, kept, f, key[0] as nat);
          TransClean(hash, kept, fm, kids[key[0]], t.kids[key[0]]);
          InsertClean(hash, kept, fm, FTrans(fm, kids[key[0]]), t.kids[key[0]], key[1..], v);
          var r := FInsert(fm, FTrans(fm, kids[key[0]]), key[1..], v);
          if r.Some? {
            OneKid(hash, kept, kids, key[0] as nat, r.value);
            DirtyFull(hash, kept, kids[key[0] := r.value]);
          }
        }
      case _ =>
    }
  }

  lemma ValueClean(hash: HashFn, kept: set<seq<Byte>>, v: FNode)
    requires v.FValue?
    ensures Clean(hash, kept, v)
  {}

  lemma OneKid(hash: HashFn, kept: set<seq<Byte>>, kids: seq<FNode>, i: nat, f: FNode)
    requires i < |kids| && AllClean(hash, kept, kids) && Clean(hash, kept, f)
    ensures AllClean(hash, kept, kids[i := f])
  {}

  /** insert below a short node whose child is loaded. */
  lemma {:induction false} ShortClean(hash: HashFn, kept: set<seq<Byte>>, fm: FMemory, k: Key, child: FNode, t: Node,
      key: Key, v: FNode)
    requires key != [] && Clean(hash, kept, child) && Clean(hash, kept, v) && v.FValue?
    requires !child.FHash? && Rep(hash, kept, StripMem(fm), Strip(child), t)
    ensures forall c, d | FTrans(fm, c) == child ::
              var r := FInsert(fm, FShort(k, c, d), key, v); r.Some? ==> Clean(hash, kept, r.value)
    decreases |key|, 0
  {
    hide Rep, Clean, StripMem, FTrans, FAttach, FFork, MatchLen;
    var m := MatchLen(key, k);
    DirtyShort(hash, kept, key, v);
    if m == |k| && m > 0 {
      InsertClean(hash, kept, fm, child, t, key[m..], v);
      var r := FInsert(fm, child, key[m..], v);
      if r.Some? {
        DirtyShort(hash, kept, key[..m], r.value);
      }
    } else if m < |k| && m < |key| && k[m] <= TERM && key[m] <= TERM {
      DirtyShort(hash, kept, k[m + 1..], child);
      DirtyShort(hash, kept, key[m + 1..], v);
      var a, b := FAttach(k[m + 1..], child), FAttach(key[m + 1..], v);
      ForkClean(hash, kept, k[m], a, key[m], b);
      DirtyShort(hash, kept, key[..m], FFork(k[m], a, key[m], b));
    }
  }

  /** What delete leaves stands for what it leaves of the whole tree. */
  lemma DeletedRep(hash: HashFn, kept: set<seq<Byte>>, fm: FMemory, f: FNode, t: Node, key: Key) returns (u: Node)
    requires !f.FHash? && Rep(hash, kept, StripMem(fm), Strip(f), t) && FDelete(fm, f, key).Some?
    ensures var r := FDelete(fm, f, key).value; !r.FHash? && Rep(hash, kept, StripMem(fm), Strip(r), u)
  {
    hide Rep, FDelete, Delete, StripMem;
    StripDelete(fm, f, key);
    DeleteRep(hash, kept, StripMem(fm), Strip(f), t, key);
    u := Delete(StripMem(fm), t, key).value;
  }

  lemma MergeClean(hash: HashFn, kept: set<seq<Byte>>, fm: FMemory, k: Key, f: FNode, t: Node)
    requires !f.FHash? && Rep(hash, kept, StripMem(fm), Strip(f), t) && Clean(hash, kept, f)
    ensures Clean(hash, kept, FMerge(fm, k, f))
  {
    hide Rep, Clean, StripMem, FTrans;
    NilClean(hash, kept);
    if f.FShort? {
      LoadedChild(hash, kept, fm, f, t);
      DirtyShort(hash, kept, k + f.key, FTrans(fm, f.child));
    } else if f.FFull? {
      DirtyShort(hash, kept, k, f);
    }
  }

  lemma NilClean(hash: HashFn, kept: set<seq<Byte>>)
    ensures Clean(hash, kept, FNil)
  {}

  /** The child of a short node, loaded. */
  lemma LoadedChild(hash: HashFn, kept: set<seq<Byte>>, fm: FMemory, f: FNode, t: Node)
    requires f.FShort? && Rep(hash, kept, StripMem(fm), Strip(f), t) && Clean(hash, kept, f)
    ensures Clean(hash, kept, FTrans(fm, f.child))
  {
    hide Rep, Clean, StripMem, FTrans;
    RepShape(hash, kept, StripMem(fm), Strip(f), t);
    SameKind(hash, kept, StripMem(fm), Strip(f), t);
    KidClean(hash, kept, f, 0);
    TransClean(hash, kept, fm, f.child, t.child);
  }

  lemma CollapseClean(hash: HashFn, kept: set<seq<Byte>>, fm: FMemory, kids: seq<FNode>, ts: seq<Node>)
    requires |kids| == |ts| && AllClean(hash, kept, kids)
    requires forall i | 0 <= i < |kids| :: Rep(hash, kept, StripMem(fm), Strip(kids[i]), ts[i])
    ensures Clean(hash, kept, FCollapse(fm, kids))
  {
    hide Rep, Clean, StripMem, FTrans, Scan;
    NilClean(hash, kept);
    DirtyFull(hash, kept, kids);
    var pos := Scan(StripAll(kids), 0, -1);
    if 0 <= pos < |kids| {
      assert Clean(hash, kept, kids[pos]);
      DirtyShort(hash, kept, [16], kids[pos]);
      if pos < 256 {
        DirtyShort(hash, kept, [pos as Byte], kids[pos]);
        if kids[pos].FShort? {
          LoadedChild(hash, kept, fm, kids[pos], ts[pos]);
          DirtyShort(hash, kept, [pos as Byte] + kids[pos].key, FTrans(fm, kids[pos].child));
        }
      }
    }
  }

  lemma {:induction false} DeleteClean(hash: HashFn, kept: set<seq<Byte>>, fm: FMemory, f: FNode, t: Node, key: Key)
    requires !f.FHash? && Rep(hash, kept, StripMem(fm), Strip(f), t) && Clean(hash, kept, f)
    ensures var r := FDelete(fm, f, key); r.Some? ==> Clean(hash, kept, r.value)
    decreases |key|
  {
    hide Rep, Clean, AllClean, StripMem, FTrans, FMerge, FCollapse, FTransAll;
    NilClean(hash, kept);
    RepShape(hash, kept, StripMem(fm), Strip(f), t);
    SameKind(hash, kept, StripMem(fm), Strip(f), t);
    match f
    case FShort(k, c, _) =>
      if key != k && |key| >= |k| && k != [] && k <= key {
        KidClean(hash, kept, f, 0);
        TransClean(hash, kept, fm, c, t.child);
        DeleteClean(hash, kept, fm, FTrans(fm, c), t.child, key[|k|..]);
        var child := FDelete(fm, FTrans(fm, c), key[|k|..]);
        if child.Some? {
          var u := DeletedRep(hash, kept, fm, FTrans(fm, c), t.child, key[|k|..]);
          MergeClean(hash, kept, fm, k, child.value, u);
        }
      }
    case FFull(kids, _) =>
      if key != [] && key[0] as nat < |kids| {
        var i := key[0] as nat;
        KidClean(hash, kept, f, i);
        TransClean(hash, kept, fm, kids[i], t.kids[i]);
        DeleteClean(hash, kept, fm, FTrans(fm, kids[i]), t.kids[i], key[1..]);
        var r := FDelete(fm, FTrans(fm, kids[i]), key[1..]);
        if r.Some? {
          var u := DeletedRep(hash, kept, fm, FTrans(fm, kids[i]), t.kids[i], key[1..]);
          OneKid(hash, kept, kids, i, r.value);
          KidsLoaded(hash, kept, fm, kids[i := r.value], t.kids[i := u]);
          CollapseClean(hash, kept, fm, FTransAll(fm, kids[i := r.value]), t.kids[i := u]);
        }
      }
    case _ =>
  }

  lemma KidsLoaded(hash: HashFn, kept: set<seq<Byte>>, fm: FMemory, kids: seq<FNode>, ts: seq<Node>)
    requires |kids| == |ts| && AllClean(hash, kept, kids)
    requires forall i | 0 <= i < |kids| :: Rep(hash, kept, StripMem(fm), Strip(kids[i]), ts[i])
    ensures var ks := FTransAll(fm, kids);
            AllClean(hash, kept, ks) && forall i | 0 <= i < |ks| :: Rep(hash, kept, StripMem(fm), Strip(ks[i]), ts[i])
  {
    hide Rep, Clean, StripMem, FTrans, Strip;
    var ks := FTransAll(fm, kids);
    forall i | 0 <= i < |ks| ensures Clean(hash, kept, ks[i]) && Rep(hash, kept, StripMem(fm), Strip(ks[i]), ts[i]) {
      TransClean(hash, kept, fm, kids[i], ts[i]);
    }
  }

  /** Every operation keeps clean nodes stored. */
  lemma ApplyClean(hash: HashFn, kept: set<seq<Byte>>, fm: FMemory, f: FNode, t: Node, op: Op)
    requires !f.FHash? && Rep(hash, kept, StripMem(fm), Strip(f), t) && Clean(hash, kept, f)
    ensures var r := FApply(fm, f, op); r.Some? ==> Clean(hash, kept, r.value)
  {
    hide Rep, Clean, StripMem, FInsert, FDelete, ToKey;
    if op.Update? && op.value != [] {
      InsertClean(hash, kept, fm, f, t, ToKey(op.key), FValue(op.value));
    } else {
      DeleteClean(hash, kept, fm, f, t, ToKey(op.key));
    }
  }

  // ---------- what store writes ----------

  ghost function OwnDirty(hash: HashFn, f: FNode): (s: set<seq<Byte>>)
  {
    if (f.FShort? || f.FFull?) && f.dirty && Big(hash, Strip(f)) then {Enc(hash, Strip(f))} else {}
  }

  /** The encodings of the dirty nodes that are stored on their own. */
  ghost function Dirty(hash: HashFn, f: FNode): (s: set<seq<Byte>>)
  {
    match f
    case FShort(_, c, _) => OwnDirty(hash, f) + Dirty(hash, c)
    case FFull(kids, _) => OwnDirty(hash, f) + DirtyOf(hash, kids)
    case _ => {}
  }

  ghost function DirtyOf(hash: HashFn, kids: seq<FNode>): (s: set<seq<Byte>>)
  {
    if kids == [] then {} else DirtyOf(hash, kids[..|kids| - 1]) + Dirty(hash, kids[|kids| - 1])
  }

  /** Nothing is lost: what is not written for being clean is stored already. */
  lemma {:induction false} CleanLosesNothing(hash: HashFn, kept: set<seq<Byte>>, f: FNode)
    requires Clean(hash, kept, f)
    ensures Dirty(hash, f) <= Encs(hash, Strip(f)) <= Dirty(hash, f) + kept
    decreases f, 1
  {
    hide Enc, Big;
    match f
    case FShort(_, c, _) => CleanLosesNothing(hash, kept, c);
    case FFull(kids, _) =>
      EncsFullIs(hash, StripAll(kids));
      KidsLoseNothing(hash, kept, kids);
    case _ =>
  }

  lemma {:induction false} KidsLoseNothing(hash: HashFn, kept: set<seq<Byte>>, kids: seq<FNode>)
    requires AllClean(hash, kept, kids)
    ensures DirtyOf(hash, kids) <= EncsOf(hash, StripAll(kids)) <= DirtyOf(hash, kids) + kept
    decreases kids, 0
  {
    hide Dirty, Encs, Clean;
    if kids != [] {
      var front, last := kids[..|kids| - 1], kids[|kids| - 1];
      assert AllClean(hash, kept, front);
      KidsLoseNothing(hash, kept, front);
      CleanLosesNothing(hash, kept, last);
      assert StripAll(kids)[..|kids| - 1] == StripAll(front);
    }
  }

  lemma NoDirtyKids(hash: HashFn)
    ensures forall kids: seq<FNode> :: DirtyOf(hash, kids[..0]) == {}
  {}

  lemma NextDirtyKid(hash: HashFn, kids: seq<FNode>, i: nat)
    requires i < |kids|
    ensures DirtyOf(hash, kids[..i + 1]) == DirtyOf(hash, kids[..i]) + Dirty(hash, kids[i])
  {
    hide Dirty;
    assert kids[..i + 1][..i] == kids[..i];
  }
}
