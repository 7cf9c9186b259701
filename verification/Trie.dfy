/**
 The Merkle Patricia trie: a compressed radix tree over nibble keys. Every key ends in the
 terminator 16, which no other position holds. A node may be only a hash, loaded on access.
 */
module Trie {
  import opened Bytes

  type Key = seq<Byte>

  const TERM: Byte := 16

  datatype Node =
    | Nil
    | Value(data: seq<Byte>)
    | Short(key: Key, child: Node)
    | Full(kids: seq<Node>)
    | Hash(h: seq<Byte>)

  /** What loading a hash gives: the decoded node behind it. */
  type Memory = map<seq<Byte>, Node>

  /** trans: a hash is replaced by the node it names, nil if nothing is stored under it. */
  function Trans(mem: Memory, n: Node): (r: Node)
  {
    if n.Hash? then (if n.h in mem then mem[n.h] else Nil) else n
  }

  function TransAll(mem: Memory, kids: seq<Node>): (r: seq<Node>)
    ensures |r| == |kids|
    ensures forall i | 0 <= i < |kids| :: r[i] == Trans(mem, kids[i])
  {
    seq(|kids|, i requires 0 <= i < |kids| => Trans(mem, kids[i]))
  }

  // ---------- keys ----------

  predicate Terminated(k: Key)
  {
    && k != [] && k[|k| - 1] == TERM
    && forall i | 0 <= i < |k| - 1 :: k[i] < TERM
  }

  predicate Plain(k: Key)
  {
    forall i | 0 <= i < |k| :: k[i] < TERM
  }

  /** The number of leading nibbles two keys share. */
  function MatchLen(a: Key, b: Key): (m: nat)
    ensures m <= |a| && m <= |b| && a[..m] == b[..m]
    ensures m < |a| && m < |b| ==> a[m] != b[m]
  {
    if a == [] || b == [] || a[0] != b[0] then 0
    else
      var m := MatchLen(a[1..], b[1..]);
      assert a[..m + 1] == [a[0]] + a[1..][..m];
      assert b[..m + 1] == [b[0]] + b[1..][..m];
      m + 1
  }

  /** MatchingNibbleLength as the counting loop it is. */
  method MatchingNibbleLength(a: Key, b: Key) returns (i: nat)
    ensures i == MatchLen(a, b)
  {
    i := 0;
    var length := if |a| < |b| then |a| else |b|;
    while i < length
      invariant i <= length
      invariant MatchLen(a, b) == i + MatchLen(a[i..], b[i..])
    {
      if a[i] != b[i] {
        break;
      }
      assert a[i..][1..] == a[i + 1..] && b[i..][1..] == b[i + 1..];
      i := i + 1;
    }
  }

  // ---------- get, insert, delete ----------

  const NO_KIDS: seq<Node> :=
    [Nil, Nil, Nil, Nil, Nil, Nil, Nil, Nil, Nil, Nil, Nil, Nil, Nil, Nil, Nil, Nil, Nil]

  /** A new full node with two children set, the second overwriting the first. */
  function Fork(i: Byte, a: Node, j: Byte, b: Node): (r: Node)
    requires i <= TERM && j <= TERM
  {
    Full(NO_KIDS[i as int := a][j as int := b])
  }

  /** insert into nil: an empty key leaves the node itself. */
  function Attach(key: Key, n: Node): (r: Node)
  {
    if key == [] then n else Short(key, n)
  }

  /** get; None is the panic on an invalid node. */
  function Get(mem: Memory, n: Node, key: Key): (r: Option<Node>)
    decreases |key|
  {
    if key == [] then Some(n)
    else match n
      case Nil => Some(Nil)
      case Short(k, c) =>
        if k <= key then
          if k == [] then None else Get(mem, Trans(mem, c), key[|k|..])
        else Some(Nil)
      case Full(kids) =>
        if key[0] as nat < |kids| then Get(mem, Trans(mem, kids[key[0]]), key[1..]) else None
      case _ => None
  }

  /** insert; None is the panic on an invalid node or an index out of range. */
  function Insert(mem: Memory, n: Node, key: Key, v: Node): (r: Option<Node>)
    decreases |key|
  {
    if key == [] then Some(v)
    else match n
      case Nil => Some(Short(key, v))
      case Short(k, c) =>
        var child := Trans(mem, c);
        if k == key then Some(Short(key, v))
        else
          var m := MatchLen(key, k);
          if m == |k| then
            if m == 0 then None
            else
              var r := Insert(mem, child, key[m..], v);
              if r.None? then None else Some(Short(key[..m], r.value))
          else if m == |key| || k[m] > TERM || key[m] > TERM then None
          else
            Some(Attach(key[..m], Fork(k[m], Attach(k[m + 1..], child), key[m], Attach(key[m + 1..], v))))
      case Full(kids) =>
        if key[0] as nat >= |kids| then None
        else
          var r := Insert(mem, Trans(mem, kids[key[0]]), key[1..], v);
          if r.None? then None else Some(Full(kids[key[0] := r.value]))
      case _ => None
  }

  /** The counting loop of delete: -1 for no child, -2 for several, else the index of the only one. */
  function Scan(kids: seq<Node>, i: nat, pos: int): (r: int)
    requires i <= |kids|
    decreases |kids| - i
  {
    if i == |kids| then pos
    else if kids[i].Nil? then Scan(kids, i + 1, pos)
    else Scan(kids, i + 1, if pos == -1 then i else -2)
  }

  /** Among the first i kids: pos is -1 for none, the only one, or -2 for several. */
  ghost predicate Counted(kids: seq<Node>, i: nat, pos: int)
    requires i <= |kids|
  {
    && -2 <= pos < i
    && (pos >= -1 ==> forall x | 0 <= x < i && x != pos :: kids[x].Nil?)
    && (pos >= 0 ==> !kids[pos].Nil?)
    && (pos == -2 ==> exists x, y :: 0 <= x < y < i && !kids[x].Nil? && !kids[y].Nil?)
  }

  /** The loop that looks for an only child. */
  method FindOnlyKid(kids: seq<Node>) returns (pos: int)
    ensures Counted(kids, |kids|, pos) && pos == Scan(kids, 0, -1)
  {
    pos := -1;
    for i := 0 to |kids|
      invariant Counted(kids, i, pos) && Scan(kids, 0, -1) == Scan(kids, i, pos)
    {
      if !kids[i].Nil? {
        if pos == -1 {
          pos := i;
        } else {
          pos := -2;
        }
      }
    }
  }

  /** A full node left with one child gives way to a short node; a short child is stitched to its key. */
  function Collapse(mem: Memory, kids: seq<Node>): (r: Node)
  {
    var pos := Scan(kids, 0, -1);
    if pos == 16 && |kids| == 17 then Short([16], kids[16])
    else if 0 <= pos < |kids| && pos < 256 then
      match kids[pos]
      case Short(k, c) => Short([pos as Byte] + k, Trans(mem, c))
      case Full(_) => Short([pos as Byte], kids[pos])
      case _ => Nil
    else Full(kids)
  }

  /** Below a short node: a vanished child takes it along, a short child is merged into it. */
  function Merge(mem: Memory, k: Key, child: Node): (r: Node)
  {
    match child
    case Short(k2, c2) => Short(k + k2, Trans(mem, c2))
    case Full(_) => Short(k, child)
    case _ => Nil
  }

  /** delete; None is the panic on an invalid node or a slice past the end of the key. */
  function Delete(mem: Memory, n: Node, key: Key): (r: Option<Node>)
    decreases |key|
  {
    match n
    case Nil => Some(Nil)
    case Short(k, c) =>
      if key == k then Some(Nil)
      else if |key| < |k| || k == [] then None
      else if k <= key then
        var child := Delete(mem, Trans(mem, c), key[|k|..]);
        if child.None? then None else Some(Merge(mem, k, child.value))
      else Some(n)
    case Full(kids) =>
      if key == [] || key[0] as nat >= |kids| then None
      else
        var r := Delete(mem, Trans(mem, kids[key[0]]), key[1..]);
        if r.None? then None else Some(Collapse(mem, TransAll(mem, kids[key[0] := r.value])))
    case _ => None
  }
}
