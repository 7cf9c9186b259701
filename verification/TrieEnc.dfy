/** How a node is encoded and named. A node whose encoding has 32 bytes or more is referred to by its hash. */
module TrieEnc {
  import opened Bytes
  import opened RlpSpec
  import opened Trie
  import opened HexPrefix

  type HashFn = f: seq<Byte> -> seq<Byte> | forall x :: |f(x)| == 32
    ghost witness x => seq(32, _ => 0 as Byte)

  type Db = map<seq<Byte>, seq<Byte>>

  // ---------- encoding ----------

  /** RlpData of a node. */
  function NodeItem(hash: HashFn, n: Node): (x: Item)
    decreases n, 0
  {
    match n
    case Nil => Str([])
    case Value(data) => Str(data)
    case Short(k, c) => List([Str(if k == [] then [] else Compact(k)), RefItem(hash, c)])
    case Full(kids) => List(seq(|kids|, i requires 0 <= i < |kids| => RefItem(hash, kids[i])))
    case Hash(h) => Str(h)
  }

  /** How a parent refers to a node: by hash from 32 bytes on, else by the node itself. */
  function RefItem(hash: HashFn, n: Node): (x: Item)
    decreases n, 3
  {
    if Big(hash, n) then Str(hash(Enc(hash, n))) else NodeItem(hash, n)
  }

  function Enc(hash: HashFn, n: Node): (e: seq<Byte>)
    decreases n, 1
  {
    Encode(NodeItem(hash, n))
  }

  predicate Big(hash: HashFn, n: Node)
    decreases n, 2
  {
    (n.Short? || n.Full?) && |Enc(hash, n)| >= 32
  }

  function RootHash(hash: HashFn, n: Node): (h: seq<Byte>)
  {
    hash(Enc(hash, n))
  }

  // ---------- the encodings of a trie ----------

  ghost function Own(hash: HashFn, n: Node): (s: set<seq<Byte>>)
  {
    if Big(hash, n) then {Enc(hash, n)} else {}
  }

  /** The encodings of all nodes of n that are stored on their own. */
  ghost function Encs(hash: HashFn, n: Node): (s: set<seq<Byte>>)
  {
    match n
    case Short(_, c) => Own(hash, n) + Encs(hash, c)
    case Full(kids) => Own(hash, n) + set i, e | 0 <= i < |kids| && e in Encs(hash, kids[i]) :: e
    case _ => {}
  }
}
