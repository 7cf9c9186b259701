/**
 The blocks a chain manager has put off: a cache of at most 256 that drops the one put off longest
 ago, and the order of number in which they are tried again.
 */
module ChainQueue {
  import opened Bytes

  type Hash = nat

  datatype Block = Block(hash: Hash, parent: Hash, number: nat, difficulty: nat, td: nat)

  type Blocks = map<Hash, Block>

  /** What the block processor says of a block whose parent is known; far is whether its time is too far ahead. */
  datatype Opinion = Accepted | Future(far: bool) | Rejected

  const MAX_FUTURE_BLOCKS: nat := 256

  ghost predicate Distinct(order: seq<Hash>)
  {
    forall i, j | 0 <= i < j < |order| :: order[i] != order[j]
  }

  /** The waiting blocks and their hashes, the one put off longest ago first. */
  ghost predicate Queue(future: Blocks, order: seq<Hash>, blocks: Blocks, bad: set<Hash>)
  {
    && |order| <= MAX_FUTURE_BLOCKS && Distinct(order) && (forall h :: h in order <==> h in future)
    && (forall h | h in future :: future[h].hash == h && h !in blocks && h !in bad)
  }

  function Without(order: seq<Hash>, h: Hash): (r: seq<Hash>)
    ensures forall x :: x in r <==> x in order && x != h
    ensures if h in order then |r| < |order| else r == order
  {
    if order == [] then [] else (if order[0] == h then [] else [order[0]]) + Without(order[1..], h)
  }

  /** Add: a block put off becomes the newest; when there are too many the oldest goes. */
  function PutOff(order: seq<Hash>, h: Hash): (r: seq<Hash>)
  {
    var all := Without(order, h) + [h];
    if |all| > MAX_FUTURE_BLOCKS then all[1..] else all
  }

  /** What a full cache drops for a block that does not wait yet. */
  function Dropped(order: seq<Hash>, h: Hash): (r: set<Hash>)
    ensures r == {} <==> h in order || |order| < MAX_FUTURE_BLOCKS
  {
    if h !in order && |order| >= MAX_FUTURE_BLOCKS then {order[0]} else {}
  }

  lemma {:induction false} WithoutDistinct(order: seq<Hash>, h: Hash)
    requires Distinct(order)
    ensures Distinct(Without(order, h))
  {
    if order != [] {
      WithoutDistinct(order[1..], h);
      var rest := Without(order[1..], h);
      assert order[0] !in order[1..];
      assert order[0] !in rest;
    }
  }

  lemma QueueRemove(future: Blocks, order: seq<Hash>, blocks: Blocks, bad: set<Hash>, b: Block)
    requires Queue(future, order, blocks, bad)
    ensures Queue(future - {b.hash}, Without(order, b.hash), blocks[b.hash := b], bad)
  {
    WithoutDistinct(order, b.hash);
  }

  /** The cache holds what it held and the block put off, less what it drops. */
  lemma QueueAdd(future: Blocks, order: seq<Hash>, blocks: Blocks, bad: set<Hash>, b: Block)
    requires Queue(future, order, blocks, bad) && b.hash !in blocks && b.hash !in bad
    ensures Queue((future - Dropped(order, b.hash))[b.hash := b], PutOff(order, b.hash), blocks, bad)
    ensures |PutOff(order, b.hash)| <= |order| + 1
  {
    hide Queue;
    QueueIs(future, order, blocks, bad);
    var h := b.hash;
    var all := Without(order, h) + [h];
    WithoutDistinct(order, h);
    if |all| > MAX_FUTURE_BLOCKS {
      assert all[0] == order[0] && all[0] !in all[1..];
      assert forall x :: x in all[1..] <==> x in all && x != all[0];
    }
    QueueFrom((future - Dropped(order, h))[h := b], PutOff(order, h), blocks, bad);
  }

  /**
   A block is put off: it is the newest that waits. All others go on waiting in the same order, but for the one
   put off longest ago, which goes when 256 others wait already.
   */
  ghost predicate PutLast(future: Blocks, order: seq<Hash>, newFuture: Blocks, newOrder: seq<Hash>, b: Block)
  {
    var full := b.hash !in future && |order| == 256;
    && newOrder != [] && newOrder[|newOrder| - 1] == b.hash && b.hash in newFuture && newFuture[b.hash] == b
    && (b.hash !in future ==> newOrder[..|newOrder| - 1] == if full then order[1..] else order)
    && (forall h | h in newFuture && h != b.hash :: h in future && newFuture[h] == future[h])
    && (forall h | h in future && h != b.hash :: h in newFuture || (full && h == order[0]))
  }

  lemma PutOffIsLast(future: Blocks, order: seq<Hash>, blocks: Blocks, bad: set<Hash>, b: Block)
    requires Queue(future, order, blocks, bad)
    ensures PutLast(future, order, (future - Dropped(order, b.hash))[b.hash := b], PutOff(order, b.hash), b)
  {
    hide Queue;
    QueueIs(future, order, blocks, bad);
    hide Without, Distinct;
  }

  lemma QueueIs(future: Blocks, order: seq<Hash>, blocks: Blocks, bad: set<Hash>)
    requires Queue(future, order, blocks, bad)
    ensures |order| <= MAX_FUTURE_BLOCKS && Distinct(order) && (forall h :: h in order <==> h in future)
    ensures forall h | h in future :: future[h].hash == h && h !in blocks && h !in bad
  {}

  lemma QueueFrom(future: Blocks, order: seq<Hash>, blocks: Blocks, bad: set<Hash>)
    requires |order| <= MAX_FUTURE_BLOCKS && Distinct(order) && (forall h :: h in order <==> h in future)
    requires forall h | h in future :: future[h].hash == h && h !in blocks && h !in bad
    ensures Queue(future, order, blocks, bad)
  {}

  /** As many hashes as blocks. */
  lemma {:induction false} CountQueued(future: Blocks, order: seq<Hash>)
    requires Distinct(order) && forall h :: h in order <==> h in future
    ensures |future| == |order|
  {
    if order == [] {
      assert future == map[];
    } else {
      var h, rest := order[0], order[1..];
      assert forall x :: x in rest <==> x in order && x != h;
      CountQueued(future - {h}, rest);
      assert future.Keys == (future - {h}).Keys + {h};
    }
  }

  // ---------- in order of number ----------

  ghost predicate ByNumber(s: seq<Block>)
  {
    forall i, j | 0 <= i < j < |s| :: s[i].number <= s[j].number
  }

  /** Sort: the same blocks in order of number. */
  method SortByNumber(s: seq<Block>) returns (r: seq<Block>)
    ensures ByNumber(r) && multiset(r) == multiset(s)
  {
    r := [];
    assert ByNumber(r);
    hide ByNumber;
    for i := 0 to |s|
      invariant ByNumber(r) && multiset(r) == multiset(s[..i])
    {
      var k := Place(r, s[i].number);
      Placed(r, k, s[i]);
      assert s[..i + 1] == s[..i] + [s[i]];
      r := r[..k] + [s[i]] + r[k..];
    }
    assert s[..|s|] == s;
  }

  lemma Placed(s: seq<Block>, k: nat, b: Block)
    requires ByNumber(s) && k <= |s|
    requires (forall i | 0 <= i < k :: s[i].number <= b.number) && forall i | k <= i < |s| :: b.number <= s[i].number
    ensures ByNumber(s[..k] + [b] + s[k..]) && multiset(s[..k] + [b] + s[k..]) == multiset(s) + multiset{b}
  {
    assert s == s[..k] + s[k..];
  }

  method Place(s: seq<Block>, n: nat) returns (k: nat)
    requires ByNumber(s)
    ensures k <= |s| && (forall i | 0 <= i < k :: s[i].number <= n) && forall i | k <= i < |s| :: n <= s[i].number
  {
    k := 0;
    while k < |s| && s[k].number <= n
      invariant k <= |s| && forall i | 0 <= i < k :: s[i].number <= n
    {
      k := k + 1;
    }
  }

  // ---------- what a batch of blocks does ----------

  /** What is stored and what waits. */
  datatype Held = Held(blocks: Blocks, future: Blocks, order: seq<Hash>)

  ghost predicate Sound(s: Held, bad: set<Hash>)
  {
    Queue(s.future, s.order, s.blocks, bad)
  }

  function CalcTD(difficulty: nat, parent: Option<Block>): (td: nat)
  {
    if parent.None? then difficulty else difficulty + parent.value.td
  }

  function WithTD(blocks: Blocks, b: Block): (r: Block)
  {
    b.(td := CalcTD(b.difficulty, if b.parent in blocks then Some(blocks[b.parent]) else None))
  }

  /** One number above its stored parent. */
  predicate Fits(blocks: Blocks, b: Block)
  {
    b.parent in blocks && b.number == blocks[b.parent].number + 1
  }

  /** A new block that is put off: it comes too early, or its parent waits. */
  predicate Defers(s: Held, bad: set<Hash>, b: Block, opinion: Opinion)
  {
    && b.hash !in bad && b.hash !in s.blocks
    && if b.parent in s.blocks then Fits(s.blocks, b) && opinion == Future(false) else b.parent in s.future
  }

  /** A new block that is stored. */
  predicate Accepts(s: Held, bad: set<Hash>, b: Block, opinion: Opinion)
  {
    b.hash !in bad && b.hash !in s.blocks && Fits(s.blocks, b) && opinion == Accepted
  }

  predicate Refuses(s: Held, bad: set<Hash>, b: Block, opinion: Opinion)
  {
    b.hash in bad || (b.hash !in s.blocks && !Defers(s, bad, b, opinion) && !Accepts(s, bad, b, opinion))
  }

  function Next(s: Held, bad: set<Hash>, b: Block, opinion: Opinion): (r: Held)
  {
    var t := WithTD(s.blocks, b);
    if Accepts(s, bad, b, opinion) then Held(s.blocks[b.hash := t], s.future - {b.hash}, Without(s.order, b.hash))
    else if Defers(s, bad, b, opinion) then
      Held(s.blocks, (s.future - Dropped(s.order, b.hash))[b.hash := t], PutOff(s.order, b.hash))
    else s
  }

  /** The hash that a block pushes out of the cache. */
  function Lost(s: Held, bad: set<Hash>, b: Block, opinion: Opinion): (r: set<Hash>)
  {
    if Defers(s, bad, b, opinion) then Dropped(s.order, b.hash) else {}
  }

  /** After the first n blocks of a batch. */
  ghost function Run(s: Held, bad: set<Hash>, chain: seq<Block>, opinions: seq<Opinion>, n: nat): (r: Held)
    requires n <= |chain| == |opinions|
  {
    if n == 0 then s else Next(Run(s, bad, chain, opinions, n - 1), bad, chain[n - 1], opinions[n - 1])
  }

  ghost function LostBy(s: Held, bad: set<Hash>, chain: seq<Block>, opinions: seq<Opinion>, n: nat): (r: set<Hash>)
    requires n <= |chain| == |opinions|
  {
    if n == 0 then {} else
      LostBy(s, bad, chain, opinions, n - 1) + Lost(Run(s, bad, chain, opinions, n - 1), bad, chain[n - 1], opinions[n - 1])
  }

  /** The first n blocks are stored or wait, or waited and were pushed out. */
  ghost predicate Handled(s: Held, bad: set<Hash>, chain: seq<Block>, opinions: seq<Opinion>, n: nat)
    requires n <= |chain| == |opinions|
  {
    forall j | 0 <= j < n :: !Refuses(Run(s, bad, chain, opinions, j), bad, chain[j], opinions[j])
  }

  /**
   All that was stored stays; what waited is stored, waits, or was pushed out; what is new comes from the
   chain given and is not a bad block.
   */
  ghost predicate Grown(s: Held, r: Held, lost: set<Hash>, chain: seq<Block>, bad: set<Hash>)
  {
    && (forall h | h in s.blocks :: h in r.blocks && r.blocks[h] == s.blocks[h])
    && (forall h | h in r.blocks && h !in s.blocks :: h !in bad && Given(r.blocks[h], chain))
    && (forall h | h in s.future :: h in r.future || h in r.blocks || h in lost)
    && (forall h | h in r.future && (h !in s.future || r.future[h] != s.future[h]) :: h !in bad && Given(r.future[h], chain))
  }

  /** A block of the chain but for its total difficulty. */
  ghost predicate Given(b: Block, chain: seq<Block>)
  {
    exists i | 0 <= i < |chain| :: b == chain[i].(td := b.td)
  }

  lemma NextSound(s: Held, bad: set<Hash>, b: Block, opinion: Opinion)
    requires Sound(s, bad)
    ensures Sound(Next(s, bad, b, opinion), bad)
    ensures |Next(s, bad, b, opinion).order| <= |s.order| + 1
  {
    hide Queue, PutOff, Dropped;
    var t := WithTD(s.blocks, b);
    if Accepts(s, bad, b, opinion) {
      QueueRemove(s.future, s.order, s.blocks, bad, t);
    } else if Defers(s, bad, b, opinion) {
      QueueAdd(s.future, s.order, s.blocks, bad, t);
    }
  }

  /** Exactly one block is lost when a new one is put off and the cache is full, and none otherwise. */
  lemma LosesIff(s: Held, bad: set<Hash>, b: Block, opinion: Opinion)
    requires Sound(s, bad)
    ensures var r, lost := Next(s, bad, b, opinion), Lost(s, bad, b, opinion);
            && lost == (set h | h in s.future && h !in r.future && h !in r.blocks)
            && (lost != {} <==> Defers(s, bad, b, opinion) && b.hash !in s.future && |s.future| == MAX_FUTURE_BLOCKS)
            && |lost| <= 1
  {
    hide PutOff, Without;
    CountQueued(s.future, s.order);
  }

  lemma NextGrown(s: Held, bad: set<Hash>, chain: seq<Block>, i: nat, opinion: Opinion)
    requires Sound(s, bad) && i < |chain|
    ensures Grown(s, Next(s, bad, chain[i], opinion), Lost(s, bad, chain[i], opinion), chain, bad)
  {
    hide PutOff, Without, Dropped;
    var t := WithTD(s.blocks, chain[i]);
    assert Given(t, chain);
  }

  lemma GrownThen(s: Held, r: Held, q: Held, lost: set<Hash>, more: set<Hash>, chain: seq<Block>, bad: set<Hash>)
    requires Grown(s, r, lost, chain, bad) && Grown(r, q, more, chain, bad)
    ensures Grown(s, q, lost + more, chain, bad)
  {}

  lemma {:induction false} RunGrown(s: Held, bad: set<Hash>, chain: seq<Block>, opinions: seq<Opinion>, n: nat)
    requires Sound(s, bad) && n <= |chain| == |opinions|
    ensures Sound(Run(s, bad, chain, opinions, n), bad) && |Run(s, bad, chain, opinions, n).order| <= |s.order| + n
    ensures Grown(s, Run(s, bad, chain, opinions, n), LostBy(s, bad, chain, opinions, n), chain, bad)
  {
    hide Sound, Grown, Next, Lost;
    if n == 0 {
      NotGrown(s, chain, bad);
    } else {
      RunGrown(s, bad, chain, opinions, n - 1);
      var r := Run(s, bad, chain, opinions, n - 1);
      NextSound(r, bad, chain[n - 1], opinions[n - 1]);
      NextGrown(r, bad, chain, n - 1, opinions[n - 1]);
      GrownThen(s, r, Run(s, bad, chain, opinions, n), LostBy(s, bad, chain, opinions, n - 1),
                Lost(r, bad, chain[n - 1], opinions[n - 1]), chain, bad);
    }
  }

  lemma NotGrown(s: Held, chain: seq<Block>, bad: set<Hash>)
    ensures Grown(s, s, {}, chain, bad)
  {}

  /** What one step leaves held: everything held before, and the block itself, less what it pushes out. */
  lemma NextHolds(s: Held, bad: set<Hash>, b: Block, opinion: Opinion, h: Hash)
    requires Sound(s, bad)
    requires h in s.blocks || h in s.future || (h == b.hash && !Refuses(s, bad, b, opinion))
    ensures var r := Next(s, bad, b, opinion); h in r.blocks || h in r.future || h in Lost(s, bad, b, opinion)
  {
    hide PutOff, Without, Dropped;
  }

  /** No block that was not refused disappears without being pushed out. */
  lemma {:induction false} RunHolds(s: Held, bad: set<Hash>, chain: seq<Block>, opinions: seq<Opinion>, n: nat, j: nat)
    requires Sound(s, bad) && j < n <= |chain| == |opinions| && Handled(s, bad, chain, opinions, n)
    ensures var r, h := Run(s, bad, chain, opinions, n), chain[j].hash;
            h in r.blocks || h in r.future || h in LostBy(s, bad, chain, opinions, n)
  {
    hide Sound, Next, Lost, Refuses;
    var r := Run(s, bad, chain, opinions, n - 1);
    RunGrown(s, bad, chain, opinions, n - 1);
    if j < n - 1 {
      RunHolds(s, bad, chain, opinions, n - 1, j);
    }
    if chain[j].hash !in LostBy(s, bad, chain, opinions, n - 1) {
      NextHolds(r, bad, chain[n - 1], opinions[n - 1], chain[j].hash);
    }
  }

  /** A batch that the cache has room for pushes nothing out. */
  lemma {:induction false} RoomForAll(s: Held, bad: set<Hash>, chain: seq<Block>, opinions: seq<Opinion>, n: nat)
    requires Sound(s, bad) && n <= |chain| == |opinions| && |s.future| + n <= MAX_FUTURE_BLOCKS
    ensures LostBy(s, bad, chain, opinions, n) == {}
  {
    hide Next, Sound, Grown, Lost;
    if n > 0 {
      RoomForAll(s, bad, chain, opinions, n - 1);
      RunGrown(s, bad, chain, opinions, n - 1);
      SoundCount(s, bad);
      RoomForOne(Run(s, bad, chain, opinions, n - 1), bad, chain[n - 1], opinions[n - 1]);
    }
  }

  lemma SoundCount(s: Held, bad: set<Hash>)
    requires Sound(s, bad)
    ensures |s.future| == |s.order|
  {
    CountQueued(s.future, s.order);
  }

  lemma RoomForOne(s: Held, bad: set<Hash>, b: Block, opinion: Opinion)
    requires |s.order| < MAX_FUTURE_BLOCKS
    ensures Lost(s, bad, b, opinion) == {}
  {}

  /** A batch of blocks that wait already pushes nothing out. */
  lemma {:induction false} WaitingAlready(s: Held, bad: set<Hash>, chain: seq<Block>, opinions: seq<Opinion>, n: nat)
    requires Sound(s, bad) && n <= |chain| == |opinions| && forall b | b in chain :: b.hash in s.future
    ensures LostBy(s, bad, chain, opinions, n) == {}
    ensures Run(s, bad, chain, opinions, n).future.Keys <= s.future.Keys
  {
    hide Sound, Grown, Next, Without;
    if n > 0 {
      WaitingAlready(s, bad, chain, opinions, n - 1);
      RunGrown(s, bad, chain, opinions, n - 1);
      var r := Run(s, bad, chain, opinions, n - 1);
      assert chain[n - 1] in chain;
      HeldStill(s, r, chain, bad, chain[n - 1].hash);
      NextOfHeld(r, bad, chain[n - 1], opinions[n - 1]);
    }
  }

  lemma HeldStill(s: Held, r: Held, chain: seq<Block>, bad: set<Hash>, h: Hash)
    requires Grown(s, r, {}, chain, bad) && h in s.future
    ensures h in r.future || h in r.blocks
  {}

  lemma NextOfHeld(s: Held, bad: set<Hash>, b: Block, opinion: Opinion)
    requires Sound(s, bad) && (b.hash in s.future || b.hash in s.blocks)
    ensures Lost(s, bad, b, opinion) == {} && Next(s, bad, b, opinion).future.Keys <= s.future.Keys
  {
    hide PutOff, Without;
  }

  lemma RefusedStays(s: Held, bad: set<Hash>, b: Block, opinion: Opinion)
    requires Refuses(s, bad, b, opinion)
    ensures Next(s, bad, b, opinion) == s
  {}

  /** Every block handled is stored, waits, or was pushed out. */
  ghost predicate Accounted(r: Held, lost: set<Hash>, chain: seq<Block>, n: nat)
    requires n <= |chain|
  {
    forall j | 0 <= j < n :: chain[j].hash in r.blocks || chain[j].hash in r.future || chain[j].hash in lost
  }

  /** What is new has its parent: a stored block directly above it, a waiting one held or pushed out. */
  ghost predicate Parented(s: Held, r: Held, lost: set<Hash>)
  {
    && (forall h | h in r.blocks && h !in s.blocks ::
          var b := r.blocks[h];
          b.parent in r.blocks && b.number == r.blocks[b.parent].number + 1 && b.td == b.difficulty + r.blocks[b.parent].td)
    && (forall h | h in r.future && (h !in s.future || r.future[h] != s.future[h]) ::
          r.future[h].parent in r.blocks || r.future[h].parent in r.future || r.future[h].parent in lost)
  }

  lemma NextParented(s: Held, bad: set<Hash>, b: Block, opinion: Opinion)
    requires Sound(s, bad)
    ensures Parented(s, Next(s, bad, b, opinion), Lost(s, bad, b, opinion))
  {
    if b.parent in s.blocks || b.parent in s.future {
      NextHolds(s, bad, b, opinion, b.parent);
    }
    hide PutOff, Without, Dropped, Sound;
  }

  lemma ParentedThen(s: Held, r: Held, q: Held, lost: set<Hash>, more: set<Hash>, chain: seq<Block>, bad: set<Hash>)
    requires Parented(s, r, lost) && Parented(r, q, more) && Grown(r, q, more, chain, bad)
    ensures Parented(s, q, lost + more)
  {
    hide Given;
  }

  lemma NotParented(s: Held)
    ensures Parented(s, s, {})
  {}

  /** Whatever the batch, no block is stored without its parent, and none is put off without one that is held. */
  lemma {:induction false} RunParented(s: Held, bad: set<Hash>, chain: seq<Block>, opinions: seq<Opinion>, n: nat)
    requires Sound(s, bad) && n <= |chain| == |opinions|
    ensures Parented(s, Run(s, bad, chain, opinions, n), LostBy(s, bad, chain, opinions, n))
  {
    hide Sound, Grown, Next, Lost, Parented;
    if n == 0 {
      NotParented(s);
    } else {
      RunParented(s, bad, chain, opinions, n - 1);
      RunGrown(s, bad, chain, opinions, n - 1);
      var r := Run(s, bad, chain, opinions, n - 1);
      var more := Lost(r, bad, chain[n - 1], opinions[n - 1]);
      NextParented(r, bad, chain[n - 1], opinions[n - 1]);
      NextGrown(r, bad, chain, n - 1, opinions[n - 1]);
      ParentedThen(s, r, Run(s, bad, chain, opinions, n), LostBy(s, bad, chain, opinions, n - 1), more, chain, bad);
    }
  }

  /** What a batch keeps, and when it pushes nothing out. */
  lemma RunAccounted(s: Held, bad: set<Hash>, chain: seq<Block>, opinions: seq<Opinion>, n: nat)
    requires Sound(s, bad) && n <= |chain| == |opinions| && Handled(s, bad, chain, opinions, n)
    ensures var r, lost := Run(s, bad, chain, opinions, n), LostBy(s, bad, chain, opinions, n);
            Grown(s, r, lost, chain, bad) && Accounted(r, lost, chain, n)
              && (|s.future| + n <= MAX_FUTURE_BLOCKS ==> lost == {})
  {
    hide Run, LostBy, Grown, Sound, Handled;
    RunGrown(s, bad, chain, opinions, n);
    forall j | 0 <= j < n
      ensures var r, lost := Run(s, bad, chain, opinions, n), LostBy(s, bad, chain, opinions, n);
              chain[j].hash in r.blocks || chain[j].hash in r.future || chain[j].hash in lost
    {
      RunHolds(s, bad, chain, opinions, n, j);
    }
    if |s.future| + n <= MAX_FUTURE_BLOCKS {
      RoomForAll(s, bad, chain, opinions, n);
    }
  }

  // ---------- blocks that can be stored one after the other ----------

  /** Every block is new, and follows a stored block or an earlier one of the chain. */
  ghost predicate Ripe(blocks: Blocks, bad: set<Hash>, chain: seq<Block>)
  {
    && (forall i | 0 <= i < |chain| :: chain[i].hash !in blocks && chain[i].hash !in bad)
    && (forall i, j | 0 <= i < j < |chain| :: chain[i].hash != chain[j].hash)
    && (forall i | 0 <= i < |chain| :: Fits(blocks, chain[i]) || After(chain, i))
  }

  ghost predicate After(chain: seq<Block>, i: nat)
    requires i < |chain|
  {
    exists j | 0 <= j < i :: chain[i].parent == chain[j].hash && chain[i].number == chain[j].number + 1
  }

  /** Every waiting block follows a stored one or another that waits. */
  ghost predicate Connected(blocks: Blocks, future: Blocks)
  {
    forall h | h in future ::
      Fits(blocks, future[h])
      || (future[h].parent in future && future[h].number == future[future[h].parent].number + 1)
  }

  /** The chain lists the waiting blocks, each once. */
  ghost predicate Lists(chain: seq<Block>, future: Blocks)
  {
    && (forall b | b in chain :: b.hash in future && future[b.hash] == b)
    && (forall h | h in future :: future[h].hash == h && future[h] in chain)
    && (forall i, j | 0 <= i < j < |chain| :: chain[i].hash != chain[j].hash)
  }

  ghost function Hashes(chain: seq<Block>, n: nat): (r: set<Hash>)
    requires n <= |chain|
  {
    if n == 0 then {} else Hashes(chain, n - 1) + {chain[n - 1].hash}
  }

  lemma {:induction false} HashesIn(chain: seq<Block>, n: nat, h: Hash)
    requires n <= |chain|
    ensures h in Hashes(chain, n) <==> exists j | 0 <= j < n :: chain[j].hash == h
  {
    if n > 0 {
      HashesIn(chain, n - 1, h);
    }
  }

  /** Exactly the first n blocks of the chain have been stored. */
  ghost predicate StoredUpTo(s: Held, r: Held, chain: seq<Block>, n: nat)
    requires n <= |chain|
  {
    && r.blocks.Keys == s.blocks.Keys + Hashes(chain, n) && r.future == s.future - Hashes(chain, n)
    && (forall h | h in s.blocks :: r.blocks[h] == s.blocks[h])
    && (forall j | 0 <= j < n :: chain[j].hash in r.blocks && r.blocks[chain[j].hash].number == chain[j].number)
  }

  lemma RipeAccepts(s: Held, r: Held, bad: set<Hash>, chain: seq<Block>, i: nat)
    requires Ripe(s.blocks, bad, chain) && i < |chain| && StoredUpTo(s, r, chain, i)
    ensures Accepts(r, bad, chain[i], Accepted)
  {
    hide Hashes;
    HashesIn(chain, i, chain[i].hash);
    if !Fits(s.blocks, chain[i]) {
      var j :| 0 <= j < i && chain[i].parent == chain[j].hash && chain[i].number == chain[j].number + 1;
    }
  }

  lemma StoredMore(s: Held, r: Held, bad: set<Hash>, chain: seq<Block>, i: nat)
    requires i < |chain| && StoredUpTo(s, r, chain, i) && Accepts(r, bad, chain[i], Accepted)
    ensures StoredUpTo(s, Next(r, bad, chain[i], Accepted), chain, i + 1)
  {
    hide Without, CalcTD;
    var q, h := Next(r, bad, chain[i], Accepted), chain[i].hash;
    assert Hashes(chain, i + 1) == Hashes(chain, i) + {h};
    hide Hashes, Accepts, Fits;
    assert q.blocks == r.blocks[h := WithTD(r.blocks, chain[i])] && q.future == r.future - {h};
    assert q.future == s.future - (Hashes(chain, i) + {h});
  }

  lemma AcceptsIsFine(s: Held, bad: set<Hash>, b: Block, opinion: Opinion)
    requires Accepts(s, bad, b, opinion)
    ensures !Refuses(s, bad, b, opinion)
  {}

  /** A ripe batch that the processor accepts is stored to its last block, and none of it waits any more. */
  lemma {:induction false} RipeIsStored(s: Held, bad: set<Hash>, chain: seq<Block>, opinions: seq<Opinion>, n: nat)
    requires Ripe(s.blocks, bad, chain) && n <= |chain| == |opinions| && forall o | o in opinions :: o == Accepted
    ensures Handled(s, bad, chain, opinions, n) && StoredUpTo(s, Run(s, bad, chain, opinions, n), chain, n)
  {
    hide Next, Ripe, StoredUpTo, Accepts, Refuses;
    if n == 0 {
      NoneStored(s, chain);
    } else {
      RipeIsStored(s, bad, chain, opinions, n - 1);
      assert opinions[n - 1] in opinions;
      var r := Run(s, bad, chain, opinions, n - 1);
      RipeAccepts(s, r, bad, chain, n - 1);
      AcceptsIsFine(r, bad, chain[n - 1], Accepted);
      StoredMore(s, r, bad, chain, n - 1);
    }
  }

  lemma NoneStored(s: Held, chain: seq<Block>)
    ensures StoredUpTo(s, s, chain, 0)
  {}

  lemma {:induction false} Once(s: seq<Block>, b: Block)
    requires forall i, j | 0 <= i < j < |s| :: s[i].hash != s[j].hash
    ensures multiset(s)[b] <= 1
  {
    if s != [] {
      assert s == [s[0]] + s[1..];
      Once(s[1..], b);
      if s[0] == b {
        assert b !in s[1..];
      }
    }
  }

  lemma Twice(s: seq<Block>, i: nat, j: nat)
    requires i < j < |s| && s[i] == s[j]
    ensures multiset(s)[s[i]] >= 2
  {
    var b := s[i];
    assert s == s[..j] + s[j..] && s[..j][i] == b && s[j..][0] == b;
    assert b in multiset(s[..j]) && b in multiset(s[j..]);
  }

  /** Another order lists the same blocks. */
  lemma ListsSorted(s: seq<Block>, r: seq<Block>, future: Blocks)
    requires Lists(s, future) && multiset(s) == multiset(r)
    ensures Lists(r, future)
  {
    forall b ensures b in r <==> b in s {
      assert b in multiset(r) <==> b in multiset(s);
    }
    forall i, j | 0 <= i < j < |r| ensures r[i].hash != r[j].hash {
      if r[i].hash == r[j].hash {
        assert r[i] in s && r[j] in s;
        Twice(r, i, j);
        Once(s, r[i]);
      }
    }
  }

  lemma ListsAll(future: Blocks, order: seq<Hash>, s: seq<Block>)
    requires Distinct(order) && (forall h :: h in order <==> h in future) && forall h | h in future :: future[h].hash == h
    requires |s| == |order| && forall j | 0 <= j < |s| :: order[j] in future && s[j] == future[order[j]]
    ensures Lists(s, future)
  {
    forall h | h in future ensures future[h] in s {
      var j :| 0 <= j < |order| && order[j] == h;
      assert s[j] == future[h];
    }
  }

  /** The waiting blocks tried again: none is lost. */
  lemma Retried(s: Held, bad: set<Hash>, chain: seq<Block>, opinions: seq<Opinion>, n: nat)
    requires Sound(s, bad) && n <= |chain| == |opinions| && Lists(chain, s.future)
    ensures var r := Run(s, bad, chain, opinions, n);
            && r.future.Keys <= s.future.Keys && (forall h | h in s.future :: h in r.future || h in r.blocks)
            && (forall h | h in s.blocks :: h in r.blocks && r.blocks[h] == s.blocks[h])
  {
    hide Sound, Run, LostBy;
    WaitingAlready(s, bad, chain, opinions, n);
    RunGrown(s, bad, chain, opinions, n);
  }

  /** The waiting blocks tried again in order of number, when all are connected and accepted: all are stored. */
  lemma RetriedAll(s: Held, bad: set<Hash>, chain: seq<Block>, opinions: seq<Opinion>, n: nat)
    requires Sound(s, bad) && n <= |chain| == |opinions| && Lists(chain, s.future) && ByNumber(chain)
    requires Connected(s.blocks, s.future) && forall o | o in opinions :: o == Accepted
    ensures Handled(s, bad, chain, opinions, n)
    ensures n < |chain| ==> !Refuses(Run(s, bad, chain, opinions, n), bad, chain[n], opinions[n])
    ensures n == |chain| ==> (var r := Run(s, bad, chain, opinions, n);
              r.future == map[] && forall h | h in s.future :: h in r.blocks && r.blocks[h].number == s.future[h].number)
  {
    hide *;
    SoundIs(s, bad);
    SortedIsRipe(s.blocks, s.future, s.order, bad, chain);
    RipeIsStored(s, bad, chain, opinions, n);
    if n < |chain| {
      assert opinions[n] in opinions;
      RipeAccepts(s, Run(s, bad, chain, opinions, n), bad, chain, n);
      AcceptsIsFine(Run(s, bad, chain, opinions, n), bad, chain[n], Accepted);
    } else {
      AllStored(s, Run(s, bad, chain, opinions, n), chain);
    }
  }

  lemma SoundIs(s: Held, bad: set<Hash>)
    requires Sound(s, bad)
    ensures Queue(s.future, s.order, s.blocks, bad)
  {}

  lemma AllStored(s: Held, r: Held, chain: seq<Block>)
    requires StoredUpTo(s, r, chain, |chain|) && Lists(chain, s.future)
    ensures r.future == map[] && forall h | h in s.future :: h in r.blocks && r.blocks[h].number == s.future[h].number
  {
    hide Hashes;
    forall h | h in s.future
      ensures h in r.blocks && h !in r.future && r.blocks[h].number == s.future[h].number
    {
      var j :| 0 <= j < |chain| && chain[j] == s.future[h];
      HashesIn(chain, |chain|, h);
    }
    assert r.future.Keys == {};
  }

  /** In order of number the waiting blocks of a connected queue can be stored one after the other. */
  lemma SortedIsRipe(blocks: Blocks, future: Blocks, order: seq<Hash>, bad: set<Hash>, chain: seq<Block>)
    requires Queue(future, order, blocks, bad) && Connected(blocks, future) && Lists(chain, future) && ByNumber(chain)
    ensures Ripe(blocks, bad, chain)
  {
    hide Fits, After, ByNumber, Connected;
    forall i | 0 <= i < |chain| ensures Fits(blocks, chain[i]) || After(chain, i) {
      SortedFollows(blocks, future, chain, i);
    }
    forall i | 0 <= i < |chain| ensures chain[i].hash !in blocks && chain[i].hash !in bad {
      assert chain[i] in chain;
    }
  }

  lemma SortedFollows(blocks: Blocks, future: Blocks, chain: seq<Block>, i: nat)
    requires Connected(blocks, future) && Lists(chain, future) && ByNumber(chain) && i < |chain|
    ensures Fits(blocks, chain[i]) || After(chain, i)
  {
    hide ByNumber, After;
    var b := chain[i];
    assert b in chain;
    if !Fits(blocks, b) {
      assert future[b.hash] == b;
      assert future[b.parent] in chain;
      var j :| 0 <= j < |chain| && chain[j] == future[b.parent];
      ParentFirst(chain, i, j);
    }
  }

  lemma ParentFirst(chain: seq<Block>, i: nat, j: nat)
    requires ByNumber(chain) && i < |chain| && j < |chain|
    requires chain[j].hash == chain[i].parent && chain[i].number == chain[j].number + 1
    ensures After(chain, i)
  {
    assert j < i;
  }
}
