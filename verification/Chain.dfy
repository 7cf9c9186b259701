/**
 The chain manager: blocks form a tree, the head is a block of greatest total difficulty, and a
 number index names the head's ancestors. When a heavier block arrives on another branch, the index
 is rewritten from the last common ancestor up.
 */
module Chain {
  import opened Bytes
  import opened ChainQueue

  datatype Status = Canonical | Split | Side

  datatype Verdict = KnownBlock | NoParent | Judged(opinion: Opinion)

  datatype InsertError = BadNonce | BadHash | TooEarly | Invalid

  /** One answer of the parallel nonce check. */
  datatype NonceResult = NonceResult(i: nat, valid: bool)

  /** Every stored block but the genesis has its parent stored, one number and its difficulty below it. */
  ghost predicate Linked(m: Blocks, g: Block)
  {
    && g.hash in m && m[g.hash] == g && g.number == 0
    && forall h | h in m :: m[h].hash == h && (m[h] == g || Follows(m, m[h]))
  }

  ghost predicate Follows(m: Blocks, b: Block)
  {
    b.parent in m && b.number == m[b.parent].number + 1 && b.td == b.difficulty + m[b.parent].td
  }

  ghost predicate Stored(m: Blocks, b: Block)
  {
    b.hash in m && m[b.hash] == b
  }

  /** The ancestor of b with a given number. */
  ghost function Ancestor(m: Blocks, g: Block, b: Block, n: nat): (a: Block)
    requires Linked(m, g) && Stored(m, b) && n <= b.number
    ensures Stored(m, a) && a.number == n
    decreases b.number
  {
    if b.number == n then b else Ancestor(m, g, m[b.parent], n)
  }

  lemma {:induction false} AncestorOfAncestor(m: Blocks, g: Block, b: Block, n: nat, k: nat)
    requires Linked(m, g) && Stored(m, b) && k <= n <= b.number
    ensures Ancestor(m, g, Ancestor(m, g, b, n), k) == Ancestor(m, g, b, k)
    decreases b.number
  {
    if n < b.number {
      AncestorOfAncestor(m, g, m[b.parent], n, k);
    }
  }

  /** One step further up from an ancestor. */
  lemma AncestorParent(m: Blocks, g: Block, b: Block, n: nat)
    requires Linked(m, g) && Stored(m, b) && 0 < n <= b.number
    ensures var a := Ancestor(m, g, b, n); a.parent in m && m[a.parent] == Ancestor(m, g, b, n - 1)
  {
    AncestorOfAncestor(m, g, b, n, n - 1);
  }

  /** Storing more blocks changes no ancestor. */
  lemma {:induction false} AncestorGrows(m: Blocks, m2: Blocks, g: Block, b: Block, n: nat)
    requires Linked(m, g) && Linked(m2, g) && Stored(m, b) && n <= b.number
    requires forall h | h in m :: h in m2 && m2[h] == m[h]
    ensures Stored(m2, b) && Ancestor(m2, g, b, n) == Ancestor(m, g, b, n)
    decreases b.number
  {
    if n < b.number {
      AncestorGrows(m, m2, g, m[b.parent], n);
    }
  }

  lemma AllFromGenesis(m: Blocks, g: Block, b: Block)
    requires Linked(m, g) && Stored(m, b)
    ensures Ancestor(m, g, b, 0) == g
  {}

  lemma LinkedAfter(m: Blocks, g: Block, b: Block)
    requires Linked(m, g) && Follows(m, b) && (b.hash in m ==> m[b.hash] == b)
    ensures Linked(m[b.hash := b], g)
  {}

  /** c is the number of the last common ancestor of a and b. */
  ghost predicate Fork(m: Blocks, g: Block, a: Block, b: Block, c: nat)
    requires Linked(m, g) && Stored(m, a) && Stored(m, b)
  {
    && c <= a.number && c <= b.number
    && Ancestor(m, g, a, c) == Ancestor(m, g, b, c)
    && forall n | c < n <= a.number && n <= b.number :: Ancestor(m, g, a, n) != Ancestor(m, g, b, n)
  }

  /** The branch of b above number c, newest block first. */
  ghost predicate Branch(m: Blocks, g: Block, b: Block, c: nat, chain: seq<Block>)
    requires Linked(m, g) && Stored(m, b)
  {
    c <= b.number && |chain| == b.number - c
    && forall i | 0 <= i < |chain| :: chain[i] == Ancestor(m, g, b, b.number - i)
  }

  class ChainManager {
    const badHashes: set<Hash>
    var blocks: Blocks
    /** Blocks that wait for their time or their parent, and their hashes, longest put off first. */
    var future: Blocks
    var order: seq<Hash>
    var index: map<nat, Hash>
    var lastBlock: Hash
    var checkpoint: nat
    var checkpointHash: Option<Hash>
    var current: Block
    var td: nat
    ghost const genesis: Block

    const CHECKPOINT_LIMIT: nat := 200

    /** Every index entry up to the head's number names the head's ancestor at that height. */
    ghost predicate Indexed(m: Blocks, head: Block)
      reads `index
    {
      && Linked(m, genesis) && Stored(m, head)
      && forall n | 0 <= n <= head.number :: n in index && index[n] == Ancestor(m, genesis, head, n).hash
    }

    ghost predicate Valid()
      reads this
    {
      && Indexed(blocks, current) && lastBlock == current.hash && td == current.td
      && (forall h | h in blocks :: blocks[h].td <= td)
      && Queue(future, order, blocks, badHashes)
    }

    ghost function State(): (s: Held)
      reads this
    {
      Held(blocks, future, order)
    }

    constructor (genesis: Block, badHashes: set<Hash>)
      requires genesis.number == 0
      ensures Valid() && future == map[] && order == [] && this.badHashes == badHashes && blocks == map[genesis.hash := genesis]
          && current == genesis && this.genesis == genesis
    {
      blocks, future, order := map[genesis.hash := genesis], map[], [];
      this.badHashes := badHashes;
      index, lastBlock, checkpoint, checkpointHash := map[0 := genesis.hash], genesis.hash, 0, None;
      current, td := genesis, genesis.td;
      this.genesis := genesis;
    }

    function GetBlock(h: Hash): (b: Option<Block>)
      reads this
    {
      if h in blocks then Some(blocks[h]) else None
    }

    /** insert: the block becomes head and enters the index; every 201st is the checkpoint. */
    method Insert(block: Block)
      modifies `index, `lastBlock, `checkpoint, `checkpointHash, `current
      ensures index == old(index)[block.number := block.hash] && lastBlock == block.hash && current == block
      ensures checkpoint == if old(checkpoint) < CHECKPOINT_LIMIT then old(checkpoint) + 1 else 0
      ensures checkpointHash == if checkpoint == 0 then Some(block.hash) else old(checkpointHash)
    {
      index := index[block.number := block.hash];
      lastBlock := block.hash;
      checkpoint := checkpoint + 1;
      if checkpoint > CHECKPOINT_LIMIT {
        checkpointHash := Some(block.hash);
        checkpoint := 0;
      }
      current := block;
    }

    /** The next block up from the ancestor of b with number n is found in the database. */
    lemma StepUp(m: Blocks, newest: Block, b: Block, n: nat)
      requires Linked(blocks, genesis) && Linked(m, genesis) && m == blocks[newest.hash := newest]
      requires (newest.hash in blocks ==> blocks[newest.hash] == newest) && Stored(m, b) && 0 < n <= b.number
      ensures GetBlock(Ancestor(m, genesis, b, n).parent) == Some(Ancestor(m, genesis, b, n - 1))
    {
      AncestorParent(m, genesis, b, n);
      var a := Ancestor(m, genesis, b, n);
      if a.hash in blocks {
        assert blocks[a.hash] == a;
      } else {
        assert a == newest && a.parent != newest.hash;
      }
    }

    /** diff: exactly the new branch above the last common ancestor, newest first; it always finds one. */
    method Diff(older: Block, newer: Block, ghost m: Blocks) returns (chain: Option<seq<Block>>, ghost c: nat)
      requires Linked(blocks, genesis) && Stored(m, older) && (newer.hash in blocks ==> blocks[newer.hash] == newer)
      requires Linked(m, genesis) && m == blocks[newer.hash := newer]
      ensures chain.Some? && Fork(m, genesis, older, newer, c) && Branch(m, genesis, newer, c, chain.value)
    {
      hide Linked, Ancestor;
      chain, c := None, 0;
      var oldBlock, newBlock := older, newer;
      var newChain: seq<Block> := [];
      ItIs(m, older);
      ItIs(m, newer);
      if oldBlock.number > newBlock.number {
        while oldBlock.number != newBlock.number
          invariant newer.number <= oldBlock.number <= older.number
          invariant oldBlock == Ancestor(m, genesis, older, oldBlock.number)
          decreases oldBlock.number
        {
          StepUp(m, newer, older, oldBlock.number);
          var up := GetBlock(oldBlock.parent);
          if up.None? {
            return;
          }
          oldBlock := up.value;
        }
      } else {
        while newBlock.number != oldBlock.number
          invariant older.number <= newBlock.number <= newer.number
          invariant newBlock == Ancestor(m, genesis, newer, newBlock.number)
          invariant Branch(m, genesis, newer, newBlock.number, newChain)
          decreases newBlock.number
        {
          newChain := newChain + [newBlock];
          StepUp(m, newer, newer, newBlock.number);
          var up := GetBlock(newBlock.parent);
          if up.None? {
            return;
          }
          newBlock := up.value;
        }
      }
      while oldBlock.hash != newBlock.hash
        invariant oldBlock.number == newBlock.number <= older.number && newBlock.number <= newer.number
        invariant oldBlock == Ancestor(m, genesis, older, oldBlock.number)
        invariant newBlock == Ancestor(m, genesis, newer, newBlock.number)
        invariant Branch(m, genesis, newer, newBlock.number, newChain)
        invariant forall n | oldBlock.number < n <= older.number && n <= newer.number ::
                    Ancestor(m, genesis, older, n) != Ancestor(m, genesis, newer, n)
        decreases oldBlock.number
      {
        SameAtZero(m, older, newer);
        newChain := newChain + [newBlock];
        StepUp(m, newer, older, oldBlock.number);
        StepUp(m, newer, newer, newBlock.number);
        var a, b := GetBlock(oldBlock.parent), GetBlock(newBlock.parent);
        if a.None? || b.None? {
          return;
        }
        oldBlock, newBlock := a.value, b.value;
      }
      chain, c := Some(newChain), newBlock.number;
    }

    lemma ItIs(m: Blocks, b: Block)
      requires Linked(m, genesis) && Stored(m, b)
      ensures Ancestor(m, genesis, b, b.number) == b
    {}

    lemma SameAtZero(m: Blocks, a: Block, b: Block)
      requires Linked(m, genesis) && Stored(m, a) && Stored(m, b)
      ensures Ancestor(m, genesis, a, 0) == Ancestor(m, genesis, b, 0)
    {
      AllFromGenesis(m, genesis, a);
      AllFromGenesis(m, genesis, b);
    }

    /** merge: the index follows the new branch; below the fork the two branches are one. */
    method Merge(block: Block, ghost m: Blocks) returns (ok: bool)
      requires Valid() && (block.hash in blocks ==> blocks[block.hash] == block)
      requires Linked(m, genesis) && m == blocks[block.hash := block] && Stored(m, current)
      modifies `index, `lastBlock, `checkpoint, `checkpointHash, `current
      ensures ok && Indexed(m, block)
    {
      hide Linked, Ancestor, Fork, Branch;
      var chain, c := Diff(current, block, m);
      if chain.None? {
        return false;
      }
      var newChain := chain.value;
      ghost var head := current;
      ForkBounds(m, head, block, c, newChain);
      for i := 0 to |newChain|
        invariant forall n | 0 <= n <= c :: n in index && index[n] == old(index)[n]
        invariant forall n | block.number - i < n <= block.number ::
                    n in index && index[n] == Ancestor(m, genesis, block, n).hash
      {
        InBranch(m, block, c, newChain, i);
        Insert(newChain[i]);
      }
      forall n | 0 <= n <= block.number ensures n in index && index[n] == Ancestor(m, genesis, block, n).hash {
        if n <= c {
          BelowFork(m, head, block, c, n);
          OldIndex(m, block, head, n, old(index));
        }
      }
      ok := true;
    }

    lemma ForkBounds(m: Blocks, a: Block, b: Block, c: nat, chain: seq<Block>)
      requires Linked(m, genesis) && Stored(m, a) && Stored(m, b) && Fork(m, genesis, a, b, c) && Branch(m, genesis, b, c, chain)
      ensures c <= a.number && c <= b.number && |chain| == b.number - c
    {}

    lemma InBranch(m: Blocks, b: Block, c: nat, chain: seq<Block>, i: nat)
      requires Linked(m, genesis) && Stored(m, b) && Branch(m, genesis, b, c, chain) && i < |chain|
      ensures b.number >= i && chain[i] == Ancestor(m, genesis, b, b.number - i) && chain[i].number == b.number - i
    {}

    lemma BelowFork(m: Blocks, a: Block, b: Block, c: nat, n: nat)
      requires Linked(m, genesis) && Stored(m, a) && Stored(m, b) && Fork(m, genesis, a, b, c) && n <= c
      ensures Ancestor(m, genesis, a, n) == Ancestor(m, genesis, b, n)
    {
      AncestorOfAncestor(m, genesis, a, c, n);
      AncestorOfAncestor(m, genesis, b, c, n);
    }

    /** The index of the old head, read in the database with the new block added. */
    lemma OldIndex(m: Blocks, block: Block, head: Block, n: nat, was: map<nat, Hash>)
      requires Linked(blocks, genesis) && Linked(m, genesis) && m == blocks[block.hash := block]
      requires (block.hash in blocks ==> blocks[block.hash] == block) && Stored(blocks, head) && n <= head.number
      requires n in was && was[n] == Ancestor(blocks, genesis, head, n).hash
      ensures Stored(m, head) && was[n] == Ancestor(m, genesis, head, n).hash
    {
      AncestorGrows(blocks, m, genesis, head, n);
    }

    /**
     WriteBlock: a heavier block becomes the head, on whatever branch it is; any other is only stored.
     The split status set after a merge is always overwritten.
     */
    method WriteBlock(block: Block) returns (status: Status, ok: bool)
      requires Valid() && Follows(blocks, block) && (block.hash in blocks ==> blocks[block.hash] == block)
      modifies this
      ensures ok && Valid() && blocks == old(blocks)[block.hash := block]
      ensures future == old(future) - {block.hash} && order == Without(old(order), block.hash)
      ensures current == (if block.td > old(td) then block else old(current))
      ensures status == if block.td > old(td) then Canonical else Side
    {
      hide Linked, Ancestor, Queue, Indexed;
      ghost var m := blocks[block.hash := block];
      QueueRemove(future, order, blocks, badHashes, block);
      AddsNothing(m, block, current);
      ok := true;
      if block.td > td {
        status, ok := NewHead(block, m);
        if !ok {
          return;
        }
      } else {
        status := Side;
      }
      blocks := blocks[block.hash := block];
      future, order := future - {block.hash}, Without(order, block.hash);
    }

    /** A heavier block becomes the head. */
    method NewHead(block: Block, ghost m: Blocks) returns (status: Status, ok: bool)
      requires Valid() && Follows(blocks, block) && (block.hash in blocks ==> blocks[block.hash] == block)
      requires Linked(m, genesis) && m == blocks[block.hash := block] && Indexed(m, current)
      modifies `index, `lastBlock, `checkpoint, `checkpointHash, `current, `td
      ensures ok && status == Canonical && Indexed(m, block) && current == block && lastBlock == block.hash && td == block.td
    {
      hide Linked, Ancestor, Queue;
      status, ok := Canonical, true;
      if block.parent != current.hash {
        ok := Merge(block, m);
        if !ok {
          return;
        }
        status := Split;
      } else {
        Extends(m, block, current);
      }
      td := block.td;
      Insert(block);
      ItIs(m, block);
      status := Canonical;
    }

    /** Storing one more block leaves the index of the head valid. */
    lemma AddsNothing(m: Blocks, block: Block, head: Block)
      requires Valid() && Follows(blocks, block) && m == blocks[block.hash := block] && head == current
      requires block.hash in blocks ==> blocks[block.hash] == block
      ensures Linked(m, genesis) && Indexed(m, head)
    {
      LinkedAfter(blocks, genesis, block);
      forall n | 0 <= n <= head.number ensures n in index && index[n] == Ancestor(m, genesis, head, n).hash {
        AncestorGrows(blocks, m, genesis, head, n);
      }
    }

    /** A child of the head extends its index by one entry. */
    lemma Extends(m: Blocks, block: Block, head: Block)
      requires Indexed(m, head) && Stored(m, block) && block.parent == head.hash && block.number == head.number + 1
      ensures forall n | 0 <= n < block.number :: n in index && index[n] == Ancestor(m, genesis, block, n).hash
    {
      forall n | 0 <= n < block.number ensures n in index && index[n] == Ancestor(m, genesis, block, n).hash {
        assert Ancestor(m, genesis, block, n) == Ancestor(m, genesis, head, n);
      }
    }

    /** What the processor reports: known blocks and unknown parents first, then what it thinks of the block. */
    function Process(block: Block, opinion: Opinion): (v: Verdict)
      reads this
    {
      if block.hash in blocks then KnownBlock
      else if block.parent !in blocks then NoParent
      else if block.number != blocks[block.parent].number + 1 then Judged(Rejected)
      else Judged(opinion)
    }

    /** Add: a block is put off; a full cache drops the one put off longest ago. */
    method Defer(block: Block)
      requires Valid() && block.hash !in blocks && block.hash !in badHashes
      modifies `future, `order
      ensures Valid() && order == PutOff(old(order), block.hash) && PutLast(old(future), old(order), future, order, block)
      ensures future == (old(future) - Dropped(old(order), block.hash))[block.hash := block]
    {
      hide Queue, Indexed, PutOff, Dropped, PutLast;
      QueueAdd(future, order, blocks, badHashes, block);
      PutOffIsLast(future, order, blocks, badHashes, block);
      future, order := (future - Dropped(order, block.hash))[block.hash := block], PutOff(order, block.hash);
    }

    /** One block of InsertChain: it is known, stored, put off, or refused. */
    method InsertOne(b: Block, opinion: Opinion) returns (err: Option<InsertError>)
      requires Valid()
      modifies this
      ensures Valid() && td >= old(td) && State() == Next(old(State()), badHashes, b, opinion)
      ensures err.Some? <==> Refuses(old(State()), badHashes, b, opinion)
      ensures (err == Some(BadHash) <==> b.hash in badHashes) && err != Some(BadNonce)
      ensures err == Some(TooEarly) ==> opinion == Future(true)
      ensures err.Some? ==> current == old(current)
      ensures err.Some? || b.hash in old(blocks) ==> blocks == old(blocks) && future == old(future) && order == old(order)
      ensures b.hash !in badHashes && b.hash in old(blocks) ==> err.None? && current == old(current)
      ensures b.hash !in badHashes && b.hash !in old(blocks) && b.parent !in old(blocks) && b.parent !in old(future) ==>
        err == Some(Invalid)
      ensures b.hash !in badHashes && b.hash !in old(blocks) && b.parent !in old(blocks) && b.parent in old(future) ==>
        && err.None? && blocks == old(blocks) && current == old(current)
        && PutLast(old(future), old(order), future, order, b.(td := b.difficulty))
      ensures b.hash !in badHashes && b.hash !in old(blocks) && b.parent in old(blocks) ==>
        var p := old(blocks)[b.parent];
        var t := b.(td := b.difficulty + p.td);
        if b.number != p.number + 1 || opinion == Rejected then err == Some(Invalid)
        else if opinion == Future(true) then err == Some(TooEarly)
        else if opinion == Future(false) then
          err.None? && blocks == old(blocks) && current == old(current) && PutLast(old(future), old(order), future, order, t)
        else
          && err.None? && blocks == old(blocks)[b.hash := t] && future == old(future) - {b.hash}
          && current == if t.td > old(td) then t else old(current)
    {
      hide Indexed, Linked, Ancestor, Queue, PutOff, Dropped, Without, PutLast;
      if b.hash in badHashes {
        return Some(BadHash);
      }
      var block := b.(td := CalcTD(b.difficulty, GetBlock(b.parent)));
      assert block == WithTD(blocks, b);
      match Process(block, opinion)
      case KnownBlock => return None;
      case NoParent =>
        if block.parent in future {
          Defer(block);
          return None;
        }
        return Some(Invalid);
      case Judged(Future(far)) =>
        if far {
          return Some(TooEarly);
        }
        Defer(block);
        return None;
      case Judged(Rejected) => return Some(Invalid);
      case Judged(Accepted) =>
        var _, ok := WriteBlock(block);
        return None;
    }

    /**
     InsertChain, until it is interrupted: block by block, as soon as its nonce is checked. A refused block
     ends it. Whatever the blocks, the chain stays canonical.
     */
    method InsertChain(chain: seq<Block>, opinions: seq<Opinion>, results: seq<NonceResult>, interrupt: nat)
      returns (failed: Option<(nat, InsertError)>, ghost n: nat)
      requires Valid() && |opinions| == |chain| && Covers(results, |chain|)
      modifies this
      ensures Valid() && td >= old(td) && n <= |chain| && State() == Run(old(State()), badHashes, chain, opinions, n)
      ensures Handled(old(State()), badHashes, chain, opinions, n)
      ensures var lost := LostBy(old(State()), badHashes, chain, opinions, n);
              && Grown(old(State()), State(), lost, chain, badHashes) && Accounted(State(), lost, chain, n)
              && Parented(old(State()), State(), lost)
              && (|old(future)| + |chain| <= MAX_FUTURE_BLOCKS ==> lost == {})
      ensures failed.None? ==> n == if interrupt < |chain| then interrupt else |chain|
      ensures failed.Some? ==> failed.value.0 < |chain|
      ensures failed.Some? && failed.value.1 == BadNonce ==> NonceResult(failed.value.0, false) in results
      ensures failed.Some? && failed.value.1 != BadNonce ==>
        failed.value.0 == n && Refuses(State(), badHashes, chain[n], opinions[n])
      ensures failed.Some? && failed.value.1 != BadNonce ==> (failed.value.1 == BadHash <==> chain[n].hash in badHashes)
      ensures failed.Some? && failed.value.1 == TooEarly ==> opinions[n] == Future(true)
    {
      hide Indexed, Linked, Ancestor, Covers, Next, Refuses, Run, LostBy, Grown, Accounted, Handled, Parented;
      ghost var s := State();
      ItIsSound();
      failed, n := InsertUntil(chain, opinions, results, interrupt);
      RunAccounted(s, badHashes, chain, opinions, n);
      RunParented(s, badHashes, chain, opinions, n);
    }

    lemma StateIs()
      ensures State() == Held(blocks, future, order)
    {}

    lemma ItIsSound()
      requires Valid()
      ensures Sound(State(), badHashes)
    {}

    method InsertUntil(chain: seq<Block>, opinions: seq<Opinion>, results: seq<NonceResult>, interrupt: nat)
      returns (failed: Option<(nat, InsertError)>, ghost n: nat)
      requires Valid() && |opinions| == |chain| && Covers(results, |chain|)
      modifies this
      ensures Valid() && td >= old(td) && n <= |chain| && State() == Run(old(State()), badHashes, chain, opinions, n)
      ensures Handled(old(State()), badHashes, chain, opinions, n)
      ensures failed.None? ==> n == if interrupt < |chain| then interrupt else |chain|
      ensures failed.Some? ==> failed.value.0 < |chain|
      ensures failed.Some? && failed.value.1 == BadNonce ==> NonceResult(failed.value.0, false) in results
      ensures failed.Some? && failed.value.1 != BadNonce ==>
        failed.value.0 == n && Refuses(State(), badHashes, chain[n], opinions[n])
      ensures failed.Some? && failed.value.1 != BadNonce ==> (failed.value.1 == BadHash <==> chain[n].hash in badHashes)
      ensures failed.Some? && failed.value.1 == TooEarly ==> opinions[n] == Future(true)
    {
      hide Indexed, Linked, Ancestor, Valid, Covers, Next, Refuses;
      var read := 0;
      for i := 0 to |chain|
        invariant read <= |results| && Valid() && td >= old(td) && i <= interrupt
        invariant State() == Run(old(State()), badHashes, chain, opinions, i)
        invariant Handled(old(State()), badHashes, chain, opinions, i)
      {
        if i >= interrupt {
          return None, i;
        }
        var bad;
        read, bad := AwaitNonce(results, read, i, |chain|);
        if bad.Some? {
          return Some((bad.value, BadNonce)), i;
        }
        ghost var before := State();
        var err := InsertOne(chain[i], opinions[i]);
        if err.Some? {
          RefusedStays(before, badHashes, chain[i], opinions[i]);
          return Some((i, err.value)), i;
        }
      }
      failed, n := None, |chain|;
    }

    /** The waiting blocks in order of number, each once. */
    method Waiting() returns (chain: seq<Block>)
      requires Valid()
      ensures Lists(chain, future) && ByNumber(chain) && |chain| == |future|
    {
      hide Indexed, Linked, Ancestor, ByNumber;
      var s := [];
      for i := 0 to |order|
        invariant |s| == i && forall j | 0 <= j < i :: order[j] in future && s[j] == future[order[j]]
      {
        s := s + [future[order[i]]];
      }
      ListsAll(future, order, s);
      CountQueued(future, order);
      chain := SortByNumber(s);
      ListsSorted(s, chain, future);
      assert |multiset(chain)| == |multiset(s)|;
    }

    /**
     procFutureBlocks: the waiting blocks are tried again in order of number. None is lost; when each follows a
     stored or a waiting block and the processor now accepts them all, none is left waiting.
     */
    method ProcFutureBlocks(judge: Hash -> Opinion, results: seq<NonceResult>, interrupt: nat)
      requires Valid() && Covers(results, |future|)
      modifies this
      ensures Valid() && td >= old(td) && future.Keys <= old(future).Keys
      ensures forall h | h in old(blocks) :: h in blocks && blocks[h] == old(blocks)[h]
      ensures forall h | h in old(future) :: h in future || h in blocks
      ensures Connected(old(blocks), old(future)) && (forall h | h in old(future) :: judge(h) == Accepted)
              && (forall r | r in results :: r.valid) && interrupt >= |old(future)| ==>
                future == map[] && forall h | h in old(future) :: h in blocks && blocks[h].number == old(future)[h].number
    {
      hide Indexed, Linked, Ancestor, Covers, Next, Refuses, Run, LostBy, Grown, Accounted, Handled, Lists,
           ByNumber, Connected, Queue;
      ghost var s := State();
      ItIsSound();
      var chain := Waiting();
      if |chain| > 0 {
        var opinions := seq(|chain|, i requires 0 <= i < |chain| => judge(chain[i].hash));
        var failed, n := InsertChain(chain, opinions, results, interrupt);
        Retried(s, badHashes, chain, opinions, n);
        if Connected(s.blocks, s.future) && (forall h | h in s.future :: judge(h) == Accepted)
           && (forall r | r in results :: r.valid) && interrupt >= |s.future| {
          ListedAccepted(chain, s.future, judge, opinions);
          RetriedAll(s, badHashes, chain, opinions, n);
        }
      }
    }
  }

  lemma ListedAccepted(chain: seq<Block>, future: Blocks, judge: Hash -> Opinion, opinions: seq<Opinion>)
    requires Lists(chain, future) && (forall h | h in future :: judge(h) == Accepted)
    requires |opinions| == |chain| && forall i | 0 <= i < |chain| :: opinions[i] == judge(chain[i].hash)
    ensures forall o | o in opinions :: o == Accepted
  {
    forall i | 0 <= i < |chain| ensures opinions[i] == Accepted {
      assert chain[i] in chain;
    }
  }

  /** Every block is answered for, and nothing else. */
  ghost predicate Covers(results: seq<NonceResult>, n: nat)
  {
    && (forall r | r in results :: r.i < n)
    && (forall i | 0 <= i < n :: Answered(results, |results|, i))
  }

  ghost predicate Answered(results: seq<NonceResult>, n: nat, i: nat)
    requires n <= |results|
  {
    exists r | 0 <= r < n :: results[r].i == i
  }

  /** Answers are taken as they come until block i is answered for; a bad one ends it, whichever block it is about. */
  method AwaitNonce(results: seq<NonceResult>, from: nat, i: nat, n: nat) returns (next: nat, bad: Option<nat>)
    requires from <= |results| && i < n && Covers(results, n)
    ensures from <= next <= |results|
    ensures bad.None? ==> Answered(results, next, i) && forall r | from <= r < next :: results[r].valid
    ensures bad.Some? ==> bad.value < n && NonceResult(bad.value, false) in results
  {
    next := from;
    var checked := set r | 0 <= r < from :: results[r].i;
    assert Answered(results, |results|, i);
    while i !in checked
      invariant from <= next <= |results| && checked == set r | 0 <= r < next :: results[r].i
      invariant forall r | from <= r < next :: results[r].valid
      decreases |results| - next
    {
      var r := results[next];
      checked, next := checked + {r.i}, next + 1;
      if !r.valid {
        return next, Some(r.i);
      }
    }
    bad := None;
  }

  // ---------- a block that is pushed out ----------

  /** A child of the genesis block with hash 0. */
  function Child(h: Hash): (b: Block)
  {
    Block(h, 0, 1, 1, 0)
  }

  function Children(n: nat): (r: seq<Block>)
    ensures |r| == n && forall i | 0 <= i < n :: r[i] == Child(i + 1)
  {
    seq(n, i requires 0 <= i < n => Child(i + 1))
  }

  function TooSoon(n: nat): (r: seq<Opinion>)
    ensures |r| == n && forall i | 0 <= i < n :: r[i] == Future(false)
  {
    seq(n, _ => Future(false))
  }

  function GoodNonces(n: nat): (r: seq<NonceResult>)
    ensures Covers(r, n) && forall x | x in r :: x.valid
  {
    var r := seq(n, i requires 0 <= i < n => NonceResult(i, true));
    assert Covers(r, n) by {
      forall i | 0 <= i < n ensures Answered(r, |r|, i) {
        assert r[i].i == i;
      }
    }
    r
  }

  /** The hashes 1 to n and their blocks, all put off. */
  ghost predicate Crowd(g: Block, s: Held, n: nat)
  {
    && s.blocks == map[0 := g] && |s.order| == n && (forall i | 0 <= i < n :: s.order[i] == i + 1)
    && (forall h :: h in s.future <==> 1 <= h <= n)
  }

  lemma {:induction false} CrowdGrows(g: Block, s: Held, all: nat, n: nat)
    requires g.number == 0 && Crowd(g, s, 0) && n <= all && n <= MAX_FUTURE_BLOCKS
    ensures Crowd(g, Run(s, {}, Children(all), TooSoon(all), n), n)
  {
    hide Crowd, Next, Children, TooSoon, Child;
    if n > 0 {
      CrowdGrows(g, s, all, n - 1);
      CrowdOne(g, Run(s, {}, Children(all), TooSoon(all), n - 1), n);
    }
  }

  lemma CrowdOne(g: Block, s: Held, n: nat)
    requires g.number == 0 && 0 < n <= MAX_FUTURE_BLOCKS && Crowd(g, s, n - 1)
    ensures Crowd(g, Next(s, {}, Child(n), Future(false)), n)
  {
    assert n !in s.order;
  }

  /** None of 257 early blocks is refused, and after them the first is gone. */
  lemma CrowdedOut(g: Block, s: Held, n: nat)
    requires g.number == 0 && Crowd(g, s, 0) && n <= MAX_FUTURE_BLOCKS + 1
    ensures var all := MAX_FUTURE_BLOCKS + 1;
            var r := Run(s, {}, Children(all), TooSoon(all), n);
            if n < all then !Refuses(r, {}, Children(all)[n], TooSoon(all)[n]) else 1 !in r.blocks && 1 !in r.future
  {
    hide Run, Crowd, Next, Refuses, Children, TooSoon, Child;
    var all := MAX_FUTURE_BLOCKS + 1;
    var k := if n < all then n else MAX_FUTURE_BLOCKS;
    CrowdGrows(g, s, all, k);
    CrowdNext(g, Run(s, {}, Children(all), TooSoon(all), k), k);
    RunOne(s, all);
  }

  lemma RunOne(s: Held, n: nat)
    requires n > 0
    ensures Run(s, {}, Children(n), TooSoon(n), n) == Next(Run(s, {}, Children(n), TooSoon(n), n - 1), {}, Child(n), Future(false))
  {
    hide Next, Child;
  }

  lemma CrowdNext(g: Block, s: Held, n: nat)
    requires g.number == 0 && Crowd(g, s, n) && n <= MAX_FUTURE_BLOCKS
    ensures !Refuses(s, {}, Child(n + 1), Future(false))
    ensures var r := Next(s, {}, Child(n + 1), Future(false)); n == MAX_FUTURE_BLOCKS ==> 1 !in r.blocks && 1 !in r.future
  {
    assert n + 1 !in s.order;
  }

  /** 257 blocks that come too early, given at once without an error: the first is neither stored nor waiting. */
  method PushedOut(g: Block) returns (m: ChainManager, failed: Option<(nat, InsertError)>)
    requires g.number == 0 && g.hash == 0
    ensures fresh(m) && m.Valid() && failed.None? && 1 !in m.blocks && 1 !in m.future
  {
    m := new ChainManager(g, {});
    CrowdStarts(g, m.State());
    hide *;
    ghost var s := m.State();
    var n := MAX_FUTURE_BLOCKS + 1;
    ghost var k;
    failed, k := m.InsertChain(Children(n), TooSoon(n), GoodNonces(n), n);
    CrowdedOut(g, s, k);
    m.StateIs();
  }

  lemma CrowdStarts(g: Block, s: Held)
    requires s == Held(map[0 := g], map[], [])
    ensures Crowd(g, s, 0)
  {}
}
