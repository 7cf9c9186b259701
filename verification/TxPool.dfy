/**
 The transaction pool: transactions wait in a queue per sender until their nonce is next, then become
 pending. Pending and queued transactions never overlap, and the pending nonces of a sender leave no
 gap above the nonce of its account.
 */
module TxPool {
  import opened Bytes
  import Transition

  type Hash = nat
  type Addr = nat

  /** from is None when the signature gives no sender. */
  datatype Tx = Tx(hash: Hash, from: Option<Addr>, nonce: nat, gasPrice: nat, gas: nat, value: int, data: seq<Byte>)

  datatype TxError = Known | Cheap | InvalidSender | NoAccount | NonceTooLow | GasLimit | NegativeValue | NoFunds | NoIntrinsicGas

  datatype Managed = Managed(nstart: nat, nonces: seq<bool>)

  function NonceOf(m: map<Addr, nat>, a: Addr): (n: nat)
  {
    if a in m then m[a] else 0
  }

  /** Nonces tracked on top of a copy of the state. */
  class ManagedState {
    var copy: map<Addr, nat>
    var accounts: map<Addr, Managed>

    constructor (state: map<Addr, nat>)
      ensures forall a: Addr :: Guesses()[a] == NonceOf(state, a)
    {
      copy, accounts := state, map[];
    }

    ghost function Nonce(a: Addr): (n: nat)
      reads this
    {
      if a in accounts then
        var t := |accounts[a].nonces| + accounts[a].nstart;
        if t < NonceOf(copy, a) then NonceOf(copy, a) else t
      else NonceOf(copy, a)
    }

    /** The nonce guessed for every account. */
    ghost function Guesses(): (g: imap<Addr, nat>)
      reads this
      ensures forall a: Addr :: a in g
    {
      imap a: Addr :: Nonce(a)
    }

    /** getAccount never tracks less than the nonce of the state copy. */
    method GetAccount(a: Addr) returns (x: Managed)
      modifies this
      ensures a in accounts && accounts[a] == x && |x.nonces| + x.nstart == Guesses()[a] && Guesses() == old(Guesses())
    {
      if a !in accounts {
        accounts := accounts[a := Managed(NonceOf(copy, a), [])];
      } else if |accounts[a].nonces| + accounts[a].nstart < NonceOf(copy, a) {
        accounts := accounts[a := Managed(NonceOf(copy, a), [])];
      }
      x := accounts[a];
    }

    method GetNonce(a: Addr) returns (n: nat)
      modifies this
      ensures Guesses() == old(Guesses()) && n == Guesses()[a]
    {
      if a in accounts {
        var x := GetAccount(a);
        n := |x.nonces| + x.nstart;
      } else {
        n := NonceOf(copy, a);
      }
    }

    method SetNonce(a: Addr, n: nat)
      modifies this
      ensures Guesses() == old(Guesses())[a := n]
    {
      copy := copy[a := n];
      accounts := accounts[a := Managed(n, [])];
    }
  }

  // ---------- ordering by nonce ----------

  ghost predicate Sorted(q: seq<Tx>)
  {
    forall i, j | 0 <= i < j < |q| :: q[i].nonce <= q[j].nonce
  }

  function Place(t: Tx, q: seq<Tx>): (r: seq<Tx>)
    ensures |r| == |q| + 1 && multiset(r) == multiset(q) + multiset{t}
  {
    if q == [] || t.nonce <= q[0].nonce then [t] + q
    else
      assert q == [q[0]] + q[1..];
      [q[0]] + Place(t, q[1..])
  }

  lemma {:induction false} PlaceSorted(t: Tx, q: seq<Tx>)
    requires Sorted(q)
    ensures Sorted(Place(t, q))
  {
    if q != [] && t.nonce > q[0].nonce {
      var tail := q[1..];
      PlaceSorted(t, tail);
      var rest := Place(t, tail);
      hide Place;
      assert Place(t, q) == [q[0]] + rest;
      forall i | 0 <= i < |rest| ensures rest[i].nonce >= q[0].nonce {
        assert rest[i] in multiset(tail) + multiset{t};
        assert rest[i] in tail || rest[i] == t;
      }
    }
  }

  /** The hashes of a slice of the list. */
  ghost function Hashes(q: seq<Tx>, lo: int, hi: int): (s: set<Hash>)
    requires 0 <= lo <= hi <= |q|
  {
    set i | lo <= i < hi :: q[i].hash
  }

  ghost predicate Distinct(q: seq<Tx>)
  {
    forall i, j | 0 <= i < j < |q| :: q[i].hash != q[j].hash
  }

  lemma {:induction false} HashCount(q: seq<Tx>, lo: int, hi: int)
    requires 0 <= lo <= hi <= |q|
    ensures |Hashes(q, lo, hi)| <= hi - lo
    decreases hi - lo
  {
    if lo < hi {
      HashCount(q, lo, hi - 1);
      assert Hashes(q, lo, hi) == Hashes(q, lo, hi - 1) + {q[hi - 1].hash};
    } else {
      assert Hashes(q, lo, hi) == {};
    }
  }

  lemma HashesStep(q: seq<Tx>, lo: int, hi: int)
    requires 0 <= lo < hi <= |q| && Distinct(q)
    ensures q[lo].hash in Hashes(q, lo, hi) && Hashes(q, lo + 1, hi) == Hashes(q, lo, hi) - {q[lo].hash}
  {}

  lemma HashesNone(q: seq<Tx>)
    ensures Hashes(q, |q|, |q|) == {}
  {}

  /** A later part of the list shares no hash with an earlier one. */
  lemma HashesApart(q: seq<Tx>, i: int, k: int)
    requires 0 <= i <= k <= |q| && Distinct(q)
    ensures Hashes(q, i, k) !! Hashes(q, k, |q|) && Hashes(q, i, |q|) == Hashes(q, i, k) + Hashes(q, k, |q|)
  {}

  lemma PlaceMembers(t: Tx, q: seq<Tx>)
    ensures forall x :: x in Place(t, q) <==> x in q || x == t
  {
    forall x ensures x in Place(t, q) <==> x in q || x == t {
      assert x in Place(t, q) <==> x in multiset(Place(t, q));
      assert x in q <==> x in multiset(q);
    }
  }

  lemma {:induction false} PlaceDistinct(t: Tx, q: seq<Tx>)
    requires Distinct(q) && forall x | x in q :: x.hash != t.hash
    ensures Distinct(Place(t, q))
  {
    if q != [] && t.nonce > q[0].nonce {
      var tail := q[1..];
      PlaceDistinct(t, tail);
      PlaceMembers(t, tail);
      var rest := Place(t, tail);
      hide Place;
      assert Place(t, q) == [q[0]] + rest;
      forall i | 0 <= i < |rest| ensures rest[i].hash != q[0].hash {
        assert rest[i] in tail || rest[i] == t;
      }
    }
  }

  ghost predicate Keyed(m: map<Hash, Tx>)
  {
    forall h | h in m :: m[h].hash == h
  }

  /** The queued transactions that are not stale, in the order of their nonces. */
  method Collect(txs: map<Hash, Tx>, trueNonce: nat) returns (kept: map<Hash, Tx>, addq: seq<Tx>)
    requires Keyed(txs)
    ensures kept.Keys <= txs.Keys && forall h | h in txs :: h in kept <==> txs[h].nonce >= trueNonce
    ensures forall h | h in kept :: kept[h] == txs[h]
    ensures Sorted(addq) && forall t :: t in addq <==> t.hash in kept && kept[t.hash] == t
    ensures Distinct(addq)
  {
    kept, addq := txs, [];
    var todo := txs.Keys;
    while todo != {}
      invariant todo <= txs.Keys && Sorted(addq) && kept.Keys <= txs.Keys
      invariant forall h | h in txs :: h in kept <==> h in todo || txs[h].nonce >= trueNonce
      invariant forall h | h in kept :: kept[h] == txs[h]
      invariant forall t :: t in addq <==> t.hash in kept && t.hash !in todo && kept[t.hash] == t
      invariant Distinct(addq)
      decreases todo
    {
      var h :| h in todo;
      var t := txs[h];
      todo := todo - {h};
      if t.nonce < trueNonce {
        kept := kept - {h};
      } else {
        PlaceSorted(t, addq);
        PlaceMembers(t, addq);
        PlaceDistinct(t, addq);
        addq := Place(t, addq);
      }
    }
  }

  // ---------- the pool ----------

  const MAX_QUEUED: nat := 64

  type Txs = map<Hash, Tx>
  type Nonces = map<Addr, nat>

  ghost predicate IsPending(pending: Txs, a: Addr, n: nat)
  {
    exists h | h in pending :: pending[h].from == Some(a) && pending[h].nonce == n
  }

  /** Everything from the account nonce up to n, n excluded, is pending. */
  ghost predicate FilledTo(pending: Txs, current: Nonces, a: Addr, n: nat)
  {
    forall m | NonceOf(current, a) <= m < n :: IsPending(pending, a, m)
  }

  type Guesses = imap<Addr, nat>

  /** Everything below the nonces guessed is pending. */
  ghost predicate AllFilled(pending: Txs, current: Nonces, guesses: Guesses)
  {
    forall a: Addr :: a in guesses && FilledTo(pending, current, a, guesses[a])
  }

  /** Pending nonces leave no gap above the account nonce. */
  ghost predicate NoGaps(pending: Txs, current: Nonces)
  {
    forall h | h in pending && pending[h].from.Some? :: FilledTo(pending, current, pending[h].from.value, pending[h].nonce)
  }

  /** A set of transactions filed under their own hashes, with senders. */
  ghost predicate Filed(txOf: Hash -> Tx, txs: Txs)
  {
    forall h | h in txs :: txs[h] == txOf(h) && txs[h].hash == h && txs[h].from.Some?
  }

  ghost predicate FiledQueue(txOf: Hash -> Tx, queue: map<Addr, Txs>)
  {
    forall a | a in queue :: queue[a] != map[] && Filed(txOf, queue[a]) && (forall h | h in queue[a] :: queue[a][h].from == Some(a))
  }

  /** No transaction is both queued and pending. */
  ghost predicate Apart(queue: map<Addr, Txs>, pending: Txs)
  {
    forall a | a in queue :: queue[a].Keys !! pending.Keys
  }

  lemma FilledMore(p: Txs, p2: Txs, c: Nonces, c2: Nonces, a: Addr, n: nat)
    requires FilledTo(p, c, a, n) && NonceOf(c2, a) >= NonceOf(c, a)
    requires forall h | h in p && p[h].from == Some(a) && p[h].nonce >= NonceOf(c2, a) :: h in p2 && p2[h] == p[h]
    ensures FilledTo(p2, c2, a, n)
  {
    forall m | NonceOf(c2, a) <= m < n ensures IsPending(p2, a, m) {
      assert IsPending(p, a, m);
      var h :| h in p && p[h].from == Some(a) && p[h].nonce == m;
      assert h in p2 && p2[h] == p[h];
    }
  }

  lemma AllFilledMore(p: Txs, p2: Txs, c: Nonces, c2: Nonces, g: Guesses)
    requires AllFilled(p, c, g) && forall a :: NonceOf(c2, a) >= NonceOf(c, a)
    requires forall h | h in p && p[h].from.Some? && p[h].nonce >= NonceOf(c2, p[h].from.value) :: h in p2 && p2[h] == p[h]
    ensures AllFilled(p2, c2, g)
  {
    hide FilledTo;
    forall a: Addr ensures a in g && FilledTo(p2, c2, a, g[a]) {
      FilledMore(p, p2, c, c2, a, g[a]);
    }
  }

  lemma SetSame(g: Guesses, a: Addr)
    requires a in g
    ensures g[a := g[a]] == g
  {}

  lemma SetTwice(g: Guesses, a: Addr, m: nat, n: nat)
    ensures g[a := m][a := n] == g[a := n]
  {}

  lemma AllFilledSet(p: Txs, c: Nonces, g: Guesses, a: Addr, n: nat)
    requires AllFilled(p, c, g) && FilledTo(p, c, a, n)
    ensures AllFilled(p, c, g[a := n])
  {
    hide FilledTo;
  }

  /** When account nonces rise and only included transactions leave, no gap opens. */
  lemma NoGapsMore(p: Txs, p2: Txs, c: Nonces, c2: Nonces)
    requires NoGaps(p, c) && forall a :: NonceOf(c2, a) >= NonceOf(c, a)
    requires forall h | h in p2 :: h in p && p2[h] == p[h]
    requires forall h | h in p && p[h].from.Some? && p[h].nonce >= NonceOf(c2, p[h].from.value) :: h in p2
    ensures NoGaps(p2, c2)
  {
    forall h | h in p2 && p2[h].from.Some? ensures FilledTo(p2, c2, p2[h].from.value, p2[h].nonce) {
      FilledMore(p, p2, c, c2, p[h].from.value, p[h].nonce);
    }
  }

  // ---------- what one pass over the queue does ----------

  /** The transactions of a sender in the order they were looked at, the nonce guessed, and how many became pending. */
  datatype Pass = Pass(order: seq<Tx>, guess: nat, moved: nat)

  /**
   A pass over the queue of one sender. Of the transactions that are not stale, in the order of their
   nonces, exactly those up to the guess become pending, 65 at most; the next 64 stay queued unless 65
   became pending, and the rest is dropped.
   */
  ghost predicate Passed(p: Pass, queued: Txs, trueNonce: nat, pending: Txs, left: Txs)
  {
    && Sorted(p.order) && Distinct(p.order) && NotStale(p.order, queued, trueNonce) && Reach(p) && Outcome(p, pending, left)
    && forall h | h in left :: h in queued && left[h] == queued[h] && queued[h].nonce >= trueNonce
  }

  /** The nonces guessed after these passes. */
  ghost function Later(guesses: Guesses, passes: map<Addr, Pass>): (g: Guesses)
  {
    imap a: Addr | a in guesses :: if a in passes then After(passes[a]) else guesses[a]
  }

  lemma NoneLater(guesses: Guesses)
    ensures Later(guesses, map[]) == guesses
  {}

  lemma LaterStep(guesses: Guesses, passes: map<Addr, Pass>, a: Addr, pass: Pass)
    requires a in guesses
    ensures a !in passes ==> a in Later(guesses, passes) && Later(guesses, passes)[a] == guesses[a]
    ensures Later(guesses, passes[a := pass]) == Later(guesses, passes)[a := After(pass)]
  {}

  lemma PassIs(p: Pass, queued: Txs, kept: Txs, trueNonce: nat, pending: Txs, left: Txs)
    requires Sorted(p.order) && Distinct(p.order) && Reach(p) && Outcome(p, pending, left)
    requires kept.Keys <= queued.Keys && forall h | h in queued :: h in kept <==> queued[h].nonce >= trueNonce
    requires forall h | h in kept :: kept[h] == queued[h]
    requires forall t :: t in p.order <==> t.hash in kept && kept[t.hash] == t
    requires forall h | h in left :: h in kept && left[h] == kept[h]
    ensures Passed(p, queued, trueNonce, pending, left)
  {
    hide Sorted, Distinct, Reach, Outcome;
  }

  /** The nonce guessed after a pass: one more than the last that became pending. */
  ghost function After(p: Pass): (n: nat)
  {
    if p.moved == 0 || p.moved > |p.order| then p.guess else p.order[p.moved - 1].nonce + 1
  }

  ghost predicate NotStale(order: seq<Tx>, queued: Txs, trueNonce: nat)
  {
    forall t :: t in order <==> t.hash in queued && queued[t.hash] == t && t.nonce >= trueNonce
  }

  ghost predicate Reach(p: Pass)
  {
    p.moved <= |p.order| && forall i | 0 <= i < |p.order| :: i < p.moved <==> p.order[i].nonce <= p.guess && i <= MAX_QUEUED
  }

  ghost predicate Outcome(p: Pass, pending: Txs, left: Txs)
  {
    && (forall i | 0 <= i < |p.order| :: p.order[i].hash in pending <==> i < p.moved)
    && (forall i | 0 <= i < |p.order| ::
          p.order[i].hash in left <==> p.moved <= MAX_QUEUED && p.moved <= i < p.moved + MAX_QUEUED)
  }

  /** The queue of one sender, empty if there is none. */
  function QueueOf(queue: map<Addr, Txs>, a: Addr): (txs: Txs)
  {
    if a in queue then queue[a] else map[]
  }

  /** The queues of all but one sender. */
  ghost predicate OthersKept(queue: map<Addr, Txs>, q: map<Addr, Txs>, a: Addr)
  {
    forall b | b != a :: (b in queue <==> b in q) && QueueOf(queue, b) == QueueOf(q, b)
  }

  lemma Replaced(q: map<Addr, Txs>, a: Addr, txs: Txs)
    ensures OthersKept(q - {a}, q, a) && QueueOf(q - {a}, a) == map[]
    ensures OthersKept(q[a := txs], q, a) && QueueOf(q[a := txs], a) == txs
  {}

  /** No sender but those still to be looked at has more than 64 transactions queued. */
  ghost predicate Bounded(queue: map<Addr, Txs>, todo: set<Addr>)
  {
    forall a | a !in todo :: |QueueOf(queue, a)| <= MAX_QUEUED
  }

  lemma BoundedStep(queue: map<Addr, Txs>, q: map<Addr, Txs>, todo: set<Addr>, a: Addr)
    requires Bounded(q, todo) && |QueueOf(queue, a)| <= MAX_QUEUED
    requires OthersKept(queue, q, a)
    ensures Bounded(queue, todo - {a})
  {}

  /** The queue with one more transaction. */
  ghost function Enqueued(queue: map<Addr, Txs>, a: Addr, tx: Tx): (q: map<Addr, Txs>)
  {
    queue[a := QueueOf(queue, a)[tx.hash := tx]]
  }

  /** A transaction that is not stale becomes pending exactly when its nonce is at most the guess and its rank at most 64. */
  lemma MovesIff(p: Pass, queued: Txs, trueNonce: nat, pending: Txs, left: Txs, h: Hash) returns (rank: nat)
    requires Passed(p, queued, trueNonce, pending, left) && Keyed(queued)
    requires h in queued && queued[h].nonce >= trueNonce
    ensures rank < |p.order| && p.order[rank] == queued[h]
    ensures h in pending <==> queued[h].nonce <= p.guess && rank <= MAX_QUEUED
    ensures h in left <==> p.moved <= MAX_QUEUED && p.moved <= rank < p.moved + MAX_QUEUED
  {
    hide Sorted, Distinct;
    assert queued[h] in p.order;
    rank :| 0 <= rank < |p.order| && p.order[rank] == queued[h];
  }

  /** The nonce guessed when the chain has a new head: the highest pending one, or that of the account. */
  ghost predicate Guess(pending: Txs, current: Nonces, a: Addr, g: nat)
  {
    && (g == NonceOf(current, a) || IsPending(pending, a, g))
    && g >= NonceOf(current, a) && forall h | h in pending && pending[h].from == Some(a) :: pending[h].nonce <= g
  }

  ghost predicate AllGuessed(pending: Txs, current: Nonces, guesses: Guesses)
  {
    forall a: Addr :: a in guesses && Guess(pending, current, a, guesses[a])
  }

  /** The guesses while they are raised to the pending nonces, these transactions still to be looked at. */
  ghost predicate Raised(pending: Txs, current: Nonces, g: Guesses, todo: set<Hash>)
  {
    && (forall a: Addr :: a in g && g[a] >= NonceOf(current, a) && (g[a] == NonceOf(current, a) || IsPending(pending, a, g[a])))
    && (forall h | h in pending && h !in todo && pending[h].from.Some? :: pending[h].nonce <= g[pending[h].from.value])
  }

  lemma NothingRaised(pending: Txs, current: Nonces, g: Guesses)
    requires forall a: Addr :: a in g && g[a] == NonceOf(current, a)
    ensures Raised(pending, current, g, pending.Keys)
  {}

  lemma RaisedStep(pending: Txs, current: Nonces, g: Guesses, todo: set<Hash>, h: Hash)
    requires Raised(pending, current, g, todo) && h in pending && pending[h].from.Some?
    ensures pending[h].from.value in g
    ensures var a, n := pending[h].from.value, pending[h].nonce;
            Raised(pending, current, if g[a] < n then g[a := n] else g, todo - {h})
  {}

  lemma AllRaised(pending: Txs, current: Nonces, g: Guesses)
    requires Raised(pending, current, g, {})
    ensures AllGuessed(pending, current, g)
  {}

  /** With such a guess the nonce after the highest pending one stays queued if there is room. */
  lemma NextStays(p: Pass, before: Txs, current: Nonces, a: Addr, n: nat, queued: Txs, pending: Txs, left: Txs, h: Hash)
    requires Passed(p, queued, NonceOf(current, a), pending, left) && Keyed(queued) && Guess(before, current, a, p.guess)
    requires IsPending(before, a, n) && (forall g | g in before && before[g].from == Some(a) :: before[g].nonce <= n)
    requires n >= NonceOf(current, a) && h in queued && queued[h].nonce == n + 1
    ensures p.guess == n && h !in pending && (|p.order| <= MAX_QUEUED ==> h in left)
  {
    var rank := MovesIff(p, queued, NonceOf(current, a), pending, left, h);
    assert p.moved <= rank;
  }

  /** Every sender listed has had its pass. */
  ghost predicate AllPassed(passes: map<Addr, Pass>, before: map<Addr, Txs>, current: Nonces, pending: Txs, queue: map<Addr, Txs>)
  {
    forall a | a in passes ::
      a in before && Passed(passes[a], before[a], NonceOf(current, a), pending, QueueOf(queue, a))
  }

  /** The pass of one sender leaves those of all others as they were. */
  lemma AllKept(txOf: Hash -> Tx, passes: map<Addr, Pass>, before: map<Addr, Txs>, current: Nonces,
                p: Txs, q: map<Addr, Txs>, pending: Txs, queue: map<Addr, Txs>, a: Addr, pass: Pass)
    requires FiledQueue(txOf, before) && a !in passes && a in before && AllPassed(passes, before, current, p, q)
    requires OthersKept(queue, q, a) && Grown(pending, p, before[a], pass.guess)
    requires Passed(pass, before[a], NonceOf(current, a), pending, QueueOf(queue, a))
    ensures AllPassed(passes[a := pass], before, current, pending, queue)
  {
    hide Passed, Filed;
    forall b | b in passes ensures Passed(passes[b], before[b], NonceOf(current, b), pending, QueueOf(queue, b)) {
      PassKept(txOf, passes[b], b, before[b], NonceOf(current, b), p, QueueOf(q, b), a, before[a], pending);
    }
  }

  /** The queues still to be looked at are as they were, and no queue is new. */
  ghost predicate Untouched(queue: map<Addr, Txs>, before: map<Addr, Txs>, todo: set<Addr>)
  {
    queue.Keys <= before.Keys && forall a | a in todo :: a in queue && a in before && queue[a] == before[a]
  }

  /** The passes are those of the other senders, each with the nonce guessed for it. */
  ghost predicate Looked(passes: map<Addr, Pass>, before: map<Addr, Txs>, guess: Guesses, todo: set<Addr>)
  {
    passes.Keys == before.Keys - todo && forall a | a in passes :: a in guess && passes[a].guess == guess[a]
  }

  /** What a check of the queue has done when these senders are still to be looked at. */
  ghost predicate Progress(passes: map<Addr, Pass>, q0: map<Addr, Txs>, guess: Guesses, current: Nonces, p0: Txs,
                           pending: Txs, queue: map<Addr, Txs>, g: Guesses, todo: set<Addr>)
  {
    && g == Later(guess, passes) && (forall a | a in todo :: a in guess)
    && todo <= queue.Keys && Moved(pending, p0, q0) && Bounded(queue, todo)
    && Untouched(queue, q0, todo) && Looked(passes, q0, guess, todo) && AllPassed(passes, q0, current, pending, queue)
  }

  /**
   What a check of the queue does: every sender has had its pass, nothing else changed, and no sender has more
   than 64 transactions queued.
   */
  ghost predicate Checked(passes: map<Addr, Pass>, q0: map<Addr, Txs>, guess: Guesses, current: Nonces, p0: Txs,
                          pending: Txs, queue: map<Addr, Txs>, g: Guesses)
  {
    && queue.Keys <= passes.Keys && passes.Keys == q0.Keys && AllPassed(passes, q0, current, pending, queue)
    && Moved(pending, p0, q0) && Bounded(queue, {})
    && g == Later(guess, passes) && forall a | a in passes :: a in guess && passes[a].guess == guess[a]
  }

  lemma AtFirst(queue: map<Addr, Txs>, guess: Guesses, current: Nonces, pending: Txs)
    requires forall a: Addr :: a in guess
    ensures Progress(map[], queue, guess, current, pending, pending, queue, guess, queue.Keys)
  {
    NoneLater(guess);
  }

  lemma ToLook(passes: map<Addr, Pass>, q0: map<Addr, Txs>, guess: Guesses, current: Nonces, p0: Txs,
               pending: Txs, queue: map<Addr, Txs>, g: Guesses, todo: set<Addr>, a: Addr)
    requires Progress(passes, q0, guess, current, p0, pending, queue, g, todo) && a in todo
    ensures a in queue
  {}

  lemma AllLooked(passes: map<Addr, Pass>, q0: map<Addr, Txs>, guess: Guesses, current: Nonces, p0: Txs,
                  pending: Txs, queue: map<Addr, Txs>, g: Guesses)
    requires Progress(passes, q0, guess, current, p0, pending, queue, g, {})
    ensures Checked(passes, q0, guess, current, p0, pending, queue, g)
  {
    hide AllPassed, Moved, Bounded, Later;
  }

  lemma UntouchedStep(queue: map<Addr, Txs>, q: map<Addr, Txs>, q0: map<Addr, Txs>, todo: set<Addr>, a: Addr)
    requires Untouched(q, q0, todo) && a in todo
    requires OthersKept(queue, q, a)
    ensures todo - {a} <= queue.Keys && Untouched(queue, q0, todo - {a}) && a in q0 && q[a] == q0[a]
  {
    forall b | b in queue.Keys ensures b in q0.Keys {
      assert b == a || b in q;
    }
    forall b | b in todo && b != a ensures b in queue && queue[b] == q0[b] {
      assert QueueOf(queue, b) == QueueOf(q, b);
    }
  }

  lemma LookedStep(passes: map<Addr, Pass>, q0: map<Addr, Txs>, guess: Guesses, todo: set<Addr>, a: Addr, pass: Pass)
    requires Looked(passes, q0, guess, todo) && a in todo && a in q0 && a in guess && pass.guess == guess[a]
    ensures Looked(passes[a := pass], q0, guess, todo - {a}) && a !in passes
  {}

  lemma MovedMore(txOf: Hash -> Tx, pending: Txs, p: Txs, p0: Txs, q0: map<Addr, Txs>, a: Addr, guessed: nat)
    requires FiledQueue(txOf, q0) && a in q0 && Grown(pending, p, q0[a], guessed) && Moved(p, p0, q0)
    ensures Moved(pending, p0, q0)
  {}

  lemma NextLooked(txOf: Hash -> Tx, passes: map<Addr, Pass>, q0: map<Addr, Txs>, guess: Guesses, current: Nonces, p0: Txs,
                   p: Txs, q: map<Addr, Txs>, g: Guesses, pending: Txs, queue: map<Addr, Txs>, todo: set<Addr>, a: Addr, pass: Pass)
    requires FiledQueue(txOf, q0) && a in todo && a in q && a in g && pass.guess == g[a]
    requires Progress(passes, q0, guess, current, p0, p, q, g, todo)
    requires Grown(pending, p, q[a], pass.guess) && |QueueOf(queue, a)| <= MAX_QUEUED && OthersKept(queue, q, a)
    requires Passed(pass, q[a], NonceOf(current, a), pending, QueueOf(queue, a))
    ensures Progress(passes[a := pass], q0, guess, current, p0, pending, queue, g[a := After(pass)], todo - {a})
  {
    hide Passed, AllPassed, FiledQueue, Looked, Untouched, Bounded, Moved, Grown, QueueOf, Later, OthersKept;
    LaterStep(guess, passes, a, pass);
    UntouchedStep(queue, q, q0, todo, a);
    LookedOnce(passes, q0, guess, todo, a);
    LookedStep(passes, q0, guess, todo, a, pass);
    BoundedStep(queue, q, todo, a);
    MovedMore(txOf, pending, p, p0, q0, a, pass.guess);
    AllKept(txOf, passes, q0, current, p, q, pending, queue, a, pass);
  }

  lemma LookedOnce(passes: map<Addr, Pass>, q0: map<Addr, Txs>, guess: Guesses, todo: set<Addr>, a: Addr)
    requires Looked(passes, q0, guess, todo) && a in todo
    ensures a !in passes
  {}

  /** What another sender's pass adds to pending changes nothing for this one. */
  lemma PassKept(txOf: Hash -> Tx, p: Pass, a: Addr, queued: Txs, trueNonce: nat, pending: Txs, left: Txs,
                 b: Addr, other: Txs, pending2: Txs)
    requires Passed(p, queued, trueNonce, pending, left) && a != b && Filed(txOf, queued) && Filed(txOf, other)
    requires forall h | h in queued :: queued[h].from == Some(a)
    requires forall h | h in other :: other[h].from == Some(b)
    requires (forall h | h in pending :: h in pending2) && forall h | h in pending2 && h !in pending :: h in other
    ensures Passed(p, queued, trueNonce, pending2, left)
  {
    hide Sorted, Distinct;
    forall i | 0 <= i < |p.order| ensures p.order[i].hash in pending2 ==> p.order[i].hash in pending {
      assert p.order[i] in p.order;
    }
  }

  class Pool {
    /** A hash stands for one transaction. */
    ghost const txOf: Hash -> Tx
    var pending: Txs
    var queue: map<Addr, Txs>
    /** The nonces and balances of the chain's current state. */
    var current: Nonces
    var balances: map<Addr, nat>
    var gasLimit: nat
    var minGasPrice: nat
    var state: ManagedState

    ghost predicate Tracked()
      reads this, state
    {
      AllFilled(pending, current, state.Guesses())
    }

    ghost predicate Valid()
      reads this, state
    {
      Filed(txOf, pending) && FiledQueue(txOf, queue) && Apart(queue, pending) && NoGaps(pending, current) && Tracked()
    }

    constructor (ghost txOf: Hash -> Tx, current: Nonces, balances: map<Addr, nat>, gasLimit: nat)
      ensures Valid() && this.txOf == txOf && pending == map[] && queue == map[]
      ensures this.current == current && this.balances == balances && this.gasLimit == gasLimit && minGasPrice == 0
      ensures fresh(state) && forall a: Addr :: state.Guesses()[a] == NonceOf(current, a)
    {
      this.txOf := txOf;
      this.current := current;
      this.balances := balances;
      this.gasLimit := gasLimit;
      minGasPrice := 0;
      pending, queue := map[], map[];
      state := new ManagedState(current);
    }

    /** The chain moves on; account nonces never fall. */
    method Advance(next: Nonces, nextBalances: map<Addr, nat>)
      requires Valid() && forall a :: NonceOf(next, a) >= NonceOf(current, a)
      modifies `current, `balances
      ensures Valid() && current == next && balances == nextBalances
    {
      balances := nextBalances;
      hide FilledTo, NoGaps, AllFilled, ManagedState.Guesses, ManagedState.Nonce;
      ghost var c := current;
      NoGapsMore(pending, pending, c, next);
      current := next;
      AllFilledMore(pending, pending, c, next, state.Guesses());
    }

    lemma NoneEmpty()
      requires Valid()
      ensures forall a | a in queue :: queue[a] != map[]
    {}

    /** The least price accepted changes. */
    method PriceChanged(price: nat)
      requires Valid()
      modifies `minGasPrice
      ensures Valid() && minGasPrice == price
    {
      minGasPrice := price;
    }

    /** addTx: a transaction whose nonce fills the next gap, or one filled already, becomes pending. */
    method AddTx(a: Addr, tx: Tx)
      requires Filed(txOf, pending) && NoGaps(pending, current) && Tracked()
      requires tx == txOf(tx.hash) && tx.from == Some(a) && FilledTo(pending, current, a, tx.nonce)
      modifies `pending, state
      ensures Filed(txOf, pending) && NoGaps(pending, current) && Tracked()
      ensures pending == old(pending)[tx.hash := tx]
      ensures state.Guesses() == if tx.hash in old(pending) then old(state.Guesses()) else old(state.Guesses())[a := tx.nonce + 1]
    {
      hide FilledTo, NoGaps, AllFilled, ManagedState.Guesses, ManagedState.Nonce;
      if tx.hash !in pending {
        ghost var p := pending;
        pending := pending[tx.hash := tx];
        OneMore(p, pending, current, a, tx);
        AllFilledMore(p, pending, current, current, state.Guesses());
        AllFilledSet(pending, current, state.Guesses(), a, tx.nonce + 1);
        state.SetNonce(a, tx.nonce + 1);
      }
    }

    /** The transactions of a list belong to a and are not pending yet. */
    ghost predicate Waiting(a: Addr, addq: seq<Tx>, lo: int)
      reads this
    {
      forall i | 0 <= lo <= i < |addq| :: addq[i] == txOf(addq[i].hash) && addq[i].from == Some(a) && addq[i].hash !in pending
    }

    /**
     Nonces up to the guess become pending, and no others. The guess is read once, so one pass moves nothing
     beyond it; afterwards it is one more than the last nonce moved, which may be less than it was.
     */
    method Promote(a: Addr, addq: seq<Tx>, queued: Txs, guessed: nat) returns (txs: Txs, ghost moved: nat)
      requires Core() && guessed == state.Guesses()[a] && FilledTo(pending, current, a, guessed)
      requires Sorted(addq) && Distinct(addq) && queued.Keys == Hashes(addq, 0, |addq|) && Waiting(a, addq, 0)
      requires Listed(addq, queued)
      modifies `pending, state
      ensures Core()
      ensures Grown(pending, old(pending), queued, guessed)
      ensures forall h | h in txs :: h in queued && txs[h] == queued[h] && h !in pending && txs[h].nonce > guessed
      ensures |txs| <= MAX_QUEUED && moved <= |addq| && Reach(Pass(addq, guessed, moved))
          && Outcome(Pass(addq, guessed, moved), pending, txs)
      ensures state.Guesses() == old(state.Guesses())[a := After(Pass(addq, guessed, moved))]
    {
      hide FilledTo, NoGaps, Filed, Tracked, Sorted, Hashes, Outcome, Reach, Grown, Waiting, Core, Distinct,
          ManagedState.Guesses, ManagedState.Nonce;
      txs, moved := queued, 0;
      NotGrown(pending, queued, guessed);
      ghost var g := state.Guesses();
      SetSame(g, a);
      var i := 0;
      while i < |addq|
        invariant 0 <= i <= |addq| && moved == if i <= MAX_QUEUED then i else MAX_QUEUED + 1
        invariant Core() && FilledTo(pending, current, a, guessed) && Grown(pending, old(pending), queued, guessed)
        invariant Waiting(a, addq, moved) && txs.Keys == Hashes(addq, i, |addq|)
        invariant forall j | 0 <= j < moved :: addq[j].hash in pending && addq[j].nonce <= guessed
        invariant forall h | h in txs :: h in queued && txs[h] == queued[h]
        invariant state.Guesses() == g[a := After(Pass(addq, guessed, moved))]
      {
        var e := addq[i];
        HashesStep(addq, i, |addq|);
        if i > MAX_QUEUED {
          txs := txs - {e.hash};
          i := i + 1;
          continue;
        }
        if e.nonce > guessed {
          StillWaiting(a, addq, i);
          txs := Stop(addq, i, guessed, txs, queued, pending);
          return;
        }
        txs := txs - {e.hash};
        NextWaits(a, addq, i);
        GrownMore(pending, old(pending), queued, guessed, e);
        AddUpTo(a, addq, i, guessed);
        SetTwice(g, a, After(Pass(addq, guessed, moved)), e.nonce + 1);
        i, moved := i + 1, moved + 1;
      }
      HashesNone(addq);
      StillWaiting(a, addq, moved);
      ReachIs(addq, guessed, moved);
      OutcomeIs(addq, guessed, moved, pending, txs);
    }

    /** addTx for a nonce up to the guess: all below the guess stays filled. */
    method AddUpTo(a: Addr, addq: seq<Tx>, i: nat, guessed: nat)
      requires Core() && FilledTo(pending, current, a, guessed) && Distinct(addq)
      requires i < |addq| && addq[i].nonce <= guessed && Waiting(a, addq, i)
      modifies `pending, state
      ensures Core() && FilledTo(pending, current, a, guessed) && Waiting(a, addq, i + 1)
      ensures pending == old(pending)[addq[i].hash := addq[i]] && state.Guesses() == old(state.Guesses())[a := addq[i].nonce + 1]
    {
      hide FilledTo, NoGaps, Filed, Tracked, ManagedState.Guesses, ManagedState.Nonce;
      ghost var p := pending;
      FilledLess(pending, current, a, guessed, addq[i].nonce);
      AddTx(a, addq[i]);
      FilledMore(p, pending, current, current, a, guessed);
    }

    lemma CollectedWait(a: Addr, queued: Txs, kept: Txs, addq: seq<Tx>)
      requires Filed(txOf, queued) && (forall h | h in queued :: queued[h].from == Some(a)) && queued.Keys !! pending.Keys
      requires kept.Keys <= queued.Keys && forall h | h in kept :: kept[h] == queued[h]
      requires forall t :: t in addq <==> t.hash in kept && kept[t.hash] == t
      ensures kept.Keys == Hashes(addq, 0, |addq|) && Listed(addq, kept) && Waiting(a, addq, 0)
    {
      hide Hashes, Listed, ManagedState.Guesses, ManagedState.Nonce;
      Collected(txOf, a, queued, kept, addq, pending);
    }

    lemma NextWaits(a: Addr, addq: seq<Tx>, i: nat)
      requires i < |addq| && Waiting(a, addq, i)
      ensures addq[i].hash !in pending
    {}

    lemma StillWaiting(a: Addr, addq: seq<Tx>, i: nat)
      requires i <= |addq| && Waiting(a, addq, i)
      ensures forall j | i <= j < |addq| :: addq[j].hash !in pending
      ensures forall h | h in Hashes(addq, i, |addq|) :: h !in pending
    {}

    /** Everything but the queue itself is kept while transactions move to pending. */
    ghost predicate Core()
      reads this, state
    {
      Filed(txOf, pending) && NoGaps(pending, current) && Tracked()
    }

    method ReadGuess(a: Addr) returns (guessed: nat)
      requires Core()
      modifies state
      ensures Core() && state.Guesses() == old(state.Guesses()) && guessed == state.Guesses()[a]
      ensures FilledTo(pending, current, a, guessed)
    {
      hide FilledTo, NoGaps, Filed, ManagedState.Guesses, ManagedState.Nonce;
      guessed := state.GetNonce(a);
    }

    /** What of one sender's queue becomes pending and what stays. */
    method MoveReady(a: Addr) returns (txs: Txs, ghost kept: Txs, ghost pass: Pass)
      requires Core() && a in queue && Filed(txOf, queue[a]) && queue[a].Keys !! pending.Keys
      requires forall h | h in queue[a] :: queue[a][h].from == Some(a)
      modifies `pending, state
      ensures Core() && |txs| <= MAX_QUEUED && (forall h | h in kept :: h in queue[a] && kept[h] == queue[a][h])
      ensures pass.guess == old(state.Guesses())[a] && Passed(pass, queue[a], NonceOf(current, a), pending, txs)
      ensures Grown(pending, old(pending), kept, old(state.Guesses()[a]))
          && state.Guesses() == old(state.Guesses())[a := After(pass)]
      ensures forall h | h in txs :: h in kept && txs[h] == kept[h] && h !in pending
    {
      hide FilledTo, NoGaps, Sorted, Distinct, Hashes, Listed, Filed, Outcome, Reach, Passed, Grown, Waiting,
          Tracked, Core, After, ManagedState.Guesses, ManagedState.Nonce;
      FiledIsKeyed(txOf, queue[a]);
      var guessed := ReadGuess(a);
      var addq;
      var left;
      left, addq := Collect(queue[a], NonceOf(current, a));
      kept := left;
      CollectedWait(a, queue[a], kept, addq);
      ghost var moved;
      txs, moved := Promote(a, addq, left, guessed);
      pass := Pass(addq, guessed, moved);
      PassIs(pass, queue[a], kept, NonceOf(current, a), pending, txs);
    }

    /** The queue of one sender. */
    method CheckAddress(a: Addr) returns (ghost pass: Pass)
      requires Valid() && a in queue
      modifies `pending, `queue, state
      ensures Valid() && OthersKept(queue, old(queue), a)
      ensures |QueueOf(queue, a)| <= MAX_QUEUED
      ensures pass.guess == old(state.Guesses())[a] && Passed(pass, old(queue)[a], NonceOf(current, a), pending, QueueOf(queue, a))
      ensures Grown(pending, old(pending), old(queue)[a], old(state.Guesses()[a]))
          && state.Guesses() == old(state.Guesses())[a := After(pass)]
    {
      hide NoGaps, Apart, FiledQueue, Filed, FilledTo, Passed, AllFilled, Grown, QueueOf, OthersKept, After,
          ManagedState.Guesses, ManagedState.Nonce;
      OneQueue(txOf, queue, a, pending);
      ghost var p, kept := pending, map[];
      var txs;
      txs, kept, pass := MoveReady(a);
      GrownLess(pending, p, kept, queue[a], pass.guess);
      Refiled(txOf, queue, a, p, pending, kept, txs);
      Replaced(queue, a, txs);
      if |txs| == 0 {
        assert txs == map[];
        queue := queue - {a};
      } else {
        queue := queue[a := txs];
      }
    }

    /** One more sender. */
    method CheckNext(a: Addr, ghost passes: map<Addr, Pass>, ghost q0: map<Addr, Txs>, ghost guess: Guesses, ghost p0: Txs,
                     ghost todo: set<Addr>)
      returns (ghost passes2: map<Addr, Pass>)
      requires Valid() && FiledQueue(txOf, q0) && a in todo
      requires Progress(passes, q0, guess, current, p0, pending, queue, state.Guesses(), todo)
      modifies `pending, `queue, state
      ensures Valid() && Progress(passes2, q0, guess, current, p0, pending, queue, state.Guesses(), todo - {a})
    {
      hide *;
      ghost var p, q, g := pending, queue, state.Guesses();
      ToLook(passes, q0, guess, current, p0, p, q, g, todo, a);
      ghost var pass := CheckAddress(a);
      NextLooked(txOf, passes, q0, guess, current, p0, p, q, g, pending, queue, todo, a, pass);
      passes2 := passes[a := pass];
    }

    /** checkQueue: every sender has one pass, with the nonce guessed for it before. */
    method CheckQueue() returns (ghost passes: map<Addr, Pass>)
      requires Valid()
      modifies `pending, `queue, state
      ensures Valid() && Checked(passes, old(queue), old(state.Guesses()), current, old(pending), pending, queue, state.Guesses())
    {
      assert FiledQueue(txOf, queue);
      hide *;
      var todo := queue.Keys;
      passes := map[];
      ghost var q0, p0, guess := queue, pending, state.Guesses();
      AtFirst(q0, guess, current, p0);
      while todo != {}
        invariant Valid() && Progress(passes, q0, guess, current, p0, pending, queue, state.Guesses(), todo)
        decreases todo
      {
        var a :| a in todo;
        passes := CheckNext(a, passes, q0, guess, p0, todo);
        todo := todo - {a};
      }
      AllLooked(passes, q0, guess, current, p0, pending, queue, state.Guesses());
    }

    /** validatePool: pending transactions whose nonce has been used are dropped, and no others. */
    method ValidatePool()
      requires Valid()
      modifies `pending
      ensures Valid()
      ensures pending == Unused(old(pending), current)
      ensures forall h | h in pending :: pending[h].from.Some? && pending[h].nonce >= NonceOf(current, pending[h].from.value)
    {
      hide FilledTo, NoGaps, ManagedState.Guesses, ManagedState.Nonce;
      ghost var p := pending;
      var todo := pending.Keys;
      while todo != {}
        invariant todo <= pending.Keys <= p.Keys && forall h | h in pending :: pending[h] == p[h]
        invariant forall h | h in p :: h in pending <==> h in todo || p[h].nonce >= NonceOf(current, p[h].from.value)
        decreases todo
      {
        var h :| h in todo;
        if NonceOf(current, pending[h].from.value) > pending[h].nonce {
          pending := pending - {h};
        }
        todo := todo - {h};
      }
      NoGapsMore(p, pending, current, current);
      AllFilledMore(p, pending, current, current, state.Guesses());
    }

    /** The guessed nonce of a sender becomes its highest pending nonce, not one more. */
    method GuessNonces()
      requires Valid() && Raised(pending, current, state.Guesses(), pending.Keys)
      modifies state
      ensures Valid() && AllGuessed(pending, current, state.Guesses())
    {
      hide FilledTo, NoGaps, IsPending, Filed, FiledQueue, Apart, Tracked, Raised, AllGuessed, ManagedState.Guesses,
          ManagedState.Nonce;
      var todo := pending.Keys;
      while todo != {}
        invariant todo <= pending.Keys && Tracked() && Raised(pending, current, state.Guesses(), todo)
        decreases todo
      {
        var h :| h in todo;
        RaiseTo(h, todo);
        todo := todo - {h};
      }
      AllRaised(pending, current, state.Guesses());
    }

    /** The guess for the sender of a pending transaction is at least its nonce. */
    method RaiseTo(h: Hash, ghost todo: set<Hash>)
      requires Filed(txOf, pending) && NoGaps(pending, current) && Tracked() && h in pending
      requires Raised(pending, current, state.Guesses(), todo)
      modifies state
      ensures Tracked() && Raised(pending, current, state.Guesses(), todo - {h})
    {
      hide FilledTo, NoGaps, AllFilled, Raised, ManagedState.Guesses, ManagedState.Nonce;
      var tx := pending[h];
      var n := state.GetNonce(tx.from.value);
      RaisedStep(pending, current, state.Guesses(), todo, h);
      if n < tx.nonce {
        Own(pending, current, h);
        AllFilledSet(pending, current, state.Guesses(), tx.from.value, tx.nonce);
        state.SetNonce(tx.from.value, tx.nonce);
      }
    }

    /** resetState, when the chain has a new head: every queue has a pass with the highest pending nonce as the guess. */
    method ResetState() returns (ghost passes: map<Addr, Pass>, ghost guesses: Guesses)
      requires Valid()
      modifies this, state
      ensures Valid() && current == old(current) && fresh(state)
      ensures Checked(passes, old(queue), guesses, current, Unused(old(pending), current), pending, queue, state.Guesses())
      ensures unchanged(`balances) && unchanged(`gasLimit) && unchanged(`minGasPrice)
      ensures AllGuessed(Unused(old(pending), current), current, guesses)
    {
      hide FilledTo, NoGaps, Filed, FiledQueue, Apart, Checked, Unused, AllFilled, Raised, AllGuessed,
          ManagedState.Guesses, ManagedState.Nonce;
      state := new ManagedState(current);
      NothingToFill(pending, current, state.Guesses());
      ValidatePool();
      NothingRaised(pending, current, state.Guesses());
      GuessNonces();
      guesses := state.Guesses();
      passes := CheckQueue();
    }

    /** The checks of validateTx on the sender's account, the price and the gas. */
    ghost predicate Acceptable(tx: Tx)
      reads this
    {
      && tx.gasPrice >= minGasPrice && tx.from.Some? && tx.from.value in balances
      && tx.nonce >= NonceOf(current, tx.from.value) && tx.gas <= gasLimit && tx.value >= 0
      && balances[tx.from.value] >= tx.value + tx.gasPrice * tx.gas && tx.gas >= Transition.Intrinsic(tx.data)
    }

    /** validateTx: accepted exactly when all checks hold; the error names one that does not. */
    method ValidateTx(tx: Tx) returns (err: Option<TxError>)
      ensures err.None? <==> Acceptable(tx)
      ensures err == Some(Cheap) <==> tx.gasPrice < minGasPrice
      ensures err == Some(InvalidSender) ==> tx.from.None?
      ensures err == Some(NoAccount) ==> tx.from.Some? && tx.from.value !in balances
      ensures err == Some(NonceTooLow) ==> tx.from.Some? && tx.nonce < NonceOf(current, tx.from.value)
      ensures err == Some(GasLimit) ==> tx.gas > gasLimit
      ensures err == Some(NegativeValue) ==> tx.value < 0
      ensures err == Some(NoFunds) ==>
                tx.from.Some? && tx.from.value in balances && balances[tx.from.value] < tx.value + tx.gasPrice * tx.gas
      ensures err == Some(NoIntrinsicGas) ==> tx.gas < Transition.Intrinsic(tx.data)
      ensures err != Some(Known)
    {
      if minGasPrice > tx.gasPrice {
        return Some(Cheap);
      }
      if tx.from.None? {
        return Some(InvalidSender);
      }
      var from := tx.from.value;
      if from !in balances {
        return Some(NoAccount);
      }
      if NonceOf(current, from) > tx.nonce {
        return Some(NonceTooLow);
      }
      if gasLimit < tx.gas {
        return Some(GasLimit);
      }
      if tx.value < 0 {
        return Some(NegativeValue);
      }
      if balances[from] < tx.value + tx.gasPrice * tx.gas {
        return Some(NoFunds);
      }
      var igas := Transition.IntrinsicGas(tx.data);
      if tx.gas < igas {
        return Some(NoIntrinsicGas);
      }
      return None;
    }

    /** Add: a valid new transaction is queued, then every queue has a pass. */
    method Add(tx: Tx) returns (err: Option<TxError>, ghost passes: map<Addr, Pass>)
      requires Valid() && txOf(tx.hash) == tx
      modifies `pending, `queue, state
      ensures Valid() && state == old(state)
      ensures err == Some(Known) <==> tx.hash in old(pending)
      ensures err.None? <==> tx.hash !in old(pending) && Acceptable(tx)
      ensures err.Some? ==> pending == old(pending) && queue == old(queue) && state.Guesses() == old(state.Guesses())
      ensures err.None? ==> Checked(passes, Enqueued(old(queue), tx.from.value, tx), old(state.Guesses()), current, old(pending),
                                    pending, queue, state.Guesses())
    {
      hide Filed, FiledQueue, Apart, NoGaps, FilledTo, Checked, ManagedState.Guesses, ManagedState.Nonce;
      passes := map[];
      if tx.hash in pending {
        return Some(Known), passes;
      }
      err := ValidateTx(tx);
      if err.Some? {
        return;
      }
      Queued(txOf, queue, pending, tx);
      var from := tx.from.value;
      queue := queue[from := QueueOf(queue, from)[tx.hash := tx]];
      passes := CheckQueue();
    }

    /** Everything but the nonces: hashes stand for their transactions, and nothing is both pending and queued. */
    ghost predicate Kept()
      reads this
    {
      Filed(txOf, pending) && FiledQueue(txOf, queue) && Apart(queue, pending)
    }

    /**
     Nothing depends on the transaction: it is not pending, its nonce is used, another pending one has its
     nonce, or it has the highest nonce and the guess is not beyond it.
     */
    ghost predicate Removable(hash: Hash)
      reads this, state
    {
      hash in pending && pending[hash].from.Some? ==>
        var tx := pending[hash];
        || tx.nonce < NonceOf(current, tx.from.value)
        || IsPending(pending - {hash}, tx.from.value, tx.nonce)
        || (state.Guesses()[tx.from.value] <= tx.nonce
            && forall h | h in pending && pending[h].from == tx.from :: pending[h].nonce <= tx.nonce)
    }

    /** removeTx takes one transaction out. It may open a gap, and does exactly when something depends on it. */
    method RemoveTx(hash: Hash)
      requires Kept()
      modifies `pending, `queue
      ensures Kept() && pending == old(pending) - {hash} && Without(queue, old(queue), {hash})
      ensures old(Valid()) ==> (Valid() <==> old(Removable(hash)))
    {
      hide FilledTo, NoGaps, Filed, FiledQueue, Apart, Without, Removable, ManagedState.Guesses, ManagedState.Nonce;
      ghost var p, filled := pending, GapFree(pending - {hash});
      if Valid() {
        GapIff(hash);
      }
      pending := pending - {hash};
      StillFiled(txOf, p, pending, queue);
      RemoveQueued(hash);
      assert GapFree(pending) == filled;
    }

    /** With these pending transactions no nonce up to the guess or to one of theirs would be missing. */
    ghost predicate GapFree(p: Txs)
      reads `current, `state, state
    {
      NoGaps(p, current) && AllFilled(p, current, state.Guesses())
    }

    /** When a gap opens. */
    lemma GapIff(hash: Hash)
      requires Valid()
      ensures GapFree(pending - {hash}) <==> Removable(hash)
    {
      hide FilledTo, IsPending, FiledQueue, Apart, ManagedState.Guesses, ManagedState.Nonce;
      var p := pending - {hash};
      if Removable(hash) {
        var g := state.Guesses();
        forall a: Addr ensures a in g && FilledTo(p, current, a, g[a]) {
          FillIff(pending, hash, current, a, g[a]);
        }
        forall h | h in p && p[h].from.Some? ensures FilledTo(p, current, p[h].from.value, p[h].nonce) {
          Own(pending, current, h);
          FillIff(pending, hash, current, p[h].from.value, p[h].nonce);
        }
      } else {
        var tx := pending[hash];
        var a := tx.from.value;
        if state.Guesses()[a] > tx.nonce {
          FillIff(pending, hash, current, a, state.Guesses()[a]);
        } else {
          var h :| h in pending && pending[h].from == tx.from && pending[h].nonce > tx.nonce;
          Own(pending, current, h);
          FillIff(pending, hash, current, a, pending[h].nonce);
          assert h in p && p[h] == pending[h];
        }
      }
    }

    /** The search for a queued transaction stops at the first sender that has it; no other can. */
    method RemoveQueued(hash: Hash)
      requires Kept()
      modifies `queue
      ensures Kept() && Without(queue, old(queue), {hash})
    {
      hide Filed, FiledQueue, Apart, ManagedState.Guesses, ManagedState.Nonce;
      var todo := queue.Keys;
      while todo != {}
        invariant todo <= queue.Keys && queue == old(queue)
        invariant forall a | a in queue && a !in todo :: hash !in queue[a]
        decreases todo
      {
        var a :| a in todo;
        todo := todo - {a};
        if hash in queue[a] {
          var txs := queue[a];
          OneSender(txOf, queue, a, hash);
          Shorter(txOf, queue, pending, a, hash);
          if |txs| == 1 {
            OnlyOne(txs, hash);
            queue := queue - {a};
          } else {
            queue := queue[a := txs - {hash}];
          }
          return;
        }
      }
    }

    /** Their nonces are used already. */
    ghost predicate Included(hashes: seq<Hash>)
      reads this
    {
      forall h | h in hashes && h in pending :: pending[h].from.Some? ==> pending[h].nonce < NonceOf(current, pending[h].from.value)
    }

    /** RemoveTransactions takes all of them out; if they are included already, no gap opens. */
    method RemoveTransactions(hashes: seq<Hash>)
      requires Kept()
      modifies `pending, `queue
      ensures Kept() && pending == old(pending) - Members(hashes) && Without(queue, old(queue), Members(hashes))
      ensures old(Valid() && Included(hashes)) ==> Valid()
    {
      hide FilledTo, NoGaps, Filed, FiledQueue, Apart, Tracked, IsPending, Without, ManagedState.Guesses, ManagedState.Nonce;
      ghost var gone: set<Hash> := {};
      NothingGone(queue);
      for i := 0 to |hashes|
        invariant gone == Members(hashes[..i])
        invariant Kept() && pending == old(pending) - gone && Without(queue, old(queue), gone)
        invariant old(Valid() && Included(hashes)) ==> Valid()
      {
        ghost var q := queue;
        assert hashes[i] in hashes;
        RemoveTx(hashes[i]);
        GoneMore(queue, q, old(queue), gone, hashes[i]);
        gone := gone + {hashes[i]};
        assert hashes[..i + 1] == hashes[..i] + [hashes[i]];
        assert Members(hashes[..i + 1]) == Members(hashes[..i]) + {hashes[i]};
      }
      assert hashes[..|hashes|] == hashes;
    }
  }

  /** A hash is in the list once. */
  lemma OneOrder(q: seq<Tx>, h: Hash)
    requires Distinct(q) && forall i | 0 <= i < |q| :: q[i].hash == h
    ensures |q| <= 1
  {
    var i: nat := 0;
    while i < |q|
      invariant i <= 1
    {
      assert q[i].hash == q[0].hash;
      i := i + 1;
    }
  }

  /** A pass over a single transaction. */
  lemma SinglePass(p: Pass, tx: Tx, trueNonce: nat, pending: Txs, left: Txs)
    requires Passed(p, map[tx.hash := tx], trueNonce, pending, left) && tx.nonce >= trueNonce
    ensures tx.nonce <= p.guess ==> tx.hash in pending && left == map[] && After(p) == tx.nonce + 1
    ensures tx.nonce > p.guess ==> tx.hash !in pending && left == map[tx.hash := tx] && After(p) == p.guess
  {
    var rank := MovesIff(p, map[tx.hash := tx], trueNonce, pending, left, tx.hash);
    forall i | 0 <= i < |p.order| ensures p.order[i].hash == tx.hash {
      assert p.order[i] in p.order;
    }
    OneOrder(p.order, tx.hash);
  }

  /** What a check does to a pool whose only queue holds one transaction. */
  lemma SingleCheck(passes: map<Addr, Pass>, a: Addr, tx: Tx, guess: Guesses, current: Nonces, p0: Txs,
                    pending: Txs, queue: map<Addr, Txs>, g: Guesses)
    requires Checked(passes, map[a := map[tx.hash := tx]], guess, current, p0, pending, queue, g)
    requires tx.nonce >= NonceOf(current, a) && tx.hash !in p0 && forall b | b in queue :: queue[b] != map[]
    ensures a in guess
    ensures tx.nonce <= guess[a] ==> queue == map[] && pending == p0[tx.hash := tx]
    ensures tx.nonce > guess[a] ==> queue == map[a := map[tx.hash := tx]] && pending == p0
  {
    hide Passed, Bounded, Moved, Later, QueueOf;
    assert passes.Keys == {a};
    var q0 := map[a := map[tx.hash := tx]];
    assert Passed(passes[a], q0[a], NonceOf(current, a), pending, QueueOf(queue, a));
    SinglePass(passes[a], tx, NonceOf(current, a), pending, QueueOf(queue, a));
    OnlyMoved(pending, p0, a, tx);
    OneQueueLeft(queue, a);
    assert tx.hash in map[tx.hash := tx];
  }

  lemma OneQueueLeft(queue: map<Addr, Txs>, a: Addr)
    requires queue.Keys <= {a} && forall b | b in queue :: queue[b] != map[]
    ensures queue == if QueueOf(queue, a) == map[] then map[] else map[a := QueueOf(queue, a)]
  {
    forall b | b in queue ensures b == a {
      assert b in queue.Keys;
    }
  }

  lemma OnlyMoved(pending: Txs, before: Txs, a: Addr, tx: Tx)
    requires Moved(pending, before, map[a := map[tx.hash := tx]]) && tx.hash !in before
    ensures pending == if tx.hash in pending then before[tx.hash := tx] else before
  {
    forall h | h in pending && h !in before ensures h == tx.hash && pending[h] == tx {}
  }

  /** A check of no queue at all changes nothing. */
  lemma NoCheck(passes: map<Addr, Pass>, guess: Guesses, current: Nonces, p0: Txs, pending: Txs, queue: map<Addr, Txs>, g: Guesses)
    requires Checked(passes, map[], guess, current, p0, pending, queue, g)
    ensures queue == map[] && pending == p0 && g == guess
  {
    hide Bounded;
    assert passes == map[];
    NoneLater(guess);
    forall h | h in pending ensures h in p0 {}
  }

  /** A new head when nothing is queued. */
  method ResetAlone(pool: Pool)
    requires pool.Valid() && pool.queue == map[]
    modifies pool, pool.state
    ensures pool.Valid() && pool.queue == map[] && pool.pending == Unused(old(pool.pending), old(pool.current))
    ensures fresh(pool.state) && AllGuessed(pool.pending, pool.current, pool.state.Guesses())
    ensures unchanged(pool`current) && unchanged(pool`balances) && unchanged(pool`gasLimit) && unchanged(pool`minGasPrice)
  {
    ghost var p := Unused(pool.pending, pool.current);
    hide *;
    ghost var passes, g := pool.ResetState();
    NoCheck(passes, g, pool.current, p, pool.pending, pool.queue, pool.state.Guesses());
  }

  /** A new head when one transaction is queued. */
  method ResetQueued(pool: Pool, ghost a: Addr, ghost tx: Tx) returns (ghost guess: nat)
    requires pool.Valid() && pool.queue == map[a := map[tx.hash := tx]] && tx.nonce >= NonceOf(pool.current, a)
    modifies pool, pool.state
    ensures pool.Valid() && unchanged(pool`current) && Guess(Unused(old(pool.pending), pool.current), pool.current, a, guess)
    ensures tx.nonce > guess ==> pool.queue == old(pool.queue) && pool.pending == Unused(old(pool.pending), pool.current)
  {
    assert tx.hash !in pool.pending by {
      assert pool.queue[a].Keys !! pool.pending.Keys;
    }
    ghost var p := Unused(pool.pending, pool.current);
    hide *;
    ghost var passes, g := pool.ResetState();
    pool.NoneEmpty();
    SingleCheck(passes, a, tx, g, pool.current, p, pool.pending, pool.queue, pool.state.Guesses());
    OneGuessed(p, pool.current, g, a);
    guess := g[a];
  }

  lemma OneGuessed(pending: Txs, current: Nonces, g: Guesses, a: Addr)
    requires AllGuessed(pending, current, g)
    ensures a in g && Guess(pending, current, a, g[a])
  {}

  /** A valid transaction is added to a pool without queues. */
  method AddAlone(pool: Pool, a: Addr, tx: Tx)
    requires pool.Valid() && pool.queue == map[] && pool.txOf(tx.hash) == tx && tx.from == Some(a)
    requires tx.hash !in pool.pending && pool.Acceptable(tx)
    modifies pool`pending, pool`queue, pool.state
    ensures pool.Valid()
    ensures tx.nonce <= old(pool.state.Guesses())[a] ==> pool.queue == map[] && pool.pending == old(pool.pending)[tx.hash := tx]
    ensures tx.nonce > old(pool.state.Guesses())[a] ==>
              pool.queue == map[a := map[tx.hash := tx]] && pool.pending == old(pool.pending)
  {
    ghost var p, g := pool.pending, pool.state.Guesses();
    assert tx.nonce >= NonceOf(pool.current, a);
    assert Enqueued(pool.queue, a, tx) == map[a := map[tx.hash := tx]];
    hide *;
    var err;
    ghost var passes;
    err, passes := pool.Add(tx);
    pool.NoneEmpty();
    SingleCheck(passes, a, tx, g, pool.current, p, pool.pending, pool.queue, pool.state.Guesses());
  }

  /**
   The failing case: nonce 0 is pending, the chain has a new head, nonce 1 is added and stays queued, and
   the next new head does not move it either.
   */
  method NextNonceStays(a: Addr) returns (pool: Pool, first: Tx, second: Tx)
    ensures fresh(pool) && pool.Valid() && first.from == second.from == Some(a) && second.nonce == first.nonce + 1
    ensures pool.pending == map[first.hash := first] && pool.queue == map[a := map[second.hash := second]]
  {
    hide Filed, FiledQueue, Apart, NoGaps, AllFilled, ManagedState.Guesses, Transition.Intrinsic, Guess, Unused, AllGuessed;
    first := Tx(0, Some(a), 0, 0, 21000, 0, []);
    second := Tx(1, Some(a), 1, 0, 21000, 0, []);
    NoData();
    ghost var txOf: Hash -> Tx := (h: Hash) => if h == 1 then second else first;
    pool := new Pool(txOf, map[], map[a := 0], 21000);
    AddAlone(pool, a, first);
    FirstUnused(first);
    ResetAlone(pool);
    OneGuessed(pool.pending, map[], pool.state.Guesses(), a);
    FirstGuess(first, a, pool.state.Guesses()[a]);
    AddAlone(pool, a, second);
    ghost var g := ResetQueued(pool, a, second);
    FirstGuess(first, a, g);
  }

  lemma FirstUnused(tx: Tx)
    ensures Unused(map[tx.hash := tx], map[]) == map[tx.hash := tx]
  {}

  lemma FirstGuess(tx: Tx, a: Addr, g: nat)
    requires Guess(map[tx.hash := tx], map[], a, g) && tx.nonce == 0
    ensures g == 0
  {}

  lemma NoData()
    ensures Transition.Intrinsic([]) == 21000
  {}

  ghost function Members(hashes: seq<Hash>): (s: set<Hash>)
  {
    set h | h in hashes
  }

  /** The pending transactions whose nonce is not used yet. */
  ghost function Unused(pending: Txs, current: Nonces): (p: Txs)
  {
    map h | h in pending && (pending[h].from.Some? ==> pending[h].nonce >= NonceOf(current, pending[h].from.value)) :: pending[h]
  }

  /** Every queue without some transactions. */
  ghost predicate Without(queue: map<Addr, Txs>, before: map<Addr, Txs>, gone: set<Hash>)
  {
    forall a :: QueueOf(queue, a) == QueueOf(before, a) - gone
  }

  lemma NothingGone(queue: map<Addr, Txs>)
    ensures Without(queue, queue, {})
  {}

  lemma GoneMore(queue: map<Addr, Txs>, q: map<Addr, Txs>, before: map<Addr, Txs>, gone: set<Hash>, hash: Hash)
    requires Without(q, before, gone) && Without(queue, q, {hash})
    ensures Without(queue, before, gone + {hash})
  {
    forall a ensures QueueOf(queue, a) == QueueOf(before, a) - (gone + {hash}) {
      assert QueueOf(queue, a) == QueueOf(q, a) - {hash};
    }
  }

  /** Without one transaction the nonces up to n stay filled unless it alone fills one of them. */
  lemma FillIff(p: Txs, hash: Hash, c: Nonces, a: Addr, n: nat)
    requires FilledTo(p, c, a, n)
    ensures !FilledTo(p - {hash}, c, a, n) <==>
              hash in p && p[hash].from == Some(a) && NonceOf(c, a) <= p[hash].nonce < n && !IsPending(p - {hash}, a, p[hash].nonce)
  {
    forall m | NonceOf(c, a) <= m < n && !IsPending(p - {hash}, a, m)
      ensures hash in p && p[hash].from == Some(a) && p[hash].nonce == m
    {
      assert IsPending(p, a, m);
      var h :| h in p && p[h].from == Some(a) && p[h].nonce == m;
      assert h == hash || h in p - {hash};
    }
  }

  /** What was pending stays, and what is new was queued with a nonce up to the guess. */
  ghost predicate Grown(pending: Txs, before: Txs, queued: Txs, guessed: nat)
  {
    && Extends(pending, before)
    && (forall h | h in pending && h !in before :: h in queued && pending[h] == queued[h] && pending[h].nonce <= guessed)
  }

  ghost predicate Extends(pending: Txs, before: Txs)
  {
    forall h | h in before :: h in pending && pending[h] == before[h]
  }

  /** What was pending stays, and what is new was queued for its sender. */
  ghost predicate Moved(pending: Txs, before: Txs, queue: map<Addr, Txs>)
  {
    && Extends(pending, before)
    && forall h | h in pending && h !in before ::
         pending[h].from.Some? && var q := QueueOf(queue, pending[h].from.value); h in q && pending[h] == q[h]
  }

  lemma NotGrown(pending: Txs, queued: Txs, guessed: nat)
    ensures Grown(pending, pending, queued, guessed)
  {}

  lemma GrownLess(pending: Txs, before: Txs, kept: Txs, queued: Txs, guessed: nat)
    requires Grown(pending, before, kept, guessed) && forall h | h in kept :: h in queued && kept[h] == queued[h]
    ensures Grown(pending, before, queued, guessed) && forall h | h in pending && h !in before :: h in kept
  {}

  lemma GrownMore(pending: Txs, before: Txs, queued: Txs, guessed: nat, e: Tx)
    requires Grown(pending, before, queued, guessed) && e.hash !in pending
    requires e.hash in queued && queued[e.hash] == e && e.nonce <= guessed
    ensures Grown(pending[e.hash := e], before, queued, guessed)
  {}

  lemma OnlyOne(txs: Txs, hash: Hash)
    requires hash in txs && |txs| == 1
    ensures txs.Keys == {hash}
  {
    assert |txs.Keys - {hash}| == 0;
  }

  lemma Own(p: Txs, c: Nonces, h: Hash)
    requires NoGaps(p, c) && h in p && p[h].from.Some?
    ensures FilledTo(p, c, p[h].from.value, p[h].nonce)
  {}

  lemma NothingToFill(p: Txs, c: Nonces, g: Guesses)
    requires forall a: Addr :: a in g && g[a] == NonceOf(c, a)
    ensures AllFilled(p, c, g)
  {}

  /** A transaction is queued for one sender only. */
  lemma OneSender(txOf: Hash -> Tx, queue: map<Addr, Txs>, a: Addr, h: Hash)
    requires FiledQueue(txOf, queue) && a in queue && h in queue[a]
    ensures forall b | b in queue && b != a :: h !in queue[b]
  {
    assert txOf(h).from == Some(a);
  }

  lemma Collected(txOf: Hash -> Tx, a: Addr, queued: Txs, kept: Txs, addq: seq<Tx>, pending: Txs)
    requires Filed(txOf, queued) && (forall h | h in queued :: queued[h].from == Some(a)) && queued.Keys !! pending.Keys
    requires kept.Keys <= queued.Keys && forall h | h in kept :: kept[h] == queued[h]
    requires forall t :: t in addq <==> t.hash in kept && kept[t.hash] == t
    ensures kept.Keys == Hashes(addq, 0, |addq|) && Listed(addq, kept)
    ensures forall i | 0 <= i < |addq| :: addq[i] == txOf(addq[i].hash) && addq[i].from == Some(a) && addq[i].hash !in pending
  {
    forall i | 0 <= i < |addq|
      ensures addq[i].hash in kept && kept[addq[i].hash] == addq[i]
    {
      assert addq[i] in addq;
    }
    forall h | h in kept ensures h in Hashes(addq, 0, |addq|) {
      assert kept[h] in addq;
    }
  }

  /** Queueing a new transaction under its sender keeps the queue well filed and apart. */
  lemma Queued(txOf: Hash -> Tx, queue: map<Addr, Txs>, pending: Txs, tx: Tx)
    requires FiledQueue(txOf, queue) && Apart(queue, pending) && tx == txOf(tx.hash) && tx.from.Some? && tx.hash !in pending
    ensures var a := tx.from.value;
            var q := Enqueued(queue, a, tx);
            FiledQueue(txOf, q) && Apart(q, pending)
  {
    assert tx.hash in Enqueued(queue, tx.from.value, tx)[tx.from.value];
  }

  lemma StillFiled(txOf: Hash -> Tx, p: Txs, p2: Txs, queue: map<Addr, Txs>)
    requires Filed(txOf, p) && Apart(queue, p) && p2.Keys <= p.Keys && forall h | h in p2 :: p2[h] == p[h]
    ensures Filed(txOf, p2) && Apart(queue, p2)
  {}

  /** Taking one transaction out of one sender's queue. */
  lemma Shorter(txOf: Hash -> Tx, queue: map<Addr, Txs>, pending: Txs, a: Addr, hash: Hash)
    requires FiledQueue(txOf, queue) && Apart(queue, pending) && a in queue
    ensures FiledQueue(txOf, queue - {a}) && Apart(queue - {a}, pending)
    ensures |queue[a]| > 1 ==> FiledQueue(txOf, queue[a := queue[a] - {hash}]) && Apart(queue[a := queue[a] - {hash}], pending)
  {
    SomeLeft(queue[a], hash);
  }

  lemma SomeLeft(txs: Txs, hash: Hash)
    ensures |txs| > 1 ==> txs - {hash} != map[]
  {
    var rest := txs.Keys - {hash};
    assert |rest| >= |txs.Keys| - 1;
    if |rest| > 0 {
      var h :| h in rest;
      assert h in txs - {hash};
    }
  }

  lemma FiledIsKeyed(txOf: Hash -> Tx, txs: Txs)
    requires Filed(txOf, txs)
    ensures Keyed(txs)
  {}

  lemma OneQueue(txOf: Hash -> Tx, queue: map<Addr, Txs>, a: Addr, pending: Txs)
    requires FiledQueue(txOf, queue) && Apart(queue, pending) && a in queue
    ensures Filed(txOf, queue[a]) && (forall h | h in queue[a] :: queue[a][h].from == Some(a)) && queue[a].Keys !! pending.Keys
  {}

  /** The queue stays well filed and apart from what is pending when one sender's part is replaced. */
  lemma Refiled(txOf: Hash -> Tx, queue: map<Addr, Txs>, a: Addr, p: Txs, p2: Txs, kept: Txs, txs: Txs)
    requires FiledQueue(txOf, queue) && Apart(queue, p) && a in queue
    requires forall h | h in kept :: h in queue[a] && kept[h] == queue[a][h]
    requires forall h | h in p2 && h !in p :: h in kept
    requires forall h | h in txs :: h in kept && txs[h] == kept[h] && h !in p2
    ensures FiledQueue(txOf, queue - {a}) && Apart(queue - {a}, p2)
    ensures txs != map[] ==> FiledQueue(txOf, queue[a := txs]) && Apart(queue[a := txs], p2)
  {
    StillApart(txOf, queue, a, p, p2, kept);
  }

  /** What becomes pending was queued for one sender, so it is in no other sender's queue. */
  lemma StillApart(txOf: Hash -> Tx, queue: map<Addr, Txs>, a: Addr, p: Txs, p2: Txs, kept: Txs)
    requires FiledQueue(txOf, queue) && Apart(queue, p) && a in queue && kept.Keys <= queue[a].Keys
    requires forall h | h in p2 && h !in p :: h in kept
    ensures forall b | b in queue && b != a :: queue[b].Keys !! p2.Keys
  {
    forall b, h | b in queue && b != a && h in queue[b] ensures h !in p2 {
      assert queue[b][h].from == Some(b);
      assert h in queue[a] ==> queue[a][h].from == Some(a);
    }
  }

  ghost predicate Listed(addq: seq<Tx>, queued: Txs)
  {
    forall j | 0 <= j < |addq| :: addq[j].hash in queued && queued[addq[j].hash] == addq[j]
  }

  /** Everything from position i + 64 on is dropped. */
  method DropFrom(addq: seq<Tx>, i: nat, queued: Txs) returns (txs: Txs)
    requires Distinct(addq) && i + MAX_QUEUED < |addq| && queued.Keys == Hashes(addq, i, |addq|)
    ensures txs.Keys == Hashes(addq, i, i + MAX_QUEUED) && forall h | h in txs :: h in queued && txs[h] == queued[h]
  {
    hide Hashes;
    txs := queued;
    var k := i + MAX_QUEUED;
    HashesApart(addq, i, k);
    for j := k to |addq|
      invariant Hashes(addq, i, k) !! Hashes(addq, j, |addq|)
      invariant txs.Keys == Hashes(addq, i, k) + Hashes(addq, j, |addq|)
      invariant forall h | h in txs :: h in queued && txs[h] == queued[h]
    {
      HashesStep(addq, j, |addq|);
      txs := txs - {addq[j].hash};
    }
    HashesNone(addq);
  }

  /** The first nonce beyond the guess ends the pass: it and the next 63 stay queued. */
  method Stop(addq: seq<Tx>, i: nat, guessed: nat, left: Txs, queued: Txs, ghost pending: Txs) returns (txs: Txs)
    requires Sorted(addq) && Distinct(addq) && Listed(addq, queued) && i < |addq| && i <= MAX_QUEUED && addq[i].nonce > guessed
    requires left.Keys == Hashes(addq, i, |addq|) && (forall h | h in left :: h in queued && left[h] == queued[h])
    requires forall j | 0 <= j < i :: addq[j].hash in pending && addq[j].nonce <= guessed
    requires forall h | h in Hashes(addq, i, |addq|) :: h !in pending
    ensures |txs| <= MAX_QUEUED && Reach(Pass(addq, guessed, i)) && Outcome(Pass(addq, guessed, i), pending, txs)
    ensures forall h | h in txs :: h in queued && txs[h] == queued[h] && h !in pending && txs[h].nonce > guessed
  {
    hide Sorted, Hashes, Reach, Outcome;
    txs := left;
    HashCount(addq, i, if |addq| - i > MAX_QUEUED then i + MAX_QUEUED else |addq|);
    if |addq| - i > MAX_QUEUED {
      txs := DropFrom(addq, i, txs);
      HashesApart(addq, i, i + MAX_QUEUED);
    }
    assert |txs| == |txs.Keys|;
    Beyond(addq, i, guessed, txs, queued);
    ReachIs(addq, guessed, i);
    forall j | i <= j < |addq| ensures addq[j].hash !in pending {
      InHashes(addq, i, j);
    }
    OutcomeIs(addq, guessed, i, pending, txs);
  }

  lemma InHashes(q: seq<Tx>, i: nat, j: nat)
    requires i <= j < |q|
    ensures q[j].hash in Hashes(q, i, |q|)
  {}

  lemma ReachIs(addq: seq<Tx>, guessed: nat, moved: nat)
    requires Sorted(addq) && moved <= |addq| && moved <= MAX_QUEUED + 1
    requires forall j | 0 <= j < moved :: addq[j].nonce <= guessed
    requires moved < |addq| ==> moved == MAX_QUEUED + 1 || addq[moved].nonce > guessed
    ensures Reach(Pass(addq, guessed, moved))
  {}

  /** The first moved ones are pending; of the others the next 64 are left, or none. */
  lemma OutcomeIs(addq: seq<Tx>, guessed: nat, moved: nat, pending: Txs, txs: Txs)
    requires moved <= |addq| && Distinct(addq)
    requires forall j | 0 <= j < |addq| :: addq[j].hash in pending <==> j < moved
    requires txs.Keys == if moved <= MAX_QUEUED then
                           Hashes(addq, moved, if |addq| - moved > MAX_QUEUED then moved + MAX_QUEUED else |addq|)
                         else {}
    ensures Outcome(Pass(addq, guessed, moved), pending, txs)
  {
    forall i | 0 <= i < |addq|
      ensures addq[i].hash in txs <==> moved <= MAX_QUEUED && moved <= i < moved + MAX_QUEUED
    {
    }
  }

  lemma FilledLess(p: Txs, c: Nonces, a: Addr, n: nat, m: nat)
    requires FilledTo(p, c, a, n) && m <= n
    ensures FilledTo(p, c, a, m)
  {}

  /** In a list sorted by nonce, all from the first nonce beyond the guess on are beyond it. */
  lemma Beyond(addq: seq<Tx>, i: nat, guessed: nat, txs: Txs, queued: Txs)
    requires Sorted(addq) && i < |addq| && addq[i].nonce > guessed && txs.Keys <= Hashes(addq, i, |addq|)
    requires forall h | h in txs :: h in queued && txs[h] == queued[h]
    requires Listed(addq, queued)
    ensures forall h | h in txs :: txs[h].nonce > guessed
  {
    forall h | h in txs ensures txs[h].nonce > guessed {
      var j :| i <= j < |addq| && addq[j].hash == h;
      assert queued[addq[j].hash] == addq[j];
    }
  }

  /** Adding a transaction up to whose nonce all is filled keeps the pending nonces without gaps. */
  lemma OneMore(p: Txs, p2: Txs, c: Nonces, a: Addr, tx: Tx)
    requires NoGaps(p, c) && tx.from == Some(a) && FilledTo(p, c, a, tx.nonce)
    requires tx.hash !in p && p2 == p[tx.hash := tx]
    ensures NoGaps(p2, c) && FilledTo(p2, c, a, tx.nonce + 1)
  {
    forall h | h in p2 && p2[h].from.Some? ensures FilledTo(p2, c, p2[h].from.value, p2[h].nonce) {
      FilledMore(p, p2, c, c, p2[h].from.value, p2[h].nonce);
    }
    FilledMore(p, p2, c, c, a, tx.nonce);
    assert p2[tx.hash] == tx;
    assert IsPending(p2, a, tx.nonce);
  }
}
