/** The world state as a value: accounts with balances, the refund counter and the logs. */
module World {
  import opened Bytes

  type Addr = nat

  /** pool is the block gas still for sale; only the coinbase has any. */
  datatype Account = Account(balance: nat, nonce: nat, code: seq<Byte>, storage: map<nat, nat>, removed: bool, pool: nat)

  datatype Log = Log(address: Addr, topics: seq<nat>, data: seq<Byte>)

  datatype State = State(accounts: map<Addr, Account>, refund: nat, logs: seq<Log>)

  const NEW_ACCOUNT := Account(0, 0, [], map[], false, 0)

  // ---------- the sum of all balances ----------

  ghost function Total(m: map<Addr, Account>): (t: nat)
  {
    if m == map[] then 0
    else
      var a :| a in m;
      m[a].balance + Total(m - {a})
  }

  lemma {:induction false} TotalWithout(m: map<Addr, Account>, a: Addr)
    requires a in m
    ensures Total(m) == m[a].balance + Total(m - {a})
    decreases |m|
  {
    var b :| b in m && Total(m) == m[b].balance + Total(m - {b});
    if a != b {
      TotalWithout(m - {b}, a);
      TotalWithout(m - {a}, b);
      assert m - {b} - {a} == m - {a} - {b};
    }
  }

  /** Replacing or adding one account moves the total by the change of its balance. */
  lemma TotalUpdate(m: map<Addr, Account>, a: Addr, x: Account)
    ensures Total(m[a := x]) == Total(m) - (if a in m then m[a].balance else 0) + x.balance
  {
    var n := m[a := x];
    TotalWithout(n, a);
    if a in m {
      TotalWithout(m, a);
      assert n - {a} == m - {a};
    } else {
      assert n - {a} == m;
    }
  }

  // ---------- operations ----------

  function Has(w: State, a: Addr): bool
  {
    a in w.accounts
  }

  function Put(w: State, a: Addr, x: Account): (r: State)
  {
    w.(accounts := w.accounts[a := x])
  }

  /** GetOrNewStateObject. */
  function Touch(w: State, a: Addr): (r: State)
    ensures a in r.accounts
  {
    if a in w.accounts then w else Put(w, a, NEW_ACCOUNT)
  }

  /** CreateAccount: a fresh account that inherits only the balance. */
  function Create(w: State, a: Addr): (r: State)
    ensures a in r.accounts
  {
    Put(w, a, NEW_ACCOUNT.(balance := if a in w.accounts then w.accounts[a].balance else 0))
  }

  function Balance(w: State, a: Addr): (b: nat)
  {
    if a in w.accounts then w.accounts[a].balance else 0
  }

  function AddBalance(w: State, a: Addr, v: nat): (r: State)
  {
    var t := Touch(w, a);
    Put(t, a, t.accounts[a].(balance := t.accounts[a].balance + v))
  }

  function SubBalance(w: State, a: Addr, v: nat): (r: State)
    requires a in w.accounts && w.accounts[a].balance >= v
  {
    Put(w, a, w.accounts[a].(balance := w.accounts[a].balance - v))
  }

  function SetNonce(w: State, a: Addr, n: nat): (r: State)
  {
    var t := Touch(w, a);
    Put(t, a, t.accounts[a].(nonce := n))
  }

  function Nonce(w: State, a: Addr): (n: nat)
  {
    if a in w.accounts then w.accounts[a].nonce else 0
  }

  function Code(w: State, a: Addr): (c: seq<Byte>)
  {
    if a in w.accounts then w.accounts[a].code else []
  }

  function SetCode(w: State, a: Addr, c: seq<Byte>): (r: State)
  {
    var t := Touch(w, a);
    Put(t, a, t.accounts[a].(code := c))
  }

  function Storage(w: State, a: Addr, k: nat): (v: nat)
  {
    if a in w.accounts && k in w.accounts[a].storage then w.accounts[a].storage[k] else 0
  }

  function SetStorage(w: State, a: Addr, k: nat, v: nat): (r: State)
  {
    var t := Touch(w, a);
    Put(t, a, t.accounts[a].(storage := t.accounts[a].storage[k := v]))
  }

  function Removed(w: State, a: Addr): bool
  {
    a in w.accounts && w.accounts[a].removed
  }

  /** Delete: marked for removal and emptied, but still present. */
  function Delete(w: State, a: Addr): (r: State)
  {
    if a in w.accounts then Put(w, a, w.accounts[a].(removed := true, balance := 0)) else w
  }

  /** Transfer between existing accounts, possibly one and the same. */
  function Transfer(w: State, from: Addr, to: Addr, v: nat): (r: State)
    requires from in w.accounts && to in w.accounts && w.accounts[from].balance >= v
  {
    AddBalance(SubBalance(w, from, v), to, v)
  }

  /** SUICIDE: the balance moves to the receiver, then the contract is deleted. */
  function Suicide(w: State, a: Addr, to: Addr): (r: State)
  {
    Delete(AddBalance(w, to, Balance(Touch(w, to), a)), a)
  }

  // ---------- what execution keeps ----------

  ghost function Wei(w: State): (t: nat)
  {
    Total(w.accounts)
  }

  /** The gas pool of an account. */
  function Pool(w: State, a: Addr): (p: nat)
  {
    if a in w.accounts then w.accounts[a].pool else 0
  }

  /** From w to r no account disappears, and the gas pool of the coinbase cb stays. */
  ghost predicate Keeps(w: State, r: State, cb: Addr)
  {
    w.accounts.Keys <= r.accounts.Keys && Pool(w, cb) == Pool(r, cb)
  }

  lemma KeepsSelf(w: State, cb: Addr)
    ensures Keeps(w, w, cb)
  {}

  lemma KeepsThen(w: State, x: State, r: State, cb: Addr)
    requires Keeps(w, x, cb) && Keeps(x, r, cb)
    ensures Keeps(w, r, cb)
  {}

  /** Changing one account without touching its balance or pool. */
  lemma KeepsPut(w: State, a: Addr, x: Account, cb: Addr)
    requires x.balance == Balance(w, a) && x.pool == Pool(w, a)
    ensures Keeps(w, Put(w, a, x), cb) && Wei(Put(w, a, x)) == Wei(w)
  {
    TotalUpdate(w.accounts, a, x);
  }

  lemma KeepsTouch(w: State, a: Addr, cb: Addr)
    ensures Keeps(w, Touch(w, a), cb) && Wei(Touch(w, a)) == Wei(w)
  {
    if a !in w.accounts {
      KeepsPut(w, a, NEW_ACCOUNT, cb);
    }
  }

  lemma WeiCreate(w: State, a: Addr)
    ensures Wei(Create(w, a)) == Wei(w)
  {
    TotalUpdate(w.accounts, a, Create(w, a).accounts[a]);
  }

  lemma KeepsCreate(w: State, a: Addr, cb: Addr)
    requires a != cb
    ensures Keeps(w, Create(w, a), cb) && Wei(Create(w, a)) == Wei(w)
  {
    WeiCreate(w, a);
  }

  lemma WeiAdd(w: State, a: Addr, v: nat, cb: Addr)
    ensures var r := AddBalance(w, a, v); Wei(r) == Wei(w) + v && Pool(r, cb) == Pool(w, cb)
  {
    var t := Touch(w, a);
    KeepsTouch(w, a, cb);
    TotalUpdate(t.accounts, a, AddBalance(w, a, v).accounts[a]);
  }

  lemma WeiSub(w: State, a: Addr, v: nat, cb: Addr)
    requires a in w.accounts && w.accounts[a].balance >= v
    ensures var r := SubBalance(w, a, v); Wei(r) == Wei(w) - v && Pool(r, cb) == Pool(w, cb)
  {
    TotalUpdate(w.accounts, a, SubBalance(w, a, v).accounts[a]);
  }

  lemma KeepsTransfer(w: State, from: Addr, to: Addr, v: nat, cb: Addr)
    requires from in w.accounts && to in w.accounts && w.accounts[from].balance >= v
    ensures var r := Transfer(w, from, to, v); Keeps(w, r, cb) && Wei(r) == Wei(w)
  {
    WeiSub(w, from, v, cb);
    WeiAdd(SubBalance(w, from, v), to, v, cb);
  }

  /** Only a contract that names itself as receiver destroys wei: exactly its balance. */
  lemma KeepsSuicide(w: State, a: Addr, to: Addr, cb: Addr)
    ensures Keeps(w, Suicide(w, a, to), cb)
    ensures Wei(Suicide(w, a, to)) == Wei(w) - if a == to then Balance(w, a) else 0
  {
    var v := Balance(Touch(w, to), a);
    var x := AddBalance(w, to, v);
    WeiAdd(w, to, v, cb);
    if a in x.accounts {
      TotalUpdate(x.accounts, a, Delete(x, a).accounts[a]);
    }
  }
}
