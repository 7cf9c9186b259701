/**
 The state database as objects on the heap: accounts are loaded from a stored base on first use and
 changed in place. Copy is a deep snapshot that no later write reaches, and Set brings it back.
 */
module StateDb {
  import opened Bytes
  import opened World
  import opened Effects

  class StateObject {
    var balance: nat
    var nonce: nat
    var code: seq<Byte>
    var storage: map<nat, nat>
    var removed: bool
    var gasPool: nat

    ghost function Value(): (x: Account)
      reads this
    {
      Account(balance, nonce, code, storage, removed, gasPool)
    }

    constructor ()
      ensures Value() == NEW_ACCOUNT
    {
      balance, nonce, code, storage, removed, gasPool := 0, 0, [], map[], false, 0;
    }

    constructor Of(x: Account)
      ensures Value() == x
    {
      balance, nonce, code, storage, removed, gasPool := x.balance, x.nonce, x.code, x.storage, x.removed, x.pool;
    }

    method Copy() returns (r: StateObject)
      ensures fresh(r) && r.Value() == Value()
    {
      r := new StateObject();
      r.balance := balance;
      r.nonce := nonce;
      r.code := code;
      r.storage := storage;
      r.gasPool := gasPool;
      r.removed := removed;
    }
  }

  ghost predicate OnePer(m: map<Addr, StateObject>)
  {
    forall a, b | a in m && b in m && m[a] == m[b] :: a == b
  }

  ghost predicate Kept(a: map<Addr, StateObject>, b: map<Addr, StateObject>)
  {
    forall x | x in a :: x in b && b[x] == a[x]
  }

  class StateDB {
    /** The accounts of the stored trie. */
    const base: map<Addr, Account>
    var objects: map<Addr, StateObject>
    var refund: nat
    var logs: seq<Log>

    /** No object serves two addresses. */
    ghost predicate Valid()
      reads this
    {
      OnePer(objects)
    }

    /** The world these objects stand for: what is loaded hides what is stored. */
    ghost function Abs(): (w: State)
      reads this, objects.Values
    {
      State(map a | a in base.Keys + objects.Keys :: if a in objects then objects[a].Value() else base[a], refund, logs)
    }

    constructor (base: map<Addr, Account>)
      ensures Valid() && Abs() == State(base, 0, []) && objects == map[] && this.base == base
    {
      this.base, objects, refund, logs := base, map[], 0, [];
    }

    /** GetStateObject: loading an account changes nothing anyone can observe. */
    method GetStateObject(a: Addr) returns (so: StateObject?)
      requires Valid()
      modifies this
      ensures Valid() && Abs() == old(Abs()) && fresh(objects.Values - old(objects.Values))
      ensures so == null <==> a !in old(Abs()).accounts
      ensures so != null ==> a in objects && objects[a] == so
      ensures Kept(old(objects), objects)
    {
      if a in objects {
        return objects[a];
      }
      if a !in base {
        return null;
      }
      so := new StateObject.Of(base[a]);
      objects := objects[a := so];
    }

    /** CreateAccount: a new object that inherits the balance. */
    method CreateAccount(a: Addr) returns (so: StateObject)
      requires Valid()
      modifies this
      ensures Valid() && Abs() == World.Create(old(Abs()), a) && fresh(objects.Values - old(objects.Values))
      ensures a in objects && objects[a] == so && (a !in old(Abs()).accounts ==> Kept(old(objects), objects))
    {
      var previous := GetStateObject(a);
      so := new StateObject.Of(NEW_ACCOUNT.(balance := if previous != null then previous.balance else 0));
      Install(a, so);
    }

    /** A new object for one account replaces that account alone. */
    method Install(a: Addr, so: StateObject)
      requires Valid() && so !in objects.Values
      modifies `objects
      ensures objects == old(objects)[a := so] && Valid() && Abs() == Put(old(Abs()), a, so.Value())
    {
      ghost var w := Abs();
      objects := objects[a := so];
      assert Abs().accounts == w.accounts[a := so.Value()];
    }

    method GetOrNewStateObject(a: Addr) returns (so: StateObject)
      requires Valid()
      modifies this
      ensures Valid() && Abs() == Touch(old(Abs()), a) && fresh(objects.Values - old(objects.Values))
      ensures a in objects && objects[a] == so && Kept(old(objects), objects)
    {
      var found := GetStateObject(a);
      if found == null {
        so := CreateAccount(a);
      } else {
        so := found;
      }
    }

    /** After a write to the object of one account, that account alone has changed. */
    twostate lemma OneChanged(a: Addr)
      requires old(Valid()) && Valid() && a in old(objects) && objects == old(objects) && refund == old(refund) && logs == old(logs)
      requires forall so | so in objects.Values && so != objects[a] :: so.Value() == old(so.Value())
      ensures Abs() == Put(old(Abs()), a, objects[a].Value())
    {}

    method AddBalance(a: Addr, v: nat)
      requires Valid()
      modifies this, objects.Values
      ensures Valid() && Abs() == World.AddBalance(old(Abs()), a, v) && fresh(objects.Values - old(objects.Values))
    {
      var so := GetOrNewStateObject(a);
      label touched:
      so.balance := so.balance + v;
      OneChanged@touched(a);
    }

    /** GetNonce: 0 for a missing account. */
    method GetNonce(a: Addr) returns (n: nat)
      requires Valid()
      modifies this
      ensures Valid() && Abs() == old(Abs()) && n == Nonce(Abs(), a) && fresh(objects.Values - old(objects.Values))
    {
      var so := GetStateObject(a);
      n := if so != null then so.nonce else 0;
    }

    method SetNonce(a: Addr, n: nat)
      requires Valid()
      modifies this, objects.Values
      ensures Valid() && Abs() == World.SetNonce(old(Abs()), a, n) && fresh(objects.Values - old(objects.Values))
    {
      var so := GetOrNewStateObject(a);
      label touched:
      so.nonce := n;
      OneChanged@touched(a);
    }

    method SetCode(a: Addr, c: seq<Byte>)
      requires Valid()
      modifies this, objects.Values
      ensures Valid() && Abs() == World.SetCode(old(Abs()), a, c) && fresh(objects.Values - old(objects.Values))
    {
      var so := GetOrNewStateObject(a);
      label touched:
      so.code := c;
      OneChanged@touched(a);
    }

    method SetState(a: Addr, k: nat, v: nat)
      requires Valid()
      modifies this, objects.Values
      ensures Valid() && Abs() == SetStorage(old(Abs()), a, k, v) && fresh(objects.Values - old(objects.Values))
    {
      var so := GetOrNewStateObject(a);
      label touched:
      so.storage := so.storage[k := v];
      OneChanged@touched(a);
    }

    method Delete(a: Addr)
      requires Valid()
      modifies this, objects.Values
      ensures Valid() && Abs() == World.Delete(old(Abs()), a) && fresh(objects.Values - old(objects.Values))
    {
      var so := GetStateObject(a);
      if so != null {
        label touched:
        so.removed := true;
        so.balance := 0;
        OneChanged@touched(a);
      }
    }

    /** SUICIDE: the receiver is there before the balance is read; both may be one account. */
    method Suicide(a: Addr, to: Addr)
      requires Valid()
      modifies this, objects.Values
      ensures Valid() && Abs() == World.Suicide(old(Abs()), a, to) && fresh(objects.Values - old(objects.Values))
    {
      hide StateDB.Abs, StateDB.Valid, World.AddBalance, World.Delete, Touch;
      var _ := GetOrNewStateObject(to);
      var balance := GetBalance(a);
      AddBalance(to, balance);
      Delete(a);
      AddTouched(old(Abs()), to, balance);
    }

    /** GetBalance: 0 for a missing account. */
    method GetBalance(a: Addr) returns (b: nat)
      requires Valid()
      modifies this
      ensures Valid() && Abs() == old(Abs()) && b == Balance(Abs(), a) && fresh(objects.Values - old(objects.Values))
    {
      var so := GetStateObject(a);
      b := if so != null then so.balance else 0;
    }

    /** Transfer between two accounts: the same object twice when they are one. */
    method Transfer(from: Addr, to: Addr, v: nat) returns (ok: bool)
      requires Valid()
      modifies this, objects.Values
      ensures Valid() && fresh(objects.Values - old(objects.Values))
      ensures ok <==> Balance(old(Abs()), from) >= v
      ensures ok ==> Abs() == World.Transfer(Touch(Touch(old(Abs()), from), to), from, to, v)
      ensures !ok ==> Abs() == Touch(Touch(old(Abs()), from), to)
    {
      hide Abs, Valid;
      var source := GetOrNewStateObject(from);
      var target := GetOrNewStateObject(to);
      BalanceOf(from);
      ok := source.balance >= v;
      if ok {
        Move(from, source, to, target, v);
      }
    }

    method Move(from: Addr, source: StateObject, to: Addr, target: StateObject, v: nat)
      requires Valid() && from in objects && objects[from] == source && to in objects && objects[to] == target
      requires source.balance >= v
      modifies source, target
      ensures from in old(Abs()).accounts && to in old(Abs()).accounts && old(Abs()).accounts[from].balance >= v
      ensures Valid() && Abs() == World.Transfer(old(Abs()), from, to, v)
    {
      hide Abs, Valid;
      BalanceOf(from);
      BalanceOf(to);
      SetBalance(from, source, source.balance - v);
      BalanceOf(to);
      SetBalance(to, target, target.balance + v);
    }

    /** The balance of a loaded object is the balance of its account. */
    lemma BalanceOf(a: Addr)
      requires a in objects
      ensures a in Abs().accounts && Abs().accounts[a] == objects[a].Value()
    {}

    method SetBalance(a: Addr, so: StateObject, b: nat)
      requires Valid() && a in objects && objects[a] == so
      modifies so
      ensures Valid() && a in old(Abs()).accounts
      ensures Abs() == Put(old(Abs()), a, old(Abs()).accounts[a].(balance := b))
    {
      so.balance := b;
      OneChanged(a);
    }

    method Refund(g: nat)
      requires Valid()
      modifies `refund
      ensures Valid() && Abs() == old(Abs()).(refund := old(Abs()).refund + g)
    {
      refund := refund + g;
    }

    method AddLog(l: Log)
      requires Valid()
      modifies `logs
      ensures Valid() && Abs() == old(Abs()).(logs := old(Abs()).logs + [l])
    {
      logs := logs + [l];
    }

    /** Copy: equal now, and sharing no object with the original. */
    method Copy() returns (r: StateDB)
      requires Valid()
      ensures r.Valid() && fresh(r) && fresh(r.objects.Values) && r.Abs() == Abs() && r.base == base
    {
      hide Abs;
      r := new StateDB(base);
      r.objects := CopyObjects();
      r.refund := refund;
      r.logs := logs;
      SameWorld(this, r);
    }

    method CopyObjects() returns (m: map<Addr, StateObject>)
      ensures m.Keys == objects.Keys && fresh(m.Values) && OnePer(m)
      ensures forall a | a in m :: m[a].Value() == objects[a].Value()
    {
      hide Abs;
      m := map[];
      var todo := objects.Keys;
      ghost var made: set<StateObject> := {};
      while todo != {}
        invariant m.Values <= made && fresh(made) && OnePer(m)
        invariant todo <= objects.Keys && m.Keys == objects.Keys - todo
        invariant forall a | a in m :: m[a].Value() == objects[a].Value()
        decreases todo
      {
        var a :| a in todo;
        var so := objects[a].Copy();
        NewValues(m, a, so);
        made := made + {so};
        m := m[a := so];
        todo := todo - {a};
      }
    }

    /** Set: take over the objects of another database. */
    method Set(state: StateDB)
      requires state.Valid() && state.base == base
      modifies this
      ensures Valid() && Abs() == old(state.Abs()) && objects == old(state.objects)
    {
      objects, refund, logs := state.objects, state.refund, state.logs;
    }
  }

  lemma SameWorld(a: StateDB, b: StateDB)
    requires a.base == b.base && a.refund == b.refund && a.logs == b.logs && a.objects.Keys == b.objects.Keys
    requires forall x | x in a.objects :: b.objects[x].Value() == a.objects[x].Value()
    ensures a.Abs() == b.Abs()
  {
    assert a.Abs().accounts == b.Abs().accounts;
  }

  lemma NewValues(m: map<Addr, StateObject>, a: Addr, so: StateObject)
    ensures m[a := so].Values <= m.Values + {so}
  {}

  lemma AddTouched(w: State, a: Addr, v: nat)
    ensures World.AddBalance(Touch(w, a), a, v) == World.AddBalance(w, a, v)
  {}

  // ---------- whatever a nested execution does ----------

  /** The objects on the heap, with snapshots copied and taken back, do what the effects mean. */
  method Perform(db: StateDB, op: Op)
    requires db.Valid()
    modifies db, db.objects.Values
    ensures db.Valid() && db.Abs() == Meaning(op, old(db.Abs())) && fresh(db.objects.Values - old(db.objects.Values))
    decreases op, 1
  {
    hide StateDB.Abs, StateDB.Valid;
    match op
    case Program(a, c) => db.SetCode(a, c);
    case Store(a, k, v) => db.SetState(a, k, v);
    case Destroy(a, to) => db.Suicide(a, to);
    case Earn(g) => db.Refund(g);
    case Emit(l) => db.AddLog(l);
    case Call(_, _, _, _, _, _) => PerformCall(db, op);
  }

  /**
   exec on the heap. The first snapshot is taken before the nonce of a creator moves and undoes a transfer
   that fails; the second is taken after it and undoes code that fails. Whatever the code does in between
   reaches neither.
   */
  method PerformCall(db: StateDB, op: Op)
    requires db.Valid() && op.Call?
    modifies db, db.objects.Values
    ensures db.Valid() && db.Abs() == Meaning(op, old(db.Abs())) && fresh(db.objects.Values - old(db.objects.Values))
    decreases op, 0
  {
    hide StateDB.Abs, StateDB.Valid, World.Transfer, Entered, Bumped, Balance;
    var vsnapshot := db.Copy();
    var snapshot := Prepare(db, op.caller, op.creates, op.address);
    var ok := db.Transfer(op.caller, op.address, op.amount);
    if !ok {
      db.Set(vsnapshot);
      return;
    }
    PerformAll(db, op.ops);
    if op.fails {
      db.Set(snapshot);
    }
  }

  /** The nonce bump of a creator, the second snapshot after it, and the account entered. */
  method Prepare(db: StateDB, caller: Addr, creates: bool, addr: Addr) returns (snapshot: StateDB)
    requires db.Valid()
    modifies db, db.objects.Values
    ensures db.Valid() && db.Abs() == Entered(old(db.Abs()), caller, creates, addr)
    ensures fresh(db.objects.Values - old(db.objects.Values)) && db.objects.Values !! snapshot.objects.Values
    ensures snapshot.Valid() && fresh(snapshot) && fresh(snapshot.objects.Values) && snapshot.base == db.base
    ensures snapshot.Abs() == Bumped(old(db.Abs()), caller, creates)
  {
    hide StateDB.Abs, StateDB.Valid, Touch, World.Create, World.SetNonce;
    if creates {
      var nonce := db.GetNonce(caller);
      db.SetNonce(caller, nonce + 1);
    }
    snapshot := db.Copy();
    if creates {
      var _ := db.CreateAccount(addr);
    } else {
      var _ := db.GetOrNewStateObject(addr);
    }
  }

  method PerformAll(db: StateDB, ops: seq<Op>)
    requires db.Valid()
    modifies db, db.objects.Values
    ensures db.Valid() && db.Abs() == MeaningAll(ops, |ops|, old(db.Abs()))
    ensures fresh(db.objects.Values - old(db.objects.Values))
    decreases ops
  {
    hide StateDB.Abs, StateDB.Valid, Meaning;
    for i := 0 to |ops|
      invariant db.Valid() && db.Abs() == MeaningAll(ops, i, old(db.Abs()))
      invariant fresh(db.objects.Values - old(db.objects.Values))
    {
      Perform(db, ops[i]);
    }
  }
}
