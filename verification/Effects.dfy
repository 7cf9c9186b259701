/** What an execution can do to the world, as a value: single effects and nested calls that may be rolled back. */
module Effects {
  import opened Bytes
  import opened World

  datatype Op =
    | Program(account: Addr, code: seq<Byte>)
    | Store(account: Addr, key: nat, value: nat)
    | Destroy(account: Addr, to: Addr)
    | Earn(gas: nat)
    | Emit(log: Log)
    | Call(caller: Addr, creates: bool, address: Addr, amount: nat, ops: seq<Op>, fails: bool)

  /** What is left of a world when an execution has failed: only the nonce of a creator has moved. */
  function Bumped(w: State, caller: Addr, creates: bool): (r: State)
  {
    if creates then SetNonce(w, caller, Nonce(w, caller) + 1) else w
  }

  /** The world in which value is transferred to the account entered. */
  function Entered(w: State, caller: Addr, creates: bool, addr: Addr): (r: State)
    ensures addr in r.accounts && w.accounts.Keys <= r.accounts.Keys
    ensures addr != caller || !creates ==> Balance(r, caller) == Balance(w, caller)
  {
    if creates then Create(Bumped(w, caller, true), addr) else Touch(w, addr)
  }

  /** Both parties of the transfer exist. */
  function Ready(w: State, caller: Addr, creates: bool, addr: Addr): (r: State)
    ensures addr in r.accounts && caller in r.accounts
    ensures Balance(r, caller) == Balance(Entered(w, caller, creates, addr), caller)
  {
    Touch(Touch(Entered(w, caller, creates, addr), caller), addr)
  }

  lemma ReadyIsEntered(w: State, caller: Addr, creates: bool, addr: Addr)
    requires caller in w.accounts
    ensures Ready(w, caller, creates, addr) == Entered(w, caller, creates, addr)
  {}

  /**
   A call without funds changes nothing; one whose code fails changes nothing but a creator's nonce; any
   other moves the amount and then does what its code does.
   */
  ghost function Meaning(op: Op, w: State): (r: State)
  {
    match op
    case Program(a, c) => SetCode(w, a, c)
    case Store(a, k, v) => SetStorage(w, a, k, v)
    case Destroy(a, to) => Suicide(w, a, to)
    case Earn(g) => w.(refund := w.refund + g)
    case Emit(l) => w.(logs := w.logs + [l])
    case Call(caller, creates, addr, v, ops, fails) =>
      var t := Ready(w, caller, creates, addr);
      if Balance(t, caller) < v then w
      else if fails then Bumped(w, caller, creates)
      else MeaningAll(ops, |ops|, Transfer(t, caller, addr, v))
  }

  /** A call with funds, from an account that exists. */
  lemma CallMeans(caller: Addr, creates: bool, addr: Addr, v: nat, ops: seq<Op>, fails: bool, w: State)
    requires caller in w.accounts
    ensures var e := Entered(w, caller, creates, addr);
            Balance(e, caller) >= v ==>
              Meaning(Call(caller, creates, addr, v, ops, fails), w) ==
              if fails then Bumped(w, caller, creates) else MeaningAll(ops, |ops|, Transfer(e, caller, addr, v))
  {
    ReadyIsEntered(w, caller, creates, addr);
  }

  /** The first n effects, one after the other. */
  ghost function MeaningAll(ops: seq<Op>, n: nat, w: State): (r: State)
    requires n <= |ops|
    decreases ops, n
  {
    if n == 0 then w else Meaning(ops[n - 1], MeaningAll(ops, n - 1, w))
  }

  lemma {:induction false} MeaningPrefix(ops: seq<Op>, more: seq<Op>, n: nat, w: State)
    requires n <= |ops|
    ensures MeaningAll(ops + more, n, w) == MeaningAll(ops, n, w)
    decreases n
  {
    hide Meaning;
    if n > 0 {
      MeaningPrefix(ops, more, n - 1, w);
    }
  }

  lemma MeaningSnoc(ops: seq<Op>, op: Op, w: State)
    ensures MeaningAll(ops + [op], |ops| + 1, w) == Meaning(op, MeaningAll(ops, |ops|, w))
  {
    hide Meaning;
    MeaningPrefix(ops, [op], |ops|, w);
  }

  // ---------- wei destroyed ----------

  /** The wei an effect destroys: a contract that names itself loses its balance; what is rolled back does not count. */
  ghost function Lost(op: Op, w: State): (n: nat)
  {
    match op
    case Destroy(a, to) => if a == to then Balance(w, a) else 0
    case Call(caller, creates, addr, v, ops, fails) =>
      var t := Ready(w, caller, creates, addr);
      if Balance(t, caller) < v || fails then 0 else LostAll(ops, |ops|, Transfer(t, caller, addr, v))
    case _ => 0
  }

  ghost function LostAll(ops: seq<Op>, n: nat, w: State): (l: nat)
    requires n <= |ops|
    decreases ops, n
  {
    if n == 0 then 0 else LostAll(ops, n - 1, w) + Lost(ops[n - 1], MeaningAll(ops, n - 1, w))
  }

  lemma {:induction false} LostPrefix(ops: seq<Op>, more: seq<Op>, n: nat, w: State)
    requires n <= |ops|
    ensures LostAll(ops + more, n, w) == LostAll(ops, n, w)
    decreases n
  {
    hide Lost, MeaningAll;
    if n > 0 {
      LostPrefix(ops, more, n - 1, w);
      MeaningPrefix(ops, more, n - 1, w);
    }
  }

  lemma LostSnoc(ops: seq<Op>, op: Op, w: State)
    ensures LostAll(ops + [op], |ops| + 1, w) == LostAll(ops, |ops|, w) + Lost(op, MeaningAll(ops, |ops|, w))
  {
    hide Lost, MeaningAll;
    LostPrefix(ops, [op], |ops|, w);
    MeaningPrefix(ops, [op], |ops|, w);
  }

  /** Whatever is done, the sum of all balances falls by exactly what is destroyed. */
  lemma {:induction false} WeiOf(op: Op, w: State)
    ensures Wei(Meaning(op, w)) + Lost(op, w) == Wei(w)
    decreases op
  {
    hide Wei, MeaningAll, LostAll, Transfer, Suicide, Ready, Entered;
    match op
    case Program(a, c) => WeiProgram(w, a, c);
    case Store(a, k, v) => WeiStore(w, a, k, v);
    case Destroy(a, to) => KeepsSuicide(w, a, to, 0);
    case Earn(g) => WeiSame(w, w.(refund := w.refund + g));
    case Emit(l) => WeiSame(w, w.(logs := w.logs + [l]));
    case Call(caller, creates, addr, v, ops, fails) =>
      var t := Ready(w, caller, creates, addr);
      WeiEntered(w, caller, creates, addr);
      if Balance(t, caller) >= v && !fails {
        KeepsTransfer(t, caller, addr, v, 0);
        WeiOfAll(ops, |ops|, Transfer(t, caller, addr, v));
      }
  }

  lemma {:induction false} WeiOfAll(ops: seq<Op>, n: nat, w: State)
    requires n <= |ops|
    ensures Wei(MeaningAll(ops, n, w)) + LostAll(ops, n, w) == Wei(w)
    decreases ops, n
  {
    hide Wei, Meaning, Lost;
    if n > 0 {
      WeiOfAll(ops, n - 1, w);
      WeiOf(ops[n - 1], MeaningAll(ops, n - 1, w));
    }
  }

  lemma WeiSame(w: State, r: State)
    requires r.accounts == w.accounts
    ensures Wei(r) == Wei(w)
  {}

  lemma WeiProgram(w: State, a: Addr, c: seq<Byte>)
    ensures Wei(SetCode(w, a, c)) == Wei(w)
  {
    hide Wei;
    var t := Touch(w, a);
    KeepsTouch(w, a, 0);
    KeepsPut(t, a, t.accounts[a].(code := c), 0);
  }

  lemma WeiStore(w: State, a: Addr, k: nat, v: nat)
    ensures Wei(SetStorage(w, a, k, v)) == Wei(w)
  {
    hide Wei;
    var t := Touch(w, a);
    KeepsTouch(w, a, 0);
    KeepsPut(t, a, t.accounts[a].(storage := t.accounts[a].storage[k := v]), 0);
  }

  lemma WeiEntered(w: State, caller: Addr, creates: bool, addr: Addr)
    ensures Wei(Bumped(w, caller, creates)) == Wei(w) && Wei(Ready(w, caller, creates, addr)) == Wei(w)
  {
    hide Wei;
    var b, e := Bumped(w, caller, creates), Entered(w, caller, creates, addr);
    if creates {
      var t := Touch(w, caller);
      KeepsTouch(w, caller, 0);
      KeepsPut(t, caller, t.accounts[caller].(nonce := Nonce(w, caller) + 1), 0);
      WeiCreate(b, addr);
    } else {
      KeepsTouch(w, addr, 0);
    }
    KeepsTouch(e, caller, 0);
    KeepsTouch(Touch(e, caller), addr, 0);
  }
}
