/**
 When everything a contract can look up is a word: balances that add up to one, storage and code sizes, the
 block, the message. All that executions do keeps it so.
 */
module EvmNarrow {
  import opened Bytes
  import opened World
  import opened Effects
  import opened EvmCode
  import opened EvmGas
  import opened EvmLook
  import opened EvmMachine
  import EvmArith

  predicate IsWord(x: nat) { x < EvmArith.WORD }

  // ---------- the state ----------

  ghost predicate NarrowAccount(x: Account)
  {
    IsWord(|x.code|) && forall k | k in x.storage :: IsWord(x.storage[k])
  }

  ghost predicate Slots(w: State)
  {
    forall a | a in w.accounts :: NarrowAccount(w.accounts[a])
  }

  ghost predicate NarrowState(w: State)
  {
    IsWord(Wei(w)) && Slots(w)
  }

  /** An effect that stores words only. */
  ghost predicate NarrowOp(op: Op)
  {
    match op
    case Program(_, c) => IsWord(|c|)
    case Store(_, _, v) => IsWord(v)
    case Call(_, _, _, _, ops, _) => NarrowOps(ops)
    case _ => true
  }

  ghost predicate NarrowOps(ops: seq<Op>)
  {
    forall i | 0 <= i < |ops| :: NarrowOp(ops[i])
  }

  lemma PutSlots(w: State, a: Addr, x: Account)
    requires Slots(w) && NarrowAccount(x)
    ensures Slots(Put(w, a, x))
  {
    hide NarrowAccount;
  }

  lemma NewIsNarrow(b: nat)
    ensures NarrowAccount(NEW_ACCOUNT.(balance := b))
  {}

  lemma TouchSlots(w: State, a: Addr)
    requires Slots(w)
    ensures Slots(Touch(w, a))
  {
    hide Slots, NarrowAccount;
    NewIsNarrow(0);
    PutSlots(w, a, NEW_ACCOUNT);
  }

  /** Changing the balance or the nonce of an account, or marking it, touches no slot. */
  lemma ChangeSlots(w: State, a: Addr, x: Account)
    requires Slots(w) && a in w.accounts && x.code == w.accounts[a].code && x.storage == w.accounts[a].storage
    ensures Slots(Put(w, a, x))
  {
    assert NarrowAccount(w.accounts[a]);
    PutSlots(w, a, x);
  }

  lemma AddSlots(w: State, a: Addr, v: nat)
    requires Slots(w)
    ensures Slots(AddBalance(w, a, v))
  {
    hide Slots;
    TouchSlots(w, a);
    var t := Touch(w, a);
    ChangeSlots(t, a, t.accounts[a].(balance := t.accounts[a].balance + v));
  }

  lemma TransferSlots(w: State, from: Addr, to: Addr, v: nat)
    requires Slots(w) && from in w.accounts && to in w.accounts && w.accounts[from].balance >= v
    ensures Slots(Transfer(w, from, to, v))
  {
    hide Slots, AddBalance;
    ChangeSlots(w, from, w.accounts[from].(balance := w.accounts[from].balance - v));
    AddSlots(SubBalance(w, from, v), to, v);
  }

  lemma SuicideSlots(w: State, a: Addr, to: Addr)
    requires Slots(w)
    ensures Slots(Suicide(w, a, to))
  {
    hide Slots, AddBalance;
    var b := Balance(Touch(w, to), a);
    AddSlots(w, to, b);
    var t := AddBalance(w, to, b);
    if a in t.accounts {
      ChangeSlots(t, a, t.accounts[a].(removed := true, balance := 0));
    }
  }

  lemma BumpedSlots(w: State, caller: Addr, creates: bool)
    requires Slots(w)
    ensures Slots(Bumped(w, caller, creates))
  {
    hide Slots;
    if creates {
      TouchSlots(w, caller);
      var t := Touch(w, caller);
      ChangeSlots(t, caller, t.accounts[caller].(nonce := Nonce(w, caller) + 1));
    }
  }

  lemma EnteredSlots(w: State, caller: Addr, creates: bool, addr: Addr)
    requires Slots(w)
    ensures Slots(Entered(w, caller, creates, addr))
  {
    hide Slots, Bumped;
    if creates {
      BumpedSlots(w, caller, true);
      var t := Bumped(w, caller, true);
      NewIsNarrow(Balance(t, addr));
      PutSlots(t, addr, NEW_ACCOUNT.(balance := Balance(t, addr)));
    } else {
      TouchSlots(w, addr);
    }
  }

  lemma ReadySlots(w: State, caller: Addr, creates: bool, addr: Addr)
    requires Slots(w)
    ensures Slots(Ready(w, caller, creates, addr))
  {
    hide Slots, Entered, Touch;
    EnteredSlots(w, caller, creates, addr);
    TouchSlots(Entered(w, caller, creates, addr), caller);
    TouchSlots(Touch(Entered(w, caller, creates, addr), caller), addr);
  }

  lemma StoreSlots(w: State, a: Addr, k: nat, v: nat)
    requires Slots(w) && IsWord(v)
    ensures Slots(SetStorage(w, a, k, v))
  {
    TouchSlots(w, a);
    var t := Touch(w, a);
    assert NarrowAccount(t.accounts[a]);
    PutSlots(t, a, t.accounts[a].(storage := t.accounts[a].storage[k := v]));
  }

  lemma CodeSlots(w: State, a: Addr, c: seq<Byte>)
    requires Slots(w) && IsWord(|c|)
    ensures Slots(SetCode(w, a, c))
  {
    TouchSlots(w, a);
    var t := Touch(w, a);
    assert NarrowAccount(t.accounts[a]);
    PutSlots(t, a, t.accounts[a].(code := c));
  }

  /** Effects that store words keep every slot a word, nested calls and rolled back ones included. */
  lemma {:induction false} MeaningSlots(op: Op, w: State)
    requires Slots(w) && NarrowOp(op)
    ensures Slots(Meaning(op, w))
    decreases op
  {
    hide Slots, Ready, Transfer, Suicide, SetCode, SetStorage, Bumped;
    match op
    case Program(a, c) => CodeSlots(w, a, c);
    case Store(a, k, v) => StoreSlots(w, a, k, v);
    case Destroy(a, to) => SuicideSlots(w, a, to);
    case Earn(g) => SameSlots(w, w.(refund := w.refund + g));
    case Emit(l) => SameSlots(w, w.(logs := w.logs + [l]));
    case Call(caller, creates, addr, v, ops, fails) =>
      BumpedSlots(w, caller, creates);
      var t := Ready(w, caller, creates, addr);
      if Balance(t, caller) >= v && !fails {
        ReadySlots(w, caller, creates, addr);
        TransferSlots(t, caller, addr, v);
        MeaningAllSlots(ops, |ops|, Transfer(t, caller, addr, v));
      }
  }

  lemma {:induction false} MeaningAllSlots(ops: seq<Op>, n: nat, w: State)
    requires Slots(w) && NarrowOps(ops) && n <= |ops|
    ensures Slots(MeaningAll(ops, n, w))
    decreases ops, n
  {
    hide Slots, Meaning, NarrowOp;
    if n > 0 {
      MeaningAllSlots(ops, n - 1, w);
      MeaningSlots(ops[n - 1], MeaningAll(ops, n - 1, w));
    }
  }

  lemma SameSlots(w: State, r: State)
    requires Slots(w) && r.accounts == w.accounts
    ensures Slots(r)
  {}

  // ---------- what is looked up ----------

  ghost predicate NarrowBlock(b: Block, coinbase: Addr)
  {
    && IsWord(b.origin) && IsWord(b.gasPrice) && IsWord(b.time) && IsWord(b.difficulty) && IsWord(b.gasLimit)
    && IsWord(coinbase) && (forall n :: IsWord(b.hashOf(n))) && forall s :: IsWord(b.sha3(s))
  }

  ghost predicate NarrowView(v: View)
  {
    && NarrowState(v.world) && IsWord(v.self) && IsWord(v.caller) && IsWord(v.value) && IsWord(v.gas) && IsWord(v.pc)
    && IsWord(|v.memory|) && IsWord(|v.input|) && IsWord(|v.code|)
  }

  lemma BalanceIsWord(w: State, a: Addr)
    requires NarrowState(w)
    ensures IsWord(Balance(w, a))
  {
    hide Slots;
    if a in w.accounts {
      TotalWithout(w.accounts, a);
    }
  }

  /** A lookup gives a word. */
  lemma LookedIsWord(b: Block, coinbase: Addr, v: View)
    requires NarrowBlock(b, coinbase) && NarrowView(v) && LooksUp(v.op)
    ensures IsWord(Looked(b, coinbase, v))
  {
    hide FromBigEndian, Wei;
    if v.args != [] {
      var x := v.args[0];
      BalanceIsWord(v.world, ToAddr(x));
      BytesAreWord(GetData(v.input, x, 32));
      BytesAreWord(Piece(v.memory, x, 32));
      assert v.self in v.world.accounts ==> NarrowAccount(v.world.accounts[v.self]);
      assert ToAddr(x) in v.world.accounts ==> NarrowAccount(v.world.accounts[ToAddr(x)]);
    }
  }

  /** Words in, a word out, for every opcode that pushes one value. */
  lemma ResultIsNarrow(b: Block, coinbase: Addr, v: View)
    requires PureReq(v.op).Some? && |v.args| == PureReq(v.op).value.pop && forall i | 0 <= i < |v.args| :: v.args[i] < EvmArith.WORD
    requires NarrowBlock(b, coinbase) && NarrowView(v)
    ensures IsWord(Result(b, coinbase, v))
  {
    hide NarrowBlock, NarrowView, Looked, EvmArith.Arith;
    ResultIsWord(b, coinbase, v);
    ArithExactly(v.op, v.args);
    if LooksUp(v.op) {
      LookedIsWord(b, coinbase, v);
    }
  }

  /** The world and the value a call begins with. */
  lemma EnteredNarrow(w: State, caller: Addr, creates: bool, addr: Addr, v: nat)
    requires NarrowState(w) && caller in w.accounts && Balance(Entered(w, caller, creates, addr), caller) >= v
    ensures NarrowState(Transfer(Entered(w, caller, creates, addr), caller, addr, v)) && IsWord(v)
  {
    hide Slots, Wei, Entered, Transfer;
    var e := Entered(w, caller, creates, addr);
    WeiEntered(w, caller, creates, addr);
    ReadyIsEntered(w, caller, creates, addr);
    EnteredSlots(w, caller, creates, addr);
    TransferSlots(e, caller, addr, v);
    KeepsTransfer(e, caller, addr, v, 0);
    BalanceIsWord(e, caller);
  }

  lemma CodeIsNarrow(w: State, a: Addr)
    requires NarrowState(w)
    ensures IsWord(|Code(w, a)|)
  {
    hide Wei;
    assert a in w.accounts ==> NarrowAccount(w.accounts[a]);
  }

  /** What fewer than 2^64 gas has bought is no larger than a word says. */
  lemma GetIsNarrow(mem: Memory, offset: nat, size: nat)
    requires mem.Valid() && (size > 0 ==> offset + size <= |mem.store|)
    ensures mem.paid < TWO64 ==> IsWord(|mem.Get(offset, size)|)
  {
    if mem.paid < TWO64 {
      FeeBoundsSize(|mem.store| / 32);
    }
  }
}
