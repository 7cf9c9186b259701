/**
 Applying a message: gas is bought, the message runs, what is left is refunded and the coinbase is
 paid. No wei is lost but what contracts destroy, the coinbase's gas pool falls by exactly the gas used,
 and refunds never exceed half of what was spent.
 */
module Transition {
  import opened Bytes
  import opened World
  import opened WorldLaws
  import opened Effects
  import opened EvmMachine
  import opened EvmGas
  import opened EvmNarrow
  import opened EvmRun
  import opened EvmLaws
  import opened Evm

  datatype Message = Message(from: Option<Addr>, to: Option<Addr>, gasPrice: nat, gas: nat, value: nat, nonce: nat,
                             data: seq<Byte>)

  datatype TxError = NoSender | BadNonce | NoFunds | GasLimit | NoIntrinsicGas | NoValue | Failed(error: VmError)

  /** 21000 for the message, 68 for every data byte that is not zero, 4 for every zero. */
  function Intrinsic(data: seq<Byte>): (g: nat)
  {
    if data == [] then 21000
    else Intrinsic(data[..|data| - 1]) + if data[|data| - 1] != 0 then 68 else 4
  }

  lemma {:induction false} IntrinsicCounts(data: seq<Byte>)
    ensures Intrinsic(data) == 21000 + 4 * multiset(data)[0] + 68 * (|data| - multiset(data)[0])
  {
    if data != [] {
      IntrinsicCounts(data[..|data| - 1]);
      assert data == data[..|data| - 1] + [data[|data| - 1]];
    }
  }

  method IntrinsicGas(data: seq<Byte>) returns (igas: nat)
    ensures igas == Intrinsic(data) == 21000 + 4 * multiset(data)[0] + 68 * (|data| - multiset(data)[0])
  {
    IntrinsicCounts(data);
    igas := 21000;
    if |data| > 0 {
      var nz := 0;
      for i := 0 to |data|
        invariant 0 <= nz <= i && Intrinsic(data[..i]) == 21000 + 68 * nz + 4 * (i - nz)
      {
        assert data[..i + 1][..i] == data[..i];
        if data[i] != 0 {
          nz := nz + 1;
        }
      }
      assert data[..|data|] == data;
      igas := igas + nz * 68;
      igas := igas + (|data| - nz) * 4;
    }
  }

  /** Nonce, code and storage of every account are what they were, and so are the logs. */
  ghost predicate Insides(w: State, r: State)
  {
    r.logs == w.logs && forall a :: SameInside(w, r, a)
  }

  lemma InsidesThen(w: State, x: State, r: State)
    requires Insides(w, x) && Insides(x, r)
    ensures Insides(w, r)
  {
    hide Nonce, Code, Storage;
    forall a ensures SameInside(w, r, a) {
      assert SameInside(w, x, a) && SameInside(x, r, a);
    }
  }

  lemma InsideAt(w: State, r: State, a: Addr)
    requires Insides(w, r)
    ensures SameInside(w, r, a) && Nonce(r, a) == Nonce(w, a) && Code(r, a) == Code(w, a) && r.logs == w.logs
  {}

  /** Every nonce counts the creations its account has made in an execution; the sender's counts a message that calls, too. */
  ghost predicate Counts(w: State, r: State, n: Nest, sender: Option<Addr>)
  {
    forall a: Addr :: Nonce(r, a) == Grown(n, a, Nonce(w, a) + if sender == Some(a) then 1 else 0)
  }

  /** Code and storage of the accounts that are not entered are what they were. */
  ghost predicate Untouched(w: State, r: State, n: Nest)
  {
    forall a | NeverIn(n, a) :: SameCode(w, r, a)
  }

  /** The sender's nonce is one more; every other nonce, all code, all storage and the logs are what they were. */
  ghost predicate OnlyBumps(w: State, r: State, sender: Addr)
  {
    r.logs == w.logs && forall a :: Nonce(r, a) == Nonce(w, a) + (if a == sender then 1 else 0) && SameCode(w, r, a)
  }

  lemma BumpsBetween(w: State, x: State, y: State, r: State, sender: Addr)
    requires Insides(w, x) && OnlyBumps(x, y, sender) && Insides(y, r)
    ensures OnlyBumps(w, r, sender)
  {
    hide Nonce, Code, Storage;
    forall a ensures Nonce(r, a) == Nonce(w, a) + (if a == sender then 1 else 0) && SameCode(w, r, a) {
      assert SameInside(w, x, a) && SameCode(x, y, a) && SameInside(y, r, a);
    }
  }

  /** What happens around an execution touches neither nonces nor code nor storage. */
  lemma CountsBetween(w: State, x: State, y: State, r: State, n: Nest, sender: Option<Addr>)
    requires Insides(w, x) && Counts(x, y, n, sender) && Untouched(x, y, n) && Insides(y, r)
    ensures Counts(w, r, n, sender) && Untouched(w, r, n)
  {
    hide Nonce, Code, Storage, Grown, NeverIn;
    forall a: Addr ensures Nonce(r, a) == Grown(n, a, Nonce(w, a) + if sender == Some(a) then 1 else 0) {
      assert SameInside(w, x, a) && SameInside(y, r, a);
    }
    forall a: Addr | NeverIn(n, a) ensures SameCode(w, r, a) {
      assert SameInside(w, x, a) && SameCode(x, y, a) && SameInside(y, r, a);
    }
  }

  /** The world a call begins in: the sender's nonce has moved, and the callee exists. */
  lemma CalledWorld(w: State, sender: Addr, to: Addr, a: Addr)
    ensures var r := Touch(SetNonce(w, sender, Nonce(w, sender) + 1), to);
            Nonce(r, a) == Nonce(w, a) + (if a == sender then 1 else 0) && SameCode(w, r, a) && Balance(r, a) == Balance(w, a)
            && r.refund == w.refund && r.logs == w.logs && sender in r.accounts && to in r.accounts
  {
    hide Touch, SetNonce;
    var x := SetNonce(w, sender, Nonce(w, sender) + 1);
    SetNonceLaw(w, sender, Nonce(w, sender) + 1, a);
    TouchLaw(x, to, a);
    CalledThere(w, sender, to);
  }

  lemma CalledThere(w: State, sender: Addr, to: Addr)
    ensures var r := Touch(SetNonce(w, sender, Nonce(w, sender) + 1), to); sender in r.accounts && to in r.accounts
  {}

  lemma KeepsCalled(w: State, sender: Addr, to: Addr, cb: Addr)
    ensures var r := Touch(SetNonce(w, sender, Nonce(w, sender) + 1), to); Keeps(w, r, cb) && Wei(r) == Wei(w)
  {
    hide Keeps, Wei;
    var x := SetNonce(w, sender, Nonce(w, sender) + 1);
    KeepsPut(w, sender, x.accounts[sender], cb);
    assert Put(w, sender, x.accounts[sender]) == x;
    KeepsTouch(x, to, cb);
    KeepsThen(w, x, Touch(x, to), cb);
  }

  /** A message that calls: how its execution, from the world it begins in, changes nonces, code and storage. */
  lemma CallCounts(rules: Rules, depth: nat, w: State, sender: Addr, to: Addr, n: Nest)
    requires LegalNest(rules, depth, Touch(SetNonce(w, sender, Nonce(w, sender) + 1), to), n)
    ensures Counts(w, n.out.world, n, Some(sender)) && Untouched(w, n.out.world, n)
    ensures Unborn(rules, sender) ==> Nonce(n.out.world, sender) > Nonce(w, sender)
  {
    hide Touch, SetNonce, Nonce, Code, Storage, Grown, NeverIn, LegalNest, Balance;
    var x := Touch(SetNonce(w, sender, Nonce(w, sender) + 1), to);
    forall a: Addr ensures Nonce(n.out.world, a) == Grown(n, a, Nonce(w, a) + if Some(sender) == Some(a) then 1 else 0) {
      CalledWorld(w, sender, to, a);
      NestKeeps(rules, depth, x, n, a);
    }
    forall a | NeverIn(n, a) ensures SameCode(w, n.out.world, a) {
      CalledWorld(w, sender, to, a);
      NestKeeps(rules, depth, x, n, a);
    }
    if Unborn(rules, sender) {
      CalledWorld(w, sender, to, sender);
      NonceNeverFalls(rules, depth, x, n, sender);
    }
  }

  /** A payment to an account without code: the sender's nonce is one more, and nothing else is different inside an account. */
  lemma PlainCounts(rules: Rules, depth: nat, w: State, sender: Addr, to: Addr, n: Nest, a: Addr)
    requires LegalNest(rules, depth, Touch(SetNonce(w, sender, Nonce(w, sender) + 1), to), n)
    requires n.entry.address == Some(to) && n.entry.code == [] && !Builtin(n.entry.codeAddr)
    ensures Nonce(n.out.world, a) == Nonce(w, a) + (if a == sender then 1 else 0) && SameCode(w, n.out.world, a)
    ensures n.out.world.logs == w.logs
    ensures n.entry.caller == sender && n.out.err.None? ==>
      && Balance(n.out.world, a) == Balance(w, a) - (if a == sender then n.entry.value else 0)
                                                  + (if a == to then n.entry.value else 0)
      && n.out.back == n.entry.gas && n.out.world.refund == w.refund
  {
    hide Touch, SetNonce, Nonce, Code, Storage, LegalNest, Balance;
    CalledWorld(w, sender, to, a);
    PlainNest(rules, depth, Touch(SetNonce(w, sender, Nonce(w, sender) + 1), to), n, a);
  }

  lemma PlainPays(rules: Rules, depth: nat, w: State, sender: Addr, to: Addr, n: Nest)
    requires LegalNest(rules, depth, Touch(SetNonce(w, sender, Nonce(w, sender) + 1), to), n)
    requires n.entry.address == Some(to) && n.entry.code == [] && !Builtin(n.entry.codeAddr) && n.entry.caller == sender
    ensures OnlyBumps(w, n.out.world, sender)
    ensures n.out.err.None? ==> n.out.back == n.entry.gas && n.out.world.refund == w.refund && forall a ::
      Balance(n.out.world, a) == Balance(w, a) - (if a == sender then n.entry.value else 0) + (if a == to then n.entry.value else 0)
  {
    hide Nonce, Code, Storage, Balance, Touch, SetNonce, LegalNest, SameCode;
    PlainCounts(rules, depth, w, sender, to, n, 0);
    forall a ensures Nonce(n.out.world, a) == Nonce(w, a) + (if a == sender then 1 else 0) && SameCode(w, n.out.world, a) {
      PlainCounts(rules, depth, w, sender, to, n, a);
    }
    if n.out.err.None? {
      forall a ensures Balance(n.out.world, a) == Balance(w, a)
                         - (if a == sender then n.entry.value else 0) + (if a == to then n.entry.value else 0) {
        PlainCounts(rules, depth, w, sender, to, n, a);
      }
    }
  }

  /** A message that creates: the code returned may be stored, at the address entered. */
  lemma CreateCounts(rules: Rules, depth: nat, w: State, n: Nest, r: State)
    requires LegalNest(rules, depth, w, n) && (r == n.out.world || r == SetCode(n.out.world, n.out.addr, n.out.ret))
    ensures Counts(w, r, n, None) && Untouched(w, r, n)
    ensures Unborn(rules, n.entry.caller) && n.entry.address.None? && n.run.Some? ==>
      Nonce(r, n.entry.caller) > Nonce(w, n.entry.caller)
  {
    hide SetCode, Nonce, Code, Storage, Grown, NeverIn, LegalNest;
    forall a ensures Nonce(r, a) == Grown(n, a, Nonce(w, a)) {
      NestKeeps(rules, depth, w, n, a);
      SetCodeLaw(n.out.world, n.out.addr, n.out.ret, a);
    }
    forall a | NeverIn(n, a) ensures SameCode(w, r, a) {
      NestKeeps(rules, depth, w, n, a);
      SetCodeLaw(n.out.world, n.out.addr, n.out.ret, a);
      NeverInAddr(n, a);
    }
    if Unborn(rules, n.entry.caller) && n.entry.address.None? && n.run.Some? {
      NonceNeverFalls(rules, depth, w, n, n.entry.caller);
      SetCodeLaw(n.out.world, n.out.addr, n.out.ret, n.entry.caller);
    }
  }

  lemma RanIff(rules: Rules, depth: nat, w: State, n: Nest)
    requires LegalNest(rules, depth, w, n)
    ensures n.run.Some? <==> n.out.err != Some(DepthError) && n.out.err != Some(ValueTransfer)
  {
    hide LegalTree, Transfer, Entered, Bumped;
    if n.run.Some? {
      TreeErrors(rules, depth + 1, n.run.value);
    }
  }

  /** Why nothing may be created at the sender's address: an account is born with nonce zero, whatever it was before. */
  lemma BornAtZero(rules: Rules, depth: nat, w: State, n: Nest, a: Addr)
    requires LegalNest(rules, depth, w, n) && n.entry.address.None? && n.entry.code == [] && n.entry.codeAddr.None? && n.run.Some?
    ensures var e, o := n.entry, n.out;
            && o.err.None? && o.addr == rules.createAddress(e.caller, Nonce(w, e.caller))
            && Balance(o.world, a) == Balance(w, a) - (if a == e.caller then e.value else 0) + (if a == o.addr then e.value else 0)
            && Nonce(o.world, a) == (if a == o.addr then 0 else Nonce(w, a) + if a == e.caller then 1 else 0)
            && (if a == o.addr then Code(o.world, a) == [] && forall k :: Storage(o.world, a, k) == 0 else SameCode(w, o.world, a))
  {
    RanIff(rules, depth, w, n);
    NestFacts(rules, depth, w, n);
    hide Transfer, Entered, Balance, Nonce, Code;
    BegunLaw(w, n.entry.caller, true, n.out.addr, n.entry.value, a);
  }

  /** The refund: half of the gas spent, or the refund counter if that is less. */
  function RefundOf(spent: nat, counter: nat): (r: nat)
    ensures r <= spent / 2 && r <= counter && (r == spent / 2 || r == counter)
  {
    if spent / 2 > counter then counter else spent / 2
  }

  /** The refund counter once the refund is paid: overwritten with the payment when it was the smaller amount. */
  function CounterAfter(spent: nat, counter: nat, price: nat): (r: nat)
  {
    if spent / 2 > counter then counter * price else counter
  }

  /** The counter survives exactly when half the gas spent is not more than it, it is zero, or gas costs one wei. */
  lemma CounterKeptIff(spent: nat, counter: nat, price: nat)
    ensures CounterAfter(spent, counter, price) == counter <==> spent / 2 <= counter || counter == 0 || price == 1
  {
    if counter > 0 && price != 1 {
      Scaled(counter, price);
    }
  }

  lemma Scaled(c: nat, p: nat)
    requires c > 0 && p != 1
    ensures c * p != c
  {
    if p > 1 {
      assert c * p >= c * 2;
    }
  }

  /** 50000 gas spent at two wei against a counter of 15000. */
  lemma CounterLost()
    ensures CounterAfter(50000, 15000, 2) == 30000
  {}

  lemma EmptyIsWord()
    ensures IsWord(0)
  {}

  /** The world a call begins in, and the code it calls. */
  lemma CalledNarrow(w: State, sender: Addr, to: Addr)
    requires NarrowState(w)
    ensures var r := Touch(SetNonce(w, sender, Nonce(w, sender) + 1), to); NarrowState(r) && IsWord(|Code(r, to)|)
  {
    hide Slots, Wei;
    var t := Bumped(w, sender, true);
    BumpedSlots(w, sender, true);
    TouchSlots(t, to);
    WeiEntered(w, sender, true, to);
    KeepsTouch(t, to, 0);
    CodeIsNarrow(Touch(t, to), to);
  }

  class StateTransition {
    const env: Env
    const msg: Message
    var gas: nat
    var initialGas: nat

    constructor (env: Env, msg: Message)
      ensures this.env == env && this.msg == msg && gas == 0 && initialGas == 0
    {
      this.env, this.msg, gas, initialGas := env, msg, 0, 0;
    }

    method BuyGas(sender: Addr) returns (err: Option<TxError>)
      requires sender in env.world.accounts
      modifies this, env`world
      ensures err.Some? <==> Balance(old(env.world), sender) < msg.gas * msg.gasPrice
                             || Pool(old(env.world), env.coinbase) < msg.gas
      ensures err == Some(NoFunds) <==> Balance(old(env.world), sender) < msg.gas * msg.gasPrice
      ensures err.Some? ==> err.value in {NoFunds, GasLimit}
      ensures err.None? ==> gas == old(gas) + msg.gas && initialGas == msg.gas && sender in env.world.accounts
      ensures err.None? ==> forall a ::
        Balance(env.world, a) == Balance(old(env.world), a) - if a == sender then msg.gas * msg.gasPrice else 0
      ensures err.None? ==> env.world.refund == old(env.world).refund && Insides(old(env.world), env.world)
      ensures err.None? ==> Wei(env.world) == Wei(old(env.world)) - msg.gas * msg.gasPrice
      ensures err.None? ==> Pool(env.world, env.coinbase) == Pool(old(env.world), env.coinbase) - msg.gas
    {
      hide Insides;
      var cost, cb := msg.gas * msg.gasPrice, env.coinbase;
      if Balance(env.world, sender) < cost {
        return Some(NoFunds);
      }
      ghost var w := env.world;
      env.world := Touch(env.world, cb);
      KeepsTouch(w, cb, cb);
      var account := env.world.accounts[cb];
      if account.pool < msg.gas {
        return Some(GasLimit);
      }
      ghost var x := env.world;
      env.world := Put(env.world, cb, account.(pool := account.pool - msg.gas));
      TotalUpdate(x.accounts, cb, account.(pool := account.pool - msg.gas));
      gas := gas + msg.gas;
      initialGas := msg.gas;
      WeiSub(env.world, sender, cost, cb);
      BoughtFacts(w, cb, msg.gas, sender, cost);
      env.world := SubBalance(env.world, sender, cost);
      err := None;
    }

    /**
     refundGas: the sender gets the value of the gas left and of the refund, the coinbase gets that gas
     back into its pool. The smaller of half the gas spent and the refund counter is taken by reference and
     multiplied by the gas price in place.
     */
    method RefundGas(sender: Addr)
      requires gas <= initialGas
      modifies this`gas, env`world
      ensures var refund := RefundOf(initialGas - old(gas), old(env.world).refund);
              && gas == old(gas) + refund
              && Pool(env.world, env.coinbase) == Pool(old(env.world), env.coinbase) + gas
              && Wei(env.world) == Wei(old(env.world)) + gas * msg.gasPrice
              && env.world.refund == CounterAfter(initialGas - old(gas), old(env.world).refund, msg.gasPrice)
              && forall a ::
                   Balance(env.world, a) == Balance(old(env.world), a) + if a == sender then gas * msg.gasPrice else 0
      ensures Insides(old(env.world), env.world)
    {
      hide AddBalance, Balance, Wei, Pool, Insides;
      var cb, price := env.coinbase, msg.gasPrice;
      ghost var w, left := env.world, gas;
      TouchFacts(env.world, cb);
      env.world := Touch(env.world, cb);
      var remaining := gas * price;
      AddFacts(env.world, sender, remaining, cb);
      ghost var t := env.world;
      env.world := AddBalance(env.world, sender, remaining);
      ghost var x := env.world;
      InsidesThen(w, t, x);
      var paid := TakeRefund(price);
      CounterFacts(x, env.world, cb);
      InsidesThen(w, x, env.world);
      ghost var y := env.world;
      AddFacts(env.world, sender, paid, cb);
      env.world := AddBalance(env.world, sender, paid);
      InsidesThen(w, y, env.world);
      ghost var z := env.world;
      PoolFacts(env.world, cb, gas);
      env.world := Put(env.world, cb, env.world.accounts[cb].(pool := env.world.accounts[cb].pool + gas));
      InsidesThen(w, z, env.world);
      Distribute(left, gas - left, price);
    }

    /** The refund, and what it pays; the counter itself is multiplied when it is the smaller amount. */
    method TakeRefund(price: nat) returns (paid: nat)
      requires gas <= initialGas
      modifies this`gas, env`world
      ensures var used, w := initialGas - old(gas), old(env.world);
              && gas == old(gas) + RefundOf(used, w.refund) && paid == RefundOf(used, w.refund) * price
              && env.world == w.(refund := CounterAfter(used, w.refund, price))
    {
      var counter := new BigInt(env.world.refund);
      var uhalf := new BigInt((initialGas - gas) / 2);
      var refund := if uhalf.v > counter.v then counter else uhalf;
      gas := gas + refund.v;
      refund.v := refund.v * price;
      env.world := env.world.(refund := counter.v);
      paid := refund.v;
    }

    /** A payment to an account without code. */
    ghost predicate Plain(w: State)
      requires msg.to.Some?
    {
      Code(w, msg.to.value) == [] && !IsPrecompiled(msg.to.value)
    }

    /** What a message asks the machine to do: to run the data as new code, or the receiver's code on the data. */
    ghost predicate Asked(w: State, sender: Addr, gas: nat, e: Entry)
    {
      && e.address == msg.to && e.codeAddr == msg.to && e.caller == sender && e.value == msg.value && e.gas == gas
      && (msg.to.Some? ==> e.code == Code(w, msg.to.value) && e.input == msg.data)
      && (msg.to.None? ==> e.code == msg.data && e.input == [])
    }

    ghost predicate NarrowMessage(sender: Addr)
    {
      IsWord(sender) && (msg.to.Some? ==> IsWord(msg.to.value)) && IsWord(|msg.data|)
    }

    /** The message itself: a contract creation or a call, with the gas left after the intrinsic gas. */
    method Execute(sender: Addr) returns (ret: seq<Byte>, err: Option<VmError>, ghost nest: Nest)
      requires env.Valid() && gas < TWO64 && sender in env.world.accounts
      modifies this`gas, env
      ensures Asked(old(env.world), sender, old(gas), nest.entry)
      ensures Counts(old(env.world), env.world, nest, if msg.to.Some? then Some(sender) else None)
      ensures Untouched(old(env.world), env.world, nest) && env.world.logs == nest.out.world.logs
      ensures Unborn(env.RulesOf(), sender) && err != Some(ValueTransfer) && (msg.to.Some? || old(env.depth) <= 1024) ==>
        Nonce(env.world, sender) > Nonce(old(env.world), sender)
      ensures msg.to.Some? && Plain(old(env.world)) ==> OnlyBumps(old(env.world), env.world, sender)
      ensures msg.to.None? && err.None? && 200 * |nest.out.ret| <= nest.out.back ==>
        Code(env.world, nest.out.addr) == nest.out.ret && ret == nest.out.ret
      ensures gas <= old(gas) && Keeps(old(env.world), env.world, env.coinbase)
      ensures Wei(env.world) + env.Lost() == Wei(old(env.world))
      ensures err.None? && msg.to.Some? && Plain(old(env.world)) ==> gas == old(gas) && forall a ::
        Balance(env.world, a) == Balance(old(env.world), a)
          - (if a == sender then msg.value else 0) + (if a == msg.to.value then msg.value else 0)
      ensures err.None? && msg.to.Some? && Plain(old(env.world)) ==> env.world.refund == old(env.world).refund
      ensures env.NarrowIs(old(env.world)) && NarrowMessage(sender) && old(env.words) ==> env.words
    {
      hide *;
      if msg.to.None? {
        ret, err, nest := ExecuteCreate(sender);
      } else {
        ret, err, nest := ExecuteCall(sender);
      }
    }

    method ExecuteCreate(sender: Addr) returns (ret: seq<Byte>, err: Option<VmError>, ghost nest: Nest)
      requires env.Valid() && gas < TWO64 && sender in env.world.accounts && msg.to.None?
      modifies this`gas, env
      ensures LegalNest(env.RulesOf(), old(env.depth), old(env.world), nest) && Asked(old(env.world), sender, old(gas), nest.entry)
      ensures Counts(old(env.world), env.world, nest, None) && Untouched(old(env.world), env.world, nest)
      ensures env.world.logs == nest.out.world.logs
      ensures Unborn(env.RulesOf(), sender) && err != Some(ValueTransfer) && old(env.depth) <= 1024 ==>
        Nonce(env.world, sender) > Nonce(old(env.world), sender)
      ensures err.None? && 200 * |nest.out.ret| <= nest.out.back ==>
        Code(env.world, nest.out.addr) == nest.out.ret && ret == nest.out.ret
      ensures gas <= old(gas) && Keeps(old(env.world), env.world, env.coinbase)
      ensures Wei(env.world) + env.Lost() == Wei(old(env.world))
      ensures env.NarrowIs(old(env.world)) && NarrowMessage(sender) && old(env.words) ==> env.words
    {
      hide Keeps, Wei, MeaningAll, LostAll, NarrowState, NarrowBlock, IsWord, Entered, Transfer, LegalNest, Counts, Untouched,
           Nonce;
      var cb := env.coinbase;
      ghost var w := env.world;
      var back, addr;
      env.trace, env.start := [], env.world;
      NothingDone(env.world);
      EmptyIsWord();
      ret, err, back, addr, nest := env.Exec(None, None, msg.data, sender, [], gas, msg.value);
      gas := back;
      RanIff(env.RulesOf(), env.depth, w, nest);
      if err.None? {
        if gas >= 200 * |ret| {
          gas := gas - 200 * |ret|;
          ghost var x := env.world;
          env.world := SetCode(env.world, addr, ret);
          KeepsPut(x, addr, env.world.accounts[addr], cb);
          KeepsThen(w, x, env.world, cb);
        } else {
          ret := [];
        }
      }
      CreateCounts(env.RulesOf(), env.depth, w, nest, env.world);
    }

    method ExecuteCall(sender: Addr) returns (ret: seq<Byte>, err: Option<VmError>, ghost nest: Nest)
      requires env.Valid() && gas < TWO64 && sender in env.world.accounts && msg.to.Some?
      modifies this`gas, env
      ensures Asked(old(env.world), sender, old(gas), nest.entry)
      ensures Counts(old(env.world), env.world, nest, Some(sender)) && Untouched(old(env.world), env.world, nest)
      ensures env.world.logs == nest.out.world.logs
      ensures Unborn(env.RulesOf(), sender) ==> Nonce(env.world, sender) > Nonce(old(env.world), sender)
      ensures Plain(old(env.world)) ==> OnlyBumps(old(env.world), env.world, sender)
      ensures gas <= old(gas) && Keeps(old(env.world), env.world, env.coinbase)
      ensures Wei(env.world) + env.Lost() == Wei(old(env.world))
      ensures err.None? && Plain(old(env.world)) ==> gas == old(gas) && forall a ::
        Balance(env.world, a) == Balance(old(env.world), a)
          - (if a == sender then msg.value else 0) + (if a == msg.to.value then msg.value else 0)
      ensures err.None? && Plain(old(env.world)) ==> env.world.refund == old(env.world).refund
      ensures env.NarrowIs(old(env.world)) && NarrowMessage(sender) && old(env.words) ==> env.words
    {
      hide Keeps, Wei, MeaningAll, LostAll, NarrowState, NarrowBlock, IsWord, SetNonce, Touch, Nonce, Balance, Code, Storage,
           LegalNest, Counts, Untouched, Transfer, Entered, OnlyBumps;
      var cb := env.coinbase;
      ghost var w := env.world;
      var to := msg.to.value;
      KeepsCalled(w, sender, to, cb);
      CalledWorld(w, sender, to, to);
      env.world := SetNonce(env.world, sender, Nonce(env.world, sender) + 1);
      env.world := Touch(env.world, to);
      ghost var y := env.world;
      var back, addr;
      env.trace, env.start := [], env.world;
      NothingDone(env.world);
      if env.NarrowIs(w) {
        CalledNarrow(w, sender, to);
      }
      ret, err, back, addr, nest := env.Exec(Some(to), Some(to), Code(env.world, to), sender, msg.data, gas, msg.value);
      gas := back;
      KeepsThen(w, y, env.world, cb);
      CallCounts(env.RulesOf(), env.depth, w, sender, to, nest);
      if Plain(w) {
        PlainPays(env.RulesOf(), env.depth, w, sender, to, nest);
      }
    }

    /** preCheck and the intrinsic gas: the sender has paid for all the gas. */
    method PreCheck() returns (err: Option<TxError>)
      requires gas == 0 && initialGas == 0
      modifies this, env`world
      ensures err == Some(NoSender) <==> msg.from.None?
      ensures err == Some(BadNonce) <==> msg.from.Some? && Nonce(old(env.world), msg.from.value) != msg.nonce
      ensures var w := old(env.world);
              var known := msg.from.Some? && Nonce(w, msg.from.value) == msg.nonce;
              var funded := known && Balance(w, msg.from.value) >= msg.gas * msg.gasPrice;
              && (err == Some(NoFunds) <==> known && !funded)
              && (err == Some(GasLimit) <==> funded && Pool(w, env.coinbase) < msg.gas)
              && (err == Some(NoIntrinsicGas) <==> funded && Pool(w, env.coinbase) >= msg.gas && msg.gas < Intrinsic(msg.data))
      ensures err.Some? ==> err.value in {NoSender, BadNonce, NoFunds, GasLimit, NoIntrinsicGas}
      ensures err.None? ==> msg.from.Some? && msg.from.value in env.world.accounts && msg.gas <= Pool(old(env.world), env.coinbase)
      ensures err.None? ==> initialGas == msg.gas && gas == msg.gas - Intrinsic(msg.data)
      ensures err.None? ==> forall a ::
        Balance(env.world, a) == Balance(old(env.world), a) - if a == msg.from.value then msg.gas * msg.gasPrice else 0
      ensures err.None? ==> Insides(old(env.world), env.world) && Wei(env.world) == Wei(old(env.world)) - msg.gas * msg.gasPrice
      ensures err.None? ==> Pool(env.world, env.coinbase) == Pool(old(env.world), env.coinbase) - msg.gas
    {
      hide Balance, Pool, Wei, Touch, Code, Nonce, Insides;
      ghost var w := env.world;
      if msg.from.None? {
        return Some(NoSender);
      }
      var sender := msg.from.value;
      TouchFacts(env.world, sender);
      TouchPool(env.world, sender, env.coinbase);
      env.world := Touch(env.world, sender);
      if Nonce(env.world, sender) != msg.nonce {
        return Some(BadNonce);
      }
      ghost var x := env.world;
      err := BuyGas(sender);
      if err.Some? {
        return;
      }
      InsidesThen(w, x, env.world);
      var igas := IntrinsicGas(msg.data);
      if gas < igas {
        return Some(NoIntrinsicGas);
      }
      gas := gas - igas;
    }

    /** The sender is refunded, the coinbase is paid: together exactly the price of the gas bought. */
    method Settle(sender: Addr)
      requires gas <= initialGas
      modifies this`gas, env`world
      ensures gas == old(gas) + RefundOf(initialGas - old(gas), old(env.world).refund)
      ensures Pool(env.world, env.coinbase) == Pool(old(env.world), env.coinbase) + gas
      ensures Wei(env.world) == Wei(old(env.world)) + initialGas * msg.gasPrice
      ensures env.world.refund == CounterAfter(initialGas - old(gas), old(env.world).refund, msg.gasPrice)
      ensures forall a :: Balance(env.world, a) == Balance(old(env.world), a)
                            + (if a == sender then gas * msg.gasPrice else 0)
                            + (if a == env.coinbase then (initialGas - gas) * msg.gasPrice else 0)
      ensures Insides(old(env.world), env.world)
    {
      hide Balance, Pool, Wei, AddBalance, RefundOf, CounterAfter, Insides;
      RefundGas(sender);
      ghost var x := env.world;
      var fee := (initialGas - gas) * msg.gasPrice;
      Distribute(initialGas - gas, gas, msg.gasPrice);
      assert fee + gas * msg.gasPrice == initialGas * msg.gasPrice;
      AddFacts(env.world, env.coinbase, fee, env.coinbase);
      env.world := AddBalance(env.world, env.coinbase, fee);
      InsidesThen(old(env.world), x, env.world);
    }

    /**
     The whole transition. Whenever it returns a used-gas amount: at most half of what was spent is
     refunded, the coinbase's pool falls by exactly the gas used, and the sum of balances falls by exactly
     what contracts destroyed that named themselves as receivers, in calls that were not rolled back.
     */
    method TransitionState()
      returns (ret: seq<Byte>, used: Option<nat>, err: Option<TxError>, ghost spent: nat, ghost nest: Nest)
      requires env.Valid() && gas == 0 && initialGas == 0 && Pool(env.world, env.coinbase) < TWO64
      modifies this, env
      ensures used.None? ==> err.Some? && !err.value.Failed?
      ensures used.Some? ==> (err.Some? ==> err.value.Failed?) && msg.from.Some?
      ensures used.Some? ==> Intrinsic(msg.data) <= spent <= msg.gas && used.value <= spent <= 2 * used.value
      ensures used.Some? ==> Pool(env.world, env.coinbase) == Pool(old(env.world), env.coinbase) - used.value
      ensures used.Some? ==> Wei(env.world) + env.Lost() == Wei(old(env.world))
      ensures used.Some? && err.None? && msg.to.Some? && Plain(old(env.world)) ==> forall a ::
        Balance(env.world, a) == Balance(old(env.world), a)
          - (if a == msg.from.value then msg.value + used.value * msg.gasPrice else 0)
          + (if a == msg.to.value then msg.value else 0)
          + (if a == env.coinbase then used.value * msg.gasPrice else 0)
      ensures used.Some? ==> Nonce(old(env.world), msg.from.value) == msg.nonce
      ensures used.Some? ==> Asked(old(env.world), msg.from.value, msg.gas - Intrinsic(msg.data), nest.entry)
      ensures used.Some? ==> Counts(old(env.world), env.world, nest, if msg.to.Some? then msg.from else None)
      ensures used.Some? ==> Untouched(old(env.world), env.world, nest) && env.world.logs == nest.out.world.logs
      ensures used.Some? && Unborn(env.RulesOf(), msg.from.value) && (msg.to.Some? || old(env.depth) <= 1024) ==>
        Nonce(env.world, msg.from.value) > Nonce(old(env.world), msg.from.value)
      ensures used.Some? && msg.to.Some? && Plain(old(env.world)) ==> OnlyBumps(old(env.world), env.world, msg.from.value)
      ensures used.Some? && err.None? && msg.to.None? && 200 * |nest.out.ret| <= nest.out.back ==>
        Code(env.world, nest.out.addr) == nest.out.ret && ret == nest.out.ret
    {
      hide Keeps, Balance, Pool, Wei, Code, Nonce, Storage, Counts, Untouched, Insides, SameInside, OnlyBumps, CounterAfter, Unborn;
      ret, used, spent := [], None, 0;
      nest := Nest(Entry(None, None, [], 0, [], 0, 0), Outcome([], None, 0, 0, env.world), None);
      err := PreCheck();
      if err.Some? {
        return;
      }
      var sender := msg.from.value;
      ghost var w, bought := old(env.world), env.world;
      var vmErr;
      ret, vmErr, nest := Execute(sender);
      if vmErr == Some(ValueTransfer) {
        return [], None, Some(NoValue), 0, nest;
      }
      ghost var ran := env.world;
      InsideAt(w, bought, sender);
      if msg.to.Some? {
        InsideAt(w, bought, msg.to.value);
      }
      KeepsFacts(bought, env.world, env.coinbase);
      spent := initialGas - gas;
      Settle(sender);
      used := Some(initialGas - gas);
      err := if vmErr.Some? then Some(Failed(vmErr.value)) else None;
      Distribute(initialGas - gas, gas, msg.gasPrice);
      InsideAt(ran, env.world, sender);
      InsideAt(ran, env.world, nest.out.addr);
      CountsBetween(w, bought, ran, env.world, nest, if msg.to.Some? then msg.from else None);
      if msg.to.Some? && Plain(w) {
        BumpsBetween(w, bought, ran, env.world, sender);
      }
    }
  }

  /** ApplyMessage; a message that was applied once is refused the second time. */
  method ApplyTwice(env: Env, msg: Message) returns (first: Option<nat>, second: Option<TxError>)
    requires env.Valid() && Pool(env.world, env.coinbase) < TWO64 && (msg.to.Some? || env.depth <= 1024)
    requires msg.from.Some? ==> Unborn(env.RulesOf(), msg.from.value)
    modifies env
    ensures first.Some? ==> second == Some(BadNonce)
  {
    hide Counts, Untouched, Nonce, Code, Storage;
    second := None;
    var st := new StateTransition(env, msg);
    var ret, err;
    ghost var spent, nest;
    ret, first, err, spent, nest := st.TransitionState();
    if first.Some? {
      var again := new StateTransition(env, msg);
      second := again.PreCheck();
    }
  }

  lemma KeepsFacts(w: State, r: State, cb: Addr)
    requires Keeps(w, r, cb)
    ensures Pool(r, cb) == Pool(w, cb)
  {}

  lemma TouchPool(w: State, a: Addr, cb: Addr)
    ensures Pool(Touch(w, a), cb) == Pool(w, cb)
  {}

  lemma TouchFacts(w: State, a: Addr)
    ensures var r := Touch(w, a);
            && Wei(r) == Wei(w) && Pool(r, a) == Pool(w, a) && r.refund == w.refund && Insides(w, r)
            && Nonce(r, a) == Nonce(w, a)
            && forall x :: Balance(r, x) == Balance(w, x)
  {
    KeepsTouch(w, a, a);
  }

  lemma AddFacts(w: State, a: Addr, v: nat, cb: Addr)
    ensures var r := AddBalance(w, a, v);
            && Wei(r) == Wei(w) + v && Pool(r, cb) == Pool(w, cb) && r.refund == w.refund
            && w.accounts.Keys <= r.accounts.Keys && Insides(w, r)
            && forall x :: Balance(r, x) == Balance(w, x) + if x == a then v else 0
  {
    WeiAdd(w, a, v, cb);
  }

  lemma PoolFacts(w: State, cb: Addr, gas: nat)
    requires cb in w.accounts
    ensures var r := Put(w, cb, w.accounts[cb].(pool := w.accounts[cb].pool + gas));
            && Wei(r) == Wei(w) && Pool(r, cb) == Pool(w, cb) + gas && r.refund == w.refund && Insides(w, r)
            && forall x :: Balance(r, x) == Balance(w, x)
  {
    TotalUpdate(w.accounts, cb, w.accounts[cb].(pool := w.accounts[cb].pool + gas));
  }

  lemma BoughtFacts(w: State, cb: Addr, gas: nat, sender: Addr, cost: nat)
    requires Pool(w, cb) >= gas && sender in w.accounts && w.accounts[sender].balance >= cost
    ensures var t := Touch(w, cb);
            var x := Put(t, cb, t.accounts[cb].(pool := t.accounts[cb].pool - gas));
            Insides(w, SubBalance(x, sender, cost))
  {}

  lemma CounterFacts(w: State, r: State, cb: Addr)
    requires r.accounts == w.accounts && r.logs == w.logs
    ensures Wei(r) == Wei(w) && Pool(r, cb) == Pool(w, cb) && Insides(w, r) && forall x :: Balance(r, x) == Balance(w, x)
  {}

  lemma Distribute(a: int, b: int, p: int)
    ensures (a + b) * p == a * p + b * p
  {}
}
