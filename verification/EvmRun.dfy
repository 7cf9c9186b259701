/**
 What a run of the machine is, as a value: the states between its turns, and with every call the run it
 started. Each state follows from the one before by what the opcode there means.
 */
module EvmRun {
  import opened Bytes
  import opened World
  import opened Effects
  import opened EvmCode
  import opened EvmMachine
  import opened EvmGas
  import opened EvmLook

  // ---------- operands ----------

  /** The first n items, the top one first. */
  function Args(d: seq<nat>, n: nat): (a: seq<nat>)
    requires n <= |d|
  {
    seq(n, i requires 0 <= i < n => Top(d, i))
  }

  /** The topics of a LOG: the items below offset and size. */
  function Topics(d: seq<nat>, n: nat): (t: seq<nat>)
    requires 2 <= n <= |d|
    decreases n
  {
    if n == 2 then [] else Topics(d, n - 1) + [ToHash(Top(d, n - 1))]
  }

  predicate WritesMemory(op: Byte)
  {
    op == CALLDATACOPY || op == CODECOPY || op == EXTCODECOPY || op == MSTORE || op == MSTORE8
  }

  /** What a memory opcode writes. */
  function Payload(op: Byte, d: seq<nat>, w: State, code: seq<Byte>, input: seq<Byte>): (b: seq<Byte>)
    requires |d| >= Pops(op) && WritesMemory(op)
    ensures |b| == Ranges(op, d)[0].size
  {
    if op == MSTORE then ToBytes32(Top(d, 1))[..32]
    else if op == MSTORE8 then [(Top(d, 1) % 256) as Byte]
    else if op == EXTCODECOPY then GetData(Code(w, ToAddr(Top(d, 0))), Top(d, 2), Top(d, 3))
    else GetData(if op == CODECOPY then code else input, Top(d, 1), Top(d, 2))
  }

  function Spliced(store: seq<Byte>, offset: nat, b: seq<Byte>): (r: seq<Byte>)
    requires b != [] ==> offset + |b| <= |store|
  {
    if b == [] then store else store[..offset] + b + store[offset + |b|..]
  }

  lemma SplicedIs(store: seq<Byte>, offset: nat, b: seq<Byte>)
    requires b != [] ==> offset + |b| <= |store|
    ensures b == [] ==> Spliced(store, offset, b) == store
    ensures b != [] ==> Spliced(store, offset, b) == store[..offset] + b + store[offset + |b|..]
    ensures |Spliced(store, offset, b)| == |store| && b == b[..|b|]
  {}

  /** The one range a memory write touches. */
  lemma RangesOf(op: Byte, d: seq<nat>)
    requires |d| >= Pops(op)
    ensures op == MSTORE ==> Ranges(op, d) == [Range(Top(d, 0), 32)]
    ensures op == MSTORE8 ==> Ranges(op, d) == [Range(Top(d, 0), 1)]
    ensures op == CALLDATACOPY || op == CODECOPY ==> Ranges(op, d) == [Range(Top(d, 0), Top(d, 2))]
    ensures op == EXTCODECOPY ==> Ranges(op, d) == [Range(Top(d, 1), Top(d, 3))]
  {
    hide Pops;
  }

  /** Where a memory opcode writes and what, case by case. */
  lemma WriteCases(op: Byte, d: seq<nat>, have: nat, w: State, code: seq<Byte>, input: seq<Byte>)
    requires |d| >= Pops(op) && Covers(have, Ranges(op, d)) && WritesMemory(op)
    ensures |Ranges(op, d)| > 0
    ensures var r, b := Ranges(op, d)[0], Payload(op, d, w, code, input);
            && |b| == r.size && (r.size > 0 ==> r.offset + r.size <= have)
            && (op == MSTORE ==> r == Range(Top(d, 0), 32) && b == ToBytes32(Top(d, 1))[..32])
            && (op == MSTORE8 ==> r == Range(Top(d, 0), 1) && b == [(Top(d, 1) % 256) as Byte])
            && (op == EXTCODECOPY ==>
                  r == Range(Top(d, 1), Top(d, 3)) && b == GetData(Code(w, ToAddr(Top(d, 0))), Top(d, 2), Top(d, 3)))
            && (op == CALLDATACOPY || op == CODECOPY ==>
                  r == Range(Top(d, 0), Top(d, 2)) && b == GetData(if op == CODECOPY then code else input, Top(d, 1), Top(d, 2)))
  {
    hide Pops, GetData, ToBytes32;
    RangesOf(op, d);
  }

  predicate IsByteAt(code: seq<Byte>, p: nat, b: Byte) { p < |code| && code[p] == b }

  ghost predicate IsDest(code: seq<Byte>, p: nat)
  {
    IsByteAt(code, p, JUMPDEST) && IsStart(code, p)
  }

  /** The contracts at addresses 1 to 4 are built in. */
  predicate IsPrecompiled(a: Addr) { 1 <= a <= 4 }

  predicate Builtin(a: Option<Addr>) { a.Some? && IsPrecompiled(a.value) }

  function PrecompiledGas(a: Addr, l: nat): (g: nat)
  {
    if a == 1 then 3000
    else if a == 2 then 60 + 12 * ToWords(l)
    else if a == 3 then 600 + 120 * ToWords(l)
    else 15 + 3 * ToWords(l)
  }

  // ---------- states ----------

  /** What is the same for all calls of an execution. */
  datatype Rules = Rules(block: Block, coinbase: Addr, createAddress: (Addr, nat) -> Addr,
                         precompiled: (Addr, seq<Byte>) -> seq<Byte>)

  /** What one call is given. */
  datatype Frame = Frame(self: Addr, caller: Addr, codeAddr: Option<Addr>, code: seq<Byte>, value: nat, input: seq<Byte>)

  /** The state between two turns; slice is the length of the slice behind the stack. */
  datatype Machine = Machine(pc: nat, items: seq<nat>, slice: nat, memory: seq<Byte>, gas: nat, world: State)

  /** What an execution is asked to do, and what became of it. */
  datatype Entry = Entry(address: Option<Addr>, codeAddr: Option<Addr>, code: seq<Byte>, caller: Addr, input: seq<Byte>,
                         gas: nat, value: nat)

  datatype Outcome = Outcome(ret: seq<Byte>, err: Option<VmError>, back: nat, addr: Addr, world: State)

  datatype Nest = Nest(entry: Entry, out: Outcome, run: Option<Tree>)

  datatype Turn = Turn(at: Machine, inner: Option<Nest>)

  datatype Tree = Tree(frame: Frame, start: State, gas: nat, turns: seq<Turn>, ret: seq<Byte>, err: Option<VmError>,
                       left: nat, end: State)

  function OpOf(f: Frame, m: Machine): (op: Byte)
  {
    OpAt(f.code, m.pc)
  }

  // ---------- paying ----------

  /** The least memory that covers some ranges. */
  function Need(rs: seq<Range>): (n: nat)
  {
    if rs == [] then 0
    else
      var x, y := CalcMemSize(rs[0].offset, rs[0].size), Need(rs[1..]);
      if x > y then x else y
  }

  lemma {:induction false} NeedCovers(rs: seq<Range>, m: nat)
    ensures Covers(m, rs) <==> Need(rs) <= m
  {
    if rs != [] {
      NeedCovers(rs[1..], m);
      assert rs == [rs[0]] + rs[1..];
      assert Covers(m, rs) <==> (rs[0].size > 0 ==> rs[0].offset + rs[0].size <= m) && Covers(m, rs[1..]);
    }
  }

  lemma LeastIsNeed(rs: seq<Range>, n: nat)
    requires LeastCover(n, rs)
    ensures n == Need(rs)
  {
    NeedCovers(rs, n);
    NeedCovers(rs, Need(rs));
  }

  /** Memory is bought in whole words. */
  function SizeFor(op: Byte, d: seq<nat>): (n: nat)
    requires |d| >= Pops(op)
  {
    32 * ToWords(Need(Ranges(op, d)))
  }

  function Cost(f: Frame, m: Machine): (g: int)
    requires |m.items| >= Pops(OpOf(f, m))
  {
    var op := OpOf(f, m);
    PriceIn(op, m.items, m.world, f.self) + GrowFee(|m.memory|, SizeFor(op, m.items))
  }

  /** The items, the room and the memory an opcode needs are there. */
  ghost predicate CanAct(f: Frame, m: Machine)
  {
    var op := OpOf(f, m);
    Enough(op, m.slice, |m.items|) && |m.items| >= Pops(op) && Covers(|m.memory|, Ranges(op, m.items))
  }

  /** The machine once the opcode is paid for; none if the stack or the gas does not allow it. */
  ghost function Paid(f: Frame, m: Machine): (r: Option<Machine>)
    ensures r.Some? ==> CanAct(f, r.value) && r.value.pc == m.pc && r.value.items == m.items
  {
    var op := OpOf(f, m);
    if !Enough(op, m.slice, |m.items|) || m.gas < Cost(f, m) then None
    else
      NeedCovers(Ranges(op, m.items), |Widened(m.memory, SizeFor(op, m.items))|);
      Some(m.(memory := Widened(m.memory, SizeFor(op, m.items)), gas := m.gas - Cost(f, m),
              world := m.world.(refund := m.world.refund + RefundFor(op, m.items, m.world, f.self))))
  }

  /** Why an opcode cannot be paid for. */
  ghost function PayError(f: Frame, m: Machine): (e: VmError)
    requires Paid(f, m).None?
  {
    var op := OpOf(f, m);
    if Enough(op, m.slice, |m.items|) then OutOfGas else StackError(op, m.slice, |m.items|)
  }

  // ---------- acting ----------

  function Max(a: nat, b: nat): (m: nat)
  {
    if a < b then b else a
  }

  /** On to the next instruction with these items. */
  function Onward(f: Frame, m: Machine, items: seq<nat>): (r: Machine)
  {
    m.(pc := NextPc(f.code, m.pc), items := items, slice := Max(m.slice, |items|))
  }

  function ViewOf(f: Frame, m: Machine): (v: View)
    requires |m.items| >= Pops(OpOf(f, m))
  {
    var op := OpOf(f, m);
    View(op, Args(m.items, Pops(op)), m.world, f.self, f.caller, f.value, m.gas, m.pc, m.memory, f.input, f.code)
  }

  predicate Shuffles(op: Byte)
  {
    op == POP || IsPush(op) || IsDup(op) || IsSwap(op)
  }

  function Shuffled(op: Byte, code: seq<Byte>, pc: nat, d: seq<nat>): (r: seq<nat>)
    requires |d| >= Pops(op) && Shuffles(op)
  {
    if op == POP then d[..|d| - 1]
    else if IsPush(op) then d + [FromBigEndian(GetData(code, pc + 1, (op - PUSH1 + 1) as nat))]
    else if IsDup(op) then d + [Top(d, (op - DUP1) as nat)]
    else d[|d| - 2 - (op - SWAP1) as nat := Top(d, 0)][|d| - 1 := Top(d, 1 + (op - SWAP1) as nat)]
  }

  /** The memory once an opcode has written to it. */
  ghost function Written(f: Frame, m: Machine): (r: seq<Byte>)
    requires CanAct(f, m) && WritesMemory(OpOf(f, m))
  {
    var op, d := OpOf(f, m), m.items;
    WriteCases(op, d, |m.memory|, m.world, f.code, f.input);
    Spliced(m.memory, Ranges(op, d)[0].offset, Payload(op, d, m.world, f.code, f.input))
  }

  /** The log an opcode writes. */
  function LogOf(f: Frame, m: Machine): (l: Log)
    requires IsLog(OpOf(f, m)) && |m.items| >= Pops(OpOf(f, m))
  {
    Log(f.self, Topics(m.items, Pops(OpOf(f, m))), Piece(m.memory, Top(m.items, 0), Top(m.items, 1)))
  }

  /** Where a jump goes; none if there is no JUMPDEST instruction. */
  ghost function Target(f: Frame, m: Machine): (p: Option<nat>)
    requires (OpOf(f, m) == JUMP || OpOf(f, m) == JUMPI) && |m.items| >= Pops(OpOf(f, m))
  {
    var d := m.items;
    if OpOf(f, m) == JUMPI && Top(d, 1) == 0 then Some(NextPc(f.code, m.pc))
    else if IsDest(f.code, Top(d, 0)) && Top(d, 0) < TWO64 then Some(Top(d, 0))
    else None
  }

  /** What an opcode that goes on does, calls apart; none if it does not go on. */
  ghost function Act(rules: Rules, f: Frame, m: Machine): (r: Option<Machine>)
    requires CanAct(f, m)
  {
    var op, d := OpOf(f, m), m.items;
    if PureReq(op).Some? then
      Some(Onward(f, m, d[..|d| - Pops(op)] + [Result(rules.block, rules.coinbase, ViewOf(f, m))]))
    else if Shuffles(op) then Some(Onward(f, m, Shuffled(op, f.code, m.pc, d)))
    else if WritesMemory(op) then Some(Onward(f, m, d[..|d| - Pops(op)]).(memory := Written(f, m)))
    else if op == SSTORE then
      Some(Onward(f, m, d[..|d| - 2]).(world := SetStorage(m.world, f.self, ToHash(Top(d, 0)), ToHash(Top(d, 1)))))
    else if IsLog(op) then
      Some(Onward(f, m, d[..|d| - Pops(op)]).(world := m.world.(logs := m.world.logs + [LogOf(f, m)])))
    else if op == JUMP || op == JUMPI then
      if Target(f, m).None? then None else Some(m.(pc := Target(f, m).value, items := d[..|d| - Pops(op)]))
    else if op == JUMPDEST then Some(Onward(f, m, d))
    else None
  }

  predicate Calls(op: Byte)
  {
    op == CALL || op == CALLCODE
  }

  /** What a CALL asks for: CALLCODE runs the code of another account as the caller itself. */
  function CallEntry(f: Frame, m: Machine): (e: Entry)
    requires Calls(OpOf(f, m)) && |m.items| >= 7
  {
    var d, to := m.items, ToAddr(Top(m.items, 1));
    Entry(Some(if OpOf(f, m) == CALLCODE then f.self else to), Some(to), Code(m.world, to), f.self,
          Piece(m.memory, Top(d, 3), Top(d, 4)), Top(d, 0) + (if ToHash(Top(d, 2)) > 0 then 2300 else 0), ToHash(Top(d, 2)))
  }

  /** As much of a result as fits the range it is meant for. */
  function Delivered(memory: seq<Byte>, offset: nat, size: nat, ret: seq<Byte>): (r: seq<Byte>)
  {
    var k := if |ret| < size then |ret| else size;
    if k > 0 && offset + k <= |memory| then Spliced(memory, offset, ret[..k]) else memory
  }

  /** What a call leaves: 1 or 0 on the stack, the gas that came back, and as much of the result as fits its range. */
  ghost predicate Called(f: Frame, m: Machine, n: Nest, r: Machine)
    requires CanAct(f, m) && Calls(OpOf(f, m))
  {
    var d, o := m.items, n.out;
    && n.entry == CallEntry(f, m)
    && r == Onward(f, m, d[..|d| - 7] + [if o.err.None? then 1 else 0]).(
              gas := m.gas + o.back, world := o.world,
              memory := if o.err.None? then Delivered(m.memory, Top(d, 5), Top(d, 6), o.ret) else m.memory)
  }

  /** What a CREATE asks for: all the gas there is. */
  function CreateEntry(f: Frame, m: Machine): (e: Entry)
    requires |m.items| >= 3
  {
    var d := m.items;
    Entry(None, None, Piece(m.memory, Top(d, 1), Top(d, 2)), f.self, [], m.gas, Top(d, 0))
  }

  /** What it leaves: the new address, whose code is what was returned if the gas that came back pays for it. */
  ghost predicate Created(f: Frame, m: Machine, n: Nest, r: Machine)
    requires CanAct(f, m) && OpOf(f, m) == CREATE
  {
    var d, o := m.items, n.out;
    var stored := o.err.None? && 200 * |o.ret| <= o.back;
    && n.entry == CreateEntry(f, m)
    && r == Onward(f, m, d[..|d| - 3] + [if o.err.None? then o.addr else 0]).(
              gas := if stored then o.back - 200 * |o.ret| else o.back,
              world := if stored then SetCode(o.world, o.addr, o.ret) else o.world)
  }

  /** What becomes of a machine that has paid for an opcode that goes on. */
  ghost predicate Acts(rules: Rules, depth: nat, f: Frame, m: Machine, inner: Option<Nest>, r: Machine)
    requires CanAct(f, m)
    decreases inner, 1
  {
    if Calls(OpOf(f, m)) then inner.Some? && LegalNest(rules, depth, m.world, inner.value) && Called(f, m, inner.value, r)
    else if OpOf(f, m) == CREATE then
      inner.Some? && LegalNest(rules, depth, m.world, inner.value) && Created(f, m, inner.value, r)
    else inner.None? && Act(rules, f, m) == Some(r)
  }

  /** One turn from a state to the next. */
  ghost predicate Turns(rules: Rules, depth: nat, f: Frame, t: Turn, r: Machine)
    decreases t, 1
  {
    Paid(f, t.at).Some? && Acts(rules, depth, f, Paid(f, t.at).value, t.inner, r)
  }

  /** How a machine stops that has paid for its opcode: with what it returns, or with an error that takes all gas. */
  ghost predicate Stops(f: Frame, m: Machine, ret: seq<Byte>, err: Option<VmError>, left: nat, end: State)
    requires CanAct(f, m)
  {
    var op, d := OpOf(f, m), m.items;
    if Halts(op) then
      && err.None? && left == m.gas
      && ret == (if op == RETURN then Piece(m.memory, Top(d, 0), Top(d, 1)) else [])
      && end == (if op == SUICIDE then Suicide(m.world, f.self, ToAddr(Top(d, 0))) else m.world)
    else
      && ret == [] && left == 0
      && (if op == JUMP || op == JUMPI then Target(f, m).None? && err == Some(InvalidJump)
          else !Known(op) && err == Some(InvalidOpcode))
  }

  ghost predicate Ends(f: Frame, m: Machine, ret: seq<Byte>, err: Option<VmError>, left: nat, end: State)
  {
    if Paid(f, m).Some? then Stops(f, Paid(f, m).value, ret, err, left, end)
    else ret == [] && err == Some(PayError(f, m)) && left == 0
  }

  function Begin(gas: nat, w: State): (m: Machine)
  {
    Machine(0, [], 0, [], gas, w)
  }

  /** Each state of the run leads to the next, and the last one is r. */
  ghost predicate Chained(rules: Rules, depth: nat, f: Frame, turns: seq<Turn>, first: Machine, r: Machine)
    decreases turns
  {
    if turns == [] then r == first
    else
      var n := |turns| - 1;
      && Chained(rules, depth, f, turns[..n], first, turns[n].at)
      && Turns(rules, depth, f, turns[n], r)
  }

  /** A run of some code, built in or not. */
  ghost predicate LegalTree(rules: Rules, depth: nat, t: Tree)
    decreases t, 0
  {
    var f := t.frame;
    if Builtin(f.codeAddr) then
      var price := PrecompiledGas(f.codeAddr.value, |f.input|);
      && t.turns == [] && t.end == t.start
      && (if price <= t.gas then
            t.err.None? && t.ret == rules.precompiled(f.codeAddr.value, f.input) && t.left == t.gas - price
          else t.err == Some(OutOfGas) && t.ret == [] && t.left == 0)
    else if f.code == [] then
      t.turns == [] && t.end == t.start && t.err.None? && t.ret == [] && t.left == t.gas
    else
      && t.turns != []
      && var n := |t.turns| - 1;
         && Chained(rules, depth, f, t.turns[..n], Begin(t.gas, t.start), t.turns[n].at)
         && t.turns[n].inner.None? && Ends(f, t.turns[n].at, t.ret, t.err, t.left, t.end)
  }

  /**
   An execution: too deep, without the funds, or entered. What is entered is the account named, or a new one;
   it is paid by the caller, and its code runs as that account. A failure leaves nothing but a creator's nonce.
   */
  ghost predicate LegalNest(rules: Rules, depth: nat, w: State, n: Nest)
    decreases n, 0
  {
    var e, o := n.entry, n.out;
    var creates := e.address.None?;
    && o.addr == (if creates then rules.createAddress(e.caller, Nonce(w, e.caller)) else e.address.value)
    && if depth > 1024 then n.run.None? && o == Outcome([], Some(DepthError), e.gas, o.addr, w)
       else if Balance(w, e.caller) < e.value then n.run.None? && o == Outcome([], Some(ValueTransfer), e.gas, o.addr, w)
       else
         && n.run.Some? && e.caller in w.accounts && (creates ==> o.addr != e.caller)
         && var t := n.run.value;
            && LegalTree(rules, depth + 1, t)
            && t.frame == Frame(o.addr, e.caller, e.codeAddr, e.code, e.value, e.input) && t.gas == e.gas
            && t.start == Transfer(Entered(w, e.caller, creates, o.addr), e.caller, o.addr, e.value)
            && o.ret == t.ret && o.err == t.err && o.back == t.left
            && o.world == if t.err.Some? then Bumped(w, e.caller, creates) else t.end
  }

  // ---------- how the groups of opcodes act ----------

  lemma ActPure(rules: Rules, depth: nat, f: Frame, m: Machine, r: Machine)
    requires CanAct(f, m) && PureReq(OpOf(f, m)).Some?
    requires r == Onward(f, m, m.items[..|m.items| - Pops(OpOf(f, m))] + [Result(rules.block, rules.coinbase, ViewOf(f, m))])
    ensures Acts(rules, depth, f, m, None, r)
  {
    hide Result, Onward, ViewOf, CanAct;
  }

  lemma ActShuffle(rules: Rules, depth: nat, f: Frame, m: Machine, r: Machine)
    requires CanAct(f, m) && Shuffles(OpOf(f, m)) && r == Onward(f, m, Shuffled(OpOf(f, m), f.code, m.pc, m.items))
    ensures Acts(rules, depth, f, m, None, r)
  {
    hide Onward, Shuffled, CanAct;
  }

  lemma ActMemory(rules: Rules, depth: nat, f: Frame, m: Machine, r: Machine)
    requires CanAct(f, m) && WritesMemory(OpOf(f, m))
    requires r == Onward(f, m, m.items[..|m.items| - Pops(OpOf(f, m))]).(memory := Written(f, m))
    ensures Acts(rules, depth, f, m, None, r)
  {
    hide Onward, Written, CanAct;
  }

  lemma ActWorld(rules: Rules, depth: nat, f: Frame, m: Machine, r: Machine)
    requires CanAct(f, m) && (OpOf(f, m) == SSTORE || IsLog(OpOf(f, m)))
    requires var op, d := OpOf(f, m), m.items;
             r == Onward(f, m, d[..|d| - Pops(op)]).(world :=
                    if op == SSTORE then SetStorage(m.world, f.self, ToHash(Top(d, 0)), ToHash(Top(d, 1)))
                    else m.world.(logs := m.world.logs + [LogOf(f, m)]))
    ensures Acts(rules, depth, f, m, None, r)
  {
    hide Onward, SetStorage, LogOf, CanAct;
  }

  lemma ActJump(rules: Rules, depth: nat, f: Frame, m: Machine, r: Machine, end: State)
    requires CanAct(f, m) && (OpOf(f, m) == JUMP || OpOf(f, m) == JUMPI)
    requires Target(f, m).Some? ==> r == m.(pc := Target(f, m).value, items := m.items[..|m.items| - Pops(OpOf(f, m))])
    ensures Target(f, m).Some? ==> Acts(rules, depth, f, m, None, r)
    ensures Target(f, m).None? ==> Stops(f, m, [], Some(InvalidJump), 0, end)
  {
    hide Target, CanAct;
  }

  lemma ActNothing(rules: Rules, depth: nat, f: Frame, m: Machine, r: Machine)
    requires CanAct(f, m) && OpOf(f, m) == JUMPDEST && r == Onward(f, m, m.items)
    ensures Acts(rules, depth, f, m, None, r)
  {
    hide Onward, CanAct;
  }

  lemma ActCall(rules: Rules, depth: nat, f: Frame, m: Machine, n: Nest, r: Machine)
    requires CanAct(f, m) && Calls(OpOf(f, m)) && LegalNest(rules, depth, m.world, n) && Called(f, m, n, r)
    ensures Acts(rules, depth, f, m, Some(n), r)
  {
    hide LegalNest, Called, CanAct;
  }

  lemma ActCreate(rules: Rules, depth: nat, f: Frame, m: Machine, n: Nest, r: Machine)
    requires CanAct(f, m) && OpOf(f, m) == CREATE && LegalNest(rules, depth, m.world, n) && Created(f, m, n, r)
    ensures Acts(rules, depth, f, m, Some(n), r)
  {
    hide LegalNest, Created, CanAct;
  }

  lemma StopUnknown(f: Frame, m: Machine, end: State)
    requires CanAct(f, m) && !Known(OpOf(f, m))
    ensures Stops(f, m, [], Some(InvalidOpcode), 0, end)
  {
    hide CanAct, Target;
  }

  lemma CanActIs(f: Frame, m: Machine)
    requires var op := OpOf(f, m);
             Enough(op, m.slice, |m.items|) && |m.items| >= Pops(op) && Covers(|m.memory|, Ranges(op, m.items))
    ensures CanAct(f, m)
  {}

  lemma ChainStarts(rules: Rules, depth: nat, f: Frame, m: Machine)
    ensures Chained(rules, depth, f, [], m, m)
  {}

  lemma ChainGrows(rules: Rules, depth: nat, f: Frame, turns: seq<Turn>, t: Turn, first: Machine, r: Machine)
    requires Chained(rules, depth, f, turns, first, t.at) && Turns(rules, depth, f, t, r)
    ensures Chained(rules, depth, f, turns + [t], first, r)
  {
    hide Turns;
    assert (turns + [t])[..|turns|] == turns;
  }

  lemma LogInMemory(f: Frame, m: Machine)
    requires CanAct(f, m) && IsLog(OpOf(f, m))
    ensures |m.items| >= 2 && (Top(m.items, 1) > 0 ==> Top(m.items, 0) + Top(m.items, 1) <= |m.memory|)
  {
    assert Ranges(OpOf(f, m), m.items)[0] == Range(Top(m.items, 0), Top(m.items, 1));
  }

  // ---------- how an execution goes ----------

  lemma NestFails(rules: Rules, depth: nat, w: State, n: Nest)
    requires var e, o := n.entry, n.out;
             && o.addr == (if e.address.None? then rules.createAddress(e.caller, Nonce(w, e.caller)) else e.address.value)
             && (depth > 1024 || Balance(w, e.caller) < e.value) && n.run.None?
             && o == Outcome([], Some(if depth > 1024 then DepthError else ValueTransfer), e.gas, o.addr, w)
    ensures LegalNest(rules, depth, w, n)
  {}

  lemma NestRuns(rules: Rules, depth: nat, w: State, n: Nest)
    requires n.run.Some? && depth <= 1024 && Balance(w, n.entry.caller) >= n.entry.value && n.entry.caller in w.accounts
    requires var e, o, t := n.entry, n.out, n.run.value;
             var creates := e.address.None?;
             && o.addr == (if creates then rules.createAddress(e.caller, Nonce(w, e.caller)) else e.address.value)
             && (creates ==> o.addr != e.caller)
             && LegalTree(rules, depth + 1, t)
             && t.frame == Frame(o.addr, e.caller, e.codeAddr, e.code, e.value, e.input) && t.gas == e.gas
             && t.start == Transfer(Entered(w, e.caller, creates, o.addr), e.caller, o.addr, e.value)
             && o.ret == t.ret && o.err == t.err && o.back == t.left
             && o.world == if t.err.Some? then Bumped(w, e.caller, creates) else t.end
    ensures LegalNest(rules, depth, w, n)
  {
    hide LegalTree, Transfer, Entered, Bumped;
  }

  /** An error in the code is none of those of the call itself, and takes all gas. */
  lemma TreeErrors(rules: Rules, depth: nat, t: Tree)
    requires LegalTree(rules, depth, t)
    ensures t.err != Some(DepthError) && t.err != Some(ValueTransfer) && (t.err.Some? ==> t.left == 0 && t.ret == [])
  {
    hide Chained, Paid, CanAct, Known, Target;
  }

  /** What an execution can come to. */
  lemma NestFacts(rules: Rules, depth: nat, w: State, n: Nest)
    requires LegalNest(rules, depth, w, n)
    ensures var e, o := n.entry, n.out;
            var creates := e.address.None?;
            && o.addr == (if creates then rules.createAddress(e.caller, Nonce(w, e.caller)) else e.address.value)
            && (o.err == Some(DepthError) <==> depth > 1024)
            && (o.err == Some(ValueTransfer) <==> depth <= 1024 && Balance(w, e.caller) < e.value)
            && (o.err == Some(DepthError) || o.err == Some(ValueTransfer) ==> o.world == w && o.back == e.gas)
            && (o.err.Some? && o.err != Some(DepthError) && o.err != Some(ValueTransfer) ==>
                  o.world == Bumped(w, e.caller, creates) && o.back == 0)
    ensures var e, o := n.entry, n.out;
            o.err.None? && e.code == [] && !Builtin(e.codeAddr) ==>
              && e.caller in w.accounts && (e.address.None? ==> o.addr != e.caller) && Balance(w, e.caller) >= e.value
              && o.ret == [] && o.back == e.gas
              && o.world == Transfer(Entered(w, e.caller, e.address.None?, o.addr), e.caller, o.addr, e.value)
  {
    if n.run.Some? {
      TreeErrors(rules, depth + 1, n.run.value);
    }
    hide Chained, Ends, Transfer, Entered, Bumped;
  }
}
