/**
 The virtual machine and the calls between contracts. Gas bounds everything: each step of each
 nested call leaves strictly less gas in the whole tree of calls, so every execution ends, and it
 never hands back more gas than it got.
 */
module Evm {
  import opened Bytes
  import opened World
  import opened Effects
  import opened EvmCode
  import opened EvmMachine
  import opened EvmGas
  import opened EvmLook
  import opened EvmNarrow
  import opened EvmRun
  import opened EvmLaws
  import EvmArith

  datatype Next = Go(pc: nat) | Done(ret: seq<Byte>) | Fail(error: VmError)

  class Env {
    const block: Block
    const createAddress: (Addr, nat) -> Addr
    const precompiled: (Addr, seq<Byte>) -> seq<Byte>
    const coinbase: Addr
    var world: State
    var depth: nat
    /** What has been done to the world since start, nested calls in one piece. */
    ghost var trace: seq<Op>
    ghost var start: State
    /** No stack has held more than a word, in this call and all below it. */
    ghost var words: bool

    /** The wei destroyed since start, in calls that were not rolled back. */
    ghost function Lost(): (n: nat)
      reads this
    {
      LostAll(trace, |trace|, start)
    }

    /**
     The world is what the effects recorded make of start; the sum of balances has fallen by what was destroyed;
     nothing but words has been stored.
     */
    ghost predicate Traced()
      reads this
    {
      world == MeaningAll(trace, |trace|, start) && Wei(world) + Lost() == Wei(start) && NarrowOps(trace)
    }

    /** All that a contract can look up in a world is a word. */
    ghost predicate NarrowIs(w: State)
    {
      NarrowBlock(block, coinbase) && NarrowState(w) && forall a, n :: IsWord(createAddress(a, n))
    }

    ghost predicate Narrow()
      reads this
    {
      NarrowIs(start)
    }

    ghost predicate NarrowIn(ctx: Context, input: seq<Byte>)
    {
      IsWord(ctx.self) && IsWord(ctx.caller) && IsWord(ctx.value) && IsWord(|ctx.code|) && IsWord(|input|)
    }

    ghost predicate NarrowCall(address: Option<Addr>, code: seq<Byte>, caller: Addr, input: seq<Byte>)
    {
      (address.Some? ==> IsWord(address.value)) && IsWord(|code|) && IsWord(caller) && IsWord(|input|)
    }

    lemma WorldIsNarrow()
      requires Traced() && Narrow()
      ensures NarrowIs(world) && NarrowState(world)
    {
      hide MeaningAll, LostAll, Wei, Slots, NarrowOps, NarrowBlock;
      MeaningAllSlots(trace, |trace|, start);
    }

    /** The world has just changed as op says. */
    ghost method Record(op: Op, before: State)
      requires before == MeaningAll(trace, |trace|, start) && world == Meaning(op, before) && NarrowOps(trace) && NarrowOp(op)
      modifies `trace
      ensures Traced() && Lost() >= old(Lost())
    {
      hide Meaning, MeaningAll, LostAll, Effects.Lost, Wei;
      MeaningSnoc(trace, op, start);
      LostSnoc(trace, op, start);
      trace := trace + [op];
      WeiOfAll(trace, |trace|, start);
    }

    /** A created contract has an address of its own. */
    ghost predicate Valid()
    {
      forall a, n :: createAddress(a, n) != a && createAddress(a, n) != coinbase
    }

    // ---------- the machine as a value ----------

    ghost function RulesOf(): (r: Rules)
    {
      Rules(block, coinbase, createAddress, precompiled)
    }

    ghost function FrameOf(ctx: Context, input: seq<Byte>): (f: Frame)
    {
      Frame(ctx.self, ctx.caller, ctx.codeAddr, ctx.code, ctx.value, input)
    }

    ghost function At(ctx: Context, stack: Stack, mem: Memory, pc: nat): (m: Machine)
      reads this, ctx.gas, stack, mem
      requires stack.Valid() && ctx.Valid()
    {
      Machine(pc, stack.Items(), |stack.data|, mem.store, ctx.gas.v, world)
    }

    // ---------- gas ----------

    /** The memory an opcode asks for, as the switch of calculateGasAndSize computes it. */
    method MemoryNeed(op: Byte, stack: Stack) returns (need: nat)
      requires stack.Valid() && stack.ptr >= Pops(op)
      ensures LeastCover(need, Ranges(op, stack.Items()))
    {
      hide Pops, TableReq, Top, LeastCover, CalcMemSize;
      var d := stack.data[..stack.ptr];
      if op == MLOAD || op == MSTORE {
        need := CalcMemSize(Top(d, 0), 32);
        LeastCoverOne(Range(Top(d, 0), 32));
      } else if op == MSTORE8 {
        need := CalcMemSize(Top(d, 0), 1);
        LeastCoverOne(Range(Top(d, 0), 1));
      } else if op == SHA3 || op == RETURN || IsLog(op) {
        need := CalcMemSize(Top(d, 0), Top(d, 1));
        LeastCoverOne(Range(Top(d, 0), Top(d, 1)));
      } else if op == CALLDATACOPY || op == CODECOPY {
        need := CalcMemSize(Top(d, 0), Top(d, 2));
        LeastCoverOne(Range(Top(d, 0), Top(d, 2)));
      } else if op == EXTCODECOPY {
        need := CalcMemSize(Top(d, 1), Top(d, 3));
        LeastCoverOne(Range(Top(d, 1), Top(d, 3)));
      } else if op == CREATE {
        need := CalcMemSize(Top(d, 1), Top(d, 2));
        LeastCoverOne(Range(Top(d, 1), Top(d, 2)));
      } else if op == CALL || op == CALLCODE {
        var x := CalcMemSize(Top(d, 5), Top(d, 6));
        var y := CalcMemSize(Top(d, 3), Top(d, 4));
        need := if x > y then x else y;
        LeastCoverTwo(Range(Top(d, 5), Top(d, 6)), Range(Top(d, 3), Top(d, 4)));
      } else {
        need := 0;
        NothingToCover();
      }
    }

    /** Stack check, base price and stack limit from the table. */
    method BaseCheck(op: Byte, stack: Stack) returns (err: Option<VmError>, gas: nat)
      requires stack.Valid()
      ensures err.None? ==> gas == if TableReq(op).Some? then TableReq(op).value.gas else 0
      ensures err.None? && !IsSwap(op) && !IsDup(op) && !IsLog(op) ==> Enough(op, |stack.data|, stack.ptr)
      ensures err.None? && stack.ptr >= Pops(op) ==> Enough(op, |stack.data|, stack.ptr)
      ensures err.None? && stack.ptr < Pops(op) ==> StackError(op, |stack.data|, stack.ptr) == Underflow
      ensures err.Some? ==> !Enough(op, |stack.data|, stack.ptr) && err.value == StackError(op, |stack.data|, stack.ptr)
      ensures |stack.data| == 1025 && PushesOnly(op) ==> err == Some(StackLimit)
    {
      err, gas := None, 0;
      var r := TableReq(op);
      if r.Some? {
        if stack.ptr < r.value.pop {
          return Some(Underflow), 0;
        }
        if r.value.push > 0 && |stack.data| - r.value.pop + r.value.push > stack.LIMIT + 1 {
          return Some(StackLimit), 0;
        }
        gas := gas + r.value.gas;
      }
    }

    /** The price of an opcode and the memory size it needs; the refund counter may grow. */
    method CalculateGasAndSize(ctx: Context, op: Byte, stack: Stack, mem: Memory)
      returns (err: Option<VmError>, size: nat, gas: nat, ghost fee: nat)
      requires stack.Valid() && mem.Valid() && Traced()
      modifies `world, `trace
      ensures Traced() && Lost() >= old(Lost())
      ensures err.Some? <==> !Enough(op, |stack.data|, stack.ptr)
      ensures err.Some? ==> err.value == StackError(op, |stack.data|, stack.ptr)
      ensures |stack.data| == 1025 && PushesOnly(op) ==> err == Some(StackLimit)
      ensures err.Some? ==> world == old(world)
      ensures err.None? ==> stack.ptr >= Pops(op)
      ensures err.None? ==> forall m: nat | m % 32 == 0 && Covers(m, Ranges(op, stack.Items())) :: size <= m
      ensures err.None? ==> size % 32 == 0 && Covers(size, Ranges(op, stack.Items())) && fee == GrowFee(|mem.store|, size)
      ensures err.None? ==> size == SizeFor(op, stack.Items())
      ensures err.None? ==> gas == PriceIn(op, stack.Items(), old(world), ctx.self) + fee
      ensures err.None? ==> var w := old(world);
              world == w.(refund := w.refund + RefundFor(op, stack.Items(), w, ctx.self))
    {
      hide TableReq, Pops, Enough, Ranges, PriceIn, RefundFor, MemFee, PushesOnly, Covers, LeastCover, Traced, StackError, Need;
      size, fee := 0, 0;
      err, gas := StackAndPrice(ctx, op, stack);
      if err.Some? {
        return;
      }
      assert stack.ptr >= Pops(op) by {
        EnoughPops(op, |stack.data|, stack.ptr);
      }
      var need := MemoryNeed(op, stack);
      LeastWords(need, Ranges(op, stack.Items()));
      LeastIsNeed(Ranges(op, stack.Items()), need);
      if need > 0 {
        var words := ToWords(need);
        size := words * 32;
        if size > |mem.store| {
          FeeGrows(|mem.store| / 32, words);
          fee := MemFee(words) - MemFee(ToWords(|mem.store|));
          gas := gas + (MemFee(words) - MemFee(ToWords(|mem.store|)));
        }
      }
    }

    method StackAndPrice(ctx: Context, op: Byte, stack: Stack) returns (err: Option<VmError>, gas: nat)
      requires stack.Valid() && Traced()
      modifies `world, `trace
      ensures Traced() && Lost() >= old(Lost())
      ensures err.Some? <==> !Enough(op, |stack.data|, stack.ptr)
      ensures err.Some? ==> err.value == StackError(op, |stack.data|, stack.ptr)
      ensures |stack.data| == 1025 && PushesOnly(op) ==> err == Some(StackLimit)
      ensures err.Some? ==> world == old(world)
      ensures err.None? ==> stack.ptr >= Pops(op) && gas == PriceIn(op, stack.Items(), old(world), ctx.self)
      ensures err.None? ==> var w := old(world);
              world == w.(refund := w.refund + RefundFor(op, stack.Items(), w, ctx.self))
    {
      hide Traced;
      err, gas := BaseCheck(op, stack);
      if err.Some? {
        return;
      }
      var d := stack.data[..stack.ptr];
      if IsSwap(op) {
        if stack.ptr < (op - SWAP1) as nat + 2 {
          return Some(Underflow), 0;
        }
        gas := 3;
      } else if IsDup(op) {
        if stack.ptr < (op - DUP1) as nat + 1 {
          return Some(Underflow), 0;
        }
        gas := 3;
      } else if IsLog(op) {
        if stack.ptr < (op - LOG0) as nat + 2 {
          return Some(Underflow), 0;
        }
        gas := gas + 375;
        gas := gas + (op - LOG0) as nat * 375;
        gas := gas + Top(d, 1) * 8;
      } else {
        gas := OpGas(ctx, op, d, gas);
      }
    }

    /** The part of the switch for single opcodes. */
    method OpGas(ctx: Context, op: Byte, d: seq<nat>, base: nat) returns (gas: nat)
      requires |d| >= Pops(op) && !IsSwap(op) && !IsDup(op) && !IsLog(op)
      requires base == (if TableReq(op).Some? then TableReq(op).value.gas else 0) && Traced()
      modifies `world, `trace
      ensures Traced() && Lost() >= old(Lost())
      ensures gas == PriceIn(op, d, old(world), ctx.self)
      ensures var w := old(world); world == w.(refund := w.refund + RefundFor(op, d, w, ctx.self))
    {
      gas := base;
      if op == EXP {
        gas := gas + |BigEndian(Top(d, 1))| * 10;
      } else if op == SSTORE {
        var val := Storage(world, ctx.self, ToHash(Top(d, 0)));
        var y := ToHash(Top(d, 1));
        if val == 0 && y != 0 {
          gas := 20000;
        } else if val != 0 && y == 0 {
          Earn(15000);
          gas := 5000;
        } else {
          gas := 5000;
        }
      } else if op == SUICIDE {
        if !Removed(world, ctx.self) {
          Earn(24000);
        }
      } else if op == SHA3 {
        gas := gas + ToWords(Top(d, 1)) * 6;
      } else if op == CALLDATACOPY || op == CODECOPY {
        gas := gas + ToWords(Top(d, 2)) * 3;
      } else if op == EXTCODECOPY {
        gas := gas + ToWords(Top(d, 3)) * 3;
      } else if op == CALL || op == CALLCODE {
        gas := gas + Top(d, 0);
        if op == CALL && !Has(world, ToAddr(Top(d, 1))) {
          gas := gas + 25000;
        }
        if Top(d, 2) > 0 {
          gas := gas + 9000;
        }
      }
    }

    /** Refund on the state database. */
    method Earn(gas: nat)
      requires Traced()
      modifies `world, `trace
      ensures Traced() && Lost() >= old(Lost()) && world == old(world).(refund := old(world).refund + gas)
    {
      ghost var w := world;
      world := world.(refund := world.refund + gas);
      Record(Effects.Earn(gas), w);
    }

    // ---------- single opcodes, after they have been paid for ----------

    /** The stack and memory an opcode needs are there. */
    ghost predicate CanRun(op: Byte, stack: Stack, mem: Memory)
      reads stack, mem
    {
      && stack.Valid() && mem.Valid() && Enough(op, |stack.data|, stack.ptr)
      && stack.ptr >= Pops(op) && Covers(|mem.store|, Ranges(op, stack.Items()))
    }

    /** Arithmetic, comparison, lookup: pop the operands, push one result. Only a lookup can push more than a word. */
    method Compute(ctx: Context, op: Byte, stack: Stack, mem: Memory, pc: nat, input: seq<Byte>)
      requires PureReq(op).Some? && CanRun(op, stack, mem) && ctx.Valid()
      modifies stack
      ensures stack.Valid() && |stack.data| == Max(old(|stack.data|), stack.ptr)
      ensures var d, n := old(stack.Items()), Pops(op);
              var view := View(op, Args(d, n), world, ctx.self, ctx.caller, ctx.value, ctx.gas.v, pc, mem.store, input, ctx.code);
              var v := Result(block, coinbase, view);
              && stack.Items() == d[..|d| - n] + [v]
              && (stack.wide <==> old(stack.wide) || (LooksUp(op) && v >= EvmArith.WORD))
    {
      PureRoom(op, |stack.data|, stack.ptr);
      hide Result, Enough, Ranges, Covers, LooksUp, PureReq, TableReq, Pops;
      ghost var d := stack.Items();
      var args := stack.PopMany(PureReq(op).value.pop);
      assert args == Args(d, Pops(op));
      var view := View(op, args, world, ctx.self, ctx.caller, ctx.value, ctx.gas.v, pc, mem.store, input, ctx.code);
      if !stack.wide {
        ResultIsWord(block, coinbase, view);
      }
      stack.Push(Result(block, coinbase, view));
    }

    /** Opcodes that only move stack items. */
    method Shuffle(ctx: Context, op: Byte, stack: Stack, mem: Memory, pc: nat)
      requires (op == POP || IsPush(op) || IsDup(op) || IsSwap(op)) && CanRun(op, stack, mem)
      modifies stack
      ensures stack.Valid() && |stack.data| == Max(old(|stack.data|), stack.ptr) && stack.wide == old(stack.wide)
      ensures var d := old(stack.Items());
              stack.Items() ==
              if op == POP then d[..|d| - 1]
              else if IsPush(op) then d + [FromBigEndian(GetData(ctx.code, pc + 1, (op - PUSH1 + 1) as nat))]
              else if IsDup(op) then d + [Top(d, (op - DUP1) as nat)]
              else d[|d| - 2 - (op - SWAP1) as nat := Top(d, 0)][|d| - 1 := Top(d, 1 + (op - SWAP1) as nat)]
    {
      hide Ranges, Covers;
      if op == POP {
        var _ := stack.Pop();
      } else if IsPush(op) {
        var size := (op - PUSH1 + 1) as nat;
        BytesAreWord(GetData(ctx.code, pc + 1, size));
        stack.Push(FromBigEndian(GetData(ctx.code, pc + 1, size)));
      } else if IsDup(op) {
        stack.Dup((op - DUP1 + 1) as nat);
      } else {
        stack.Swap((op - SWAP1 + 2) as nat);
      }
    }

    /** Opcodes that write to memory. */
    method WriteMemory(ctx: Context, op: Byte, stack: Stack, mem: Memory, input: seq<Byte>)
      requires op == CALLDATACOPY || op == CODECOPY || op == EXTCODECOPY || op == MSTORE || op == MSTORE8
      requires CanRun(op, stack, mem)
      modifies stack, mem`store
      ensures stack.Valid() && mem.Valid() && |mem.store| == old(|mem.store|)
      ensures stack.data == old(stack.data) && stack.wide == old(stack.wide)
      ensures var d := old(stack.Items());
              && stack.Items() == d[..|d| - Pops(op)]
              && mem.store == Spliced(old(mem.store), Ranges(op, d)[0].offset, Payload(op, d, world, ctx.code, input))
    {
      hide TableReq, Pops, Enough, GetData, ToBytes32, Spliced, Ranges, Covers, Payload;
      ghost var d := stack.Items();
      WriteCases(op, d, |mem.store|, world, ctx.code, input);
      ghost var r, b := Ranges(op, d)[0], Payload(op, d, world, ctx.code, input);
      var a := stack.PopMany(Pops(op));
      assert forall i | 0 <= i < Pops(op) :: a[i] == Top(d, i);
      if op == MSTORE {
        mem.Set(a[0], 32, ToBytes32(a[1]));
      } else if op == MSTORE8 {
        mem.Set(a[0], 1, [(a[1] % 256) as Byte]);
      } else if op == EXTCODECOPY {
        mem.Set(a[1], a[3], GetData(Code(world, ToAddr(a[0])), a[2], a[3]));
      } else {
        mem.Set(a[0], a[2], GetData(if op == CODECOPY then ctx.code else input, a[1], a[2]));
      }
      SplicedIs(old(mem.store), r.offset, b);
    }

    /** SSTORE and LOG. */
    method WriteWorld(ctx: Context, op: Byte, stack: Stack, mem: Memory)
      requires (op == SSTORE || IsLog(op)) && CanRun(op, stack, mem) && ctx.self in world.accounts && Traced()
      modifies stack, `world, `trace
      ensures Traced() && stack.data == old(stack.data) && stack.wide == old(stack.wide)
      ensures stack.Valid() && Lost() >= old(Lost()) && Keeps(old(world), world, coinbase)
      ensures var d := old(stack.Items());
              && stack.Items() == d[..|d| - Pops(op)]
              && world == if op == SSTORE then SetStorage(old(world), ctx.self, ToHash(Top(d, 0)), ToHash(Top(d, 1)))
                          else old(world).(logs := old(world).logs + [Log(ctx.self, Topics(d, Pops(op)),
                            mem.Get(Top(d, 0), Top(d, 1)))])
    {
      hide TableReq, Pops, Enough, Keeps, MeaningAll, LostAll, Wei;
      ghost var d := stack.Items();
      if op == SSTORE {
        var a := stack.PopMany(2);
        ghost var w := world;
        world := SetStorage(world, ctx.self, ToHash(a[0]), ToHash(a[1]));
        KeepsPut(w, ctx.self, world.accounts[ctx.self], coinbase);
        Record(Store(ctx.self, ToHash(a[0]), ToHash(a[1])), w);
      } else {
        var n := (op - LOG0) as nat;
        var a := stack.PopMany(n + 2);
        assert Ranges(op, d)[0] == Range(a[0], a[1]);
        var topics := [];
        for i := 0 to n
          invariant topics == Topics(d, i + 2) && stack.Valid() && stack.data == old(stack.data) && stack.wide == old(stack.wide)
          invariant world == old(world) && trace == old(trace) && mem.store == old(mem.store)
        {
          topics := topics + [ToHash(a[i + 2])];
        }
        var log := Log(ctx.self, topics, mem.Get(a[0], a[1]));
        world := world.(logs := world.logs + [log]);
        KeepsLog(old(world), world, coinbase);
        Record(Emit(log), old(world));
      }
    }

    /** JUMP and JUMPI land on a JUMPDEST instruction or fail. */
    method Jump(ctx: Context, op: Byte, stack: Stack, mem: Memory, pc: nat, ghost input: seq<Byte>) returns (next: Next)
      requires (op == JUMP || op == JUMPI) && CanRun(op, stack, mem) && OpAt(ctx.code, pc) == op && ctx.Valid()
      modifies stack
      ensures stack.Valid()
      ensures next.Go? ==>
        Acts(RulesOf(), depth, FrameOf(ctx, input), old(At(ctx, stack, mem, pc)), None, At(ctx, stack, mem, next.pc))
      ensures next.Fail? ==> Stops(FrameOf(ctx, input), old(At(ctx, stack, mem, pc)), [], Some(next.error), 0, world)
      ensures stack.Valid() && !next.Done? && stack.data == old(stack.data) && stack.wide == old(stack.wide)
      ensures next.Fail? ==> next.error == InvalidJump
      ensures next.Go? ==> next.pc == NextPc(ctx.code, pc) || IsStart(ctx.code, next.pc)
      ensures var d := old(stack.Items());
              && stack.Items() == d[..|d| - Pops(op)]
              && next == if op == JUMPI && Top(d, 1) == 0 then Go(NextPc(ctx.code, pc))
                         else if IsDest(ctx.code, Top(d, 0)) && Top(d, 0) < TWO64 then Go(Top(d, 0))
                         else Fail(InvalidJump)
    {
      hide TableReq, Pops, Enough, Ranges, Covers, StartsFrom;
      ghost var d := stack.Items();
      var a := stack.PopMany(Pops(op));
      assert forall i | 0 <= i < Pops(op) :: a[i] == Top(d, i);
      if op == JUMPI && a[1] == 0 {
        next := Go(pc + 1);
      } else {
        var dests := JumpDests(ctx.code);
        if a[0] < TWO64 && a[0] in dests {
          next := Go(a[0]);
        } else {
          next := Fail(InvalidJump);
        }
      }
      ghost var p := if next.Go? then next.pc else 0;
      ActJump(RulesOf(), depth, FrameOf(ctx, input), old(At(ctx, stack, mem, pc)), At(ctx, stack, mem, p), world);
    }

    /** RETURN, SUICIDE and STOP. */
    method Halt(ctx: Context, op: Byte, stack: Stack, mem: Memory, ghost pc: nat, ghost input: seq<Byte>) returns (ret: seq<Byte>)
      requires Halts(op) && CanRun(op, stack, mem) && ctx.self in world.accounts && Traced()
      requires ctx.Valid() && op == OpAt(ctx.code, pc)
      modifies stack, `world, `trace
      ensures Stops(FrameOf(ctx, input), old(At(ctx, stack, mem, pc)), ret, None, ctx.gas.v, world)
      ensures Traced() && stack.Valid() && stack.data == old(stack.data) && stack.wide == old(stack.wide)
      ensures Lost() >= old(Lost()) && Keeps(old(world), world, coinbase)
      ensures var d := old(stack.Items());
              && ret == (if op == RETURN then mem.Get(Top(d, 0), Top(d, 1)) else [])
              && world == if op == SUICIDE then Suicide(old(world), ctx.self, ToAddr(Top(d, 0))) else old(world)
    {
      hide TableReq, Pops, Enough, Keeps, MeaningAll, LostAll, Wei;
      ghost var d := stack.Items();
      ret := [];
      KeepsSelf(world, coinbase);
      if op == RETURN {
        var a := stack.PopMany(2);
        assert Ranges(op, d)[0] == Range(a[0], a[1]);
        ret := mem.Get(a[0], a[1]);
      } else if op == SUICIDE {
        var x := stack.Pop();
        var to := ToAddr(x);
        KeepsSuicide(world, ctx.self, to, coinbase);
        ghost var w := world;
        world := AddBalance(world, to, Balance(Touch(world, to), ctx.self));
        world := Delete(world, ctx.self);
        Record(Destroy(ctx.self, to), w);
      }
    }

    /**
     CREATE: all gas goes to the new contract's code; what comes back pays for storing the code it returns,
     which is stored exactly if that is enough.
     */
    method OpCreate(ctx: Context, stack: Stack, mem: Memory, ghost pc: nat, ghost input: seq<Byte>, ghost before: nat)
      returns (ghost nest: Nest)
      requires Valid() && Traced() && ctx.Valid() && OpAt(ctx.code, pc) == CREATE
      requires CanRun(CREATE, stack, mem) && ctx.self in world.accounts && ctx.gas.v < before < TWO64
      modifies this, ctx.gas, ctx.usedGas, stack
      ensures Traced() && start == old(start) && ctx.Valid()
      ensures stack.Valid() && |stack.data| >= old(|stack.data|) && depth == old(depth)
      ensures Lost() >= old(Lost()) && Keeps(old(world), world, coinbase)
      ensures stack.wide ==> old(stack.wide) || createAddress(ctx.self, Nonce(old(world), ctx.self)) >= EvmArith.WORD
      ensures old(Narrow()) && IsWord(ctx.self) && mem.paid < TWO64 && old(words) ==> words
      ensures nest.out.back <= old(ctx.gas.v) && ctx.gas.v <= nest.out.back
      ensures Acts(RulesOf(), depth, FrameOf(ctx, input), old(At(ctx, stack, mem, pc)), Some(nest),
                   At(ctx, stack, mem, NextPc(ctx.code, pc)))
      decreases before, 0
    {
      hide TableReq, Pops, Enough, Keeps, MeaningAll, LostAll, Wei, MemFee, Narrow, NarrowCall, NarrowOps, LegalNest, LegalTree,
           Acts, Transfer, Entered, Bumped, SetCode, Balance, PureReq;
      ghost var m := At(ctx, stack, mem, pc);
      var value, code := CreateOperands(ctx, stack, mem);
      var gas := ctx.gas.v;
      ctx.UseAllGas();
      ghost var w := world;
      var r, e, left, addr;
      r, e, left, addr, nest := Exec(None, None, code, ctx.self, [], gas, value);
      ghost var after := world;
      ctx.ReturnGas(left);
      Conclude(ctx, stack, addr, r, e.Some?);
      KeepsThen(w, after, world, coinbase);
      ActCreate(RulesOf(), depth, FrameOf(ctx, input), m, nest, At(ctx, stack, mem, NextPc(ctx.code, pc)));
    }

    /** The code that came back is stored, and the new address is pushed; 0 after a failure. */
    method Conclude(ctx: Context, stack: Stack, addr: Addr, code: seq<Byte>, failed: bool)
      requires Traced() && ctx.Valid() && ctx.gas.v < TWO64 && (failed || addr in world.accounts)
      requires stack.Valid() && stack.ptr <= 1024
      modifies `world, `trace, ctx.gas, ctx.usedGas, stack
      ensures Traced() && ctx.Valid() && Lost() >= old(Lost()) && Keeps(old(world), world, coinbase)
      ensures stack.Valid() && |stack.data| == Max(old(|stack.data|), stack.ptr)
      ensures stack.Items() == old(stack.Items()) + [if failed then 0 else addr]
      ensures stack.wide <==> old(stack.wide) || (!failed && addr >= EvmArith.WORD)
      ensures var price := 200 * |code|;
              if !failed && price <= old(ctx.gas.v) then
                ctx.gas.v == old(ctx.gas.v) - price && world == SetCode(old(world), addr, code)
              else ctx.gas.v == old(ctx.gas.v) && world == old(world)
    {
      hide Keeps, MeaningAll, LostAll, Wei, NarrowOps;
      KeepsSelf(world, coinbase);
      if failed {
        stack.Push(0);
      } else {
        Deposit(ctx, addr, code);
        stack.Push(addr);
      }
    }

    /** The operands of CREATE are popped, and the code to run is read from memory. */
    method CreateOperands(ctx: Context, stack: Stack, mem: Memory) returns (value: nat, code: seq<Byte>)
      requires CanRun(CREATE, stack, mem)
      modifies stack`ptr
      ensures stack.Valid() && stack.ptr == old(stack.ptr) - 3 <= 1024 && stack.Items() == old(stack.Items())[..stack.ptr]
      ensures var d := old(stack.Items()); value == Top(d, 0) && code == Piece(mem.store, Top(d, 1), Top(d, 2))
      ensures IsWord(ctx.self) && mem.paid < TWO64 ==> NarrowCall(None, code, ctx.self, [])
    {
      hide TableReq, Pops, Enough, NarrowCall;
      ghost var d := stack.Items();
      CreateRoom(|stack.data|, stack.ptr);
      var a := stack.PopMany(3);
      assert Ranges(CREATE, d)[0] == Range(a[1], a[2]);
      value, code := a[0], mem.Get(a[1], a[2]);
      CreateArgs(mem, a[1], a[2], ctx.self);
    }

    /** The code of a new contract is stored if there is gas for it. */
    method Deposit(ctx: Context, addr: Addr, code: seq<Byte>)
      requires Traced() && ctx.Valid() && ctx.gas.v < TWO64 && addr in world.accounts
      modifies `world, `trace, ctx.gas, ctx.usedGas
      ensures Traced() && ctx.Valid() && Lost() >= old(Lost()) && Keeps(old(world), world, coinbase)
      ensures var price := 200 * |code|;
              if price <= old(ctx.gas.v) then ctx.gas.v == old(ctx.gas.v) - price && world == SetCode(old(world), addr, code)
              else ctx.gas.v == old(ctx.gas.v) && world == old(world)
    {
      hide Keeps, MeaningAll, LostAll, Wei;
      var dataGas := new BigInt(200 * |code|);
      var ok := ctx.UseGas(dataGas);
      KeepsSelf(world, coinbase);
      if ok {
        ghost var w := world;
        world := SetCode(world, addr, code);
        Record(Program(addr, code), w);
        KeepsPut(w, addr, world.accounts[addr], coinbase);
      }
    }

    /**
     CALL and CALLCODE: the gas named on the stack, plus a stipend if value is sent. What the callee leaves
     comes back; its result is copied into the range given, as much as fits.
     */
    method OpCall(ctx: Context, op: Byte, stack: Stack, mem: Memory, ghost before: nat) returns (ghost nest: Nest)
      requires Valid() && Traced() && ctx.Valid()
      requires (op == CALL || op == CALLCODE) && CanRun(op, stack, mem) && ctx.self in world.accounts
      requires var d := stack.Items(); ctx.gas.v + Top(d, 0) + (if Top(d, 2) > 0 then 2300 else 0) < before < TWO64
      modifies this, ctx.gas, ctx.usedGas, stack, mem`store
      ensures Traced() && start == old(start) && ctx.Valid()
      ensures stack.Valid() && |stack.data| == Max(old(|stack.data|), stack.ptr) && depth == old(depth)
      ensures mem.Valid() && |mem.store| == old(|mem.store|) && ctx.gas.v < before
      ensures Lost() >= old(Lost()) && Keeps(old(world), world, coinbase)
      ensures stack.wide == old(stack.wide)
      ensures old(Narrow()) && IsWord(ctx.self) && mem.paid < TWO64 && old(words) ==> words
      ensures LegalNest(RulesOf(), depth, old(world), nest)
      ensures var d := old(stack.Items());
              var v, to := ToHash(Top(d, 2)), ToAddr(Top(d, 1));
              && nest.entry.address == Some(if op == CALL then to else ctx.self) && nest.entry.codeAddr == Some(to)
              && nest.entry.code == Code(old(world), to) && nest.entry.caller == ctx.self && nest.entry.value == v
              && nest.entry.input == Piece(old(mem.store), Top(d, 3), Top(d, 4))
              && nest.entry.gas == Top(d, 0) + (if v > 0 then 2300 else 0) && nest.out.back <= nest.entry.gas
      ensures var d, o := old(stack.Items()), nest.out;
              && stack.Items() == d[..|d| - 7] + [if o.err.None? then 1 else 0]
              && world == o.world && ctx.gas.v == old(ctx.gas.v) + o.back && (o.err.Some? ==> world == old(world))
              && mem.store == if o.err.None? then Delivered(old(mem.store), Top(d, 5), Top(d, 6), o.ret) else old(mem.store)
      ensures nest.entry.code == [] && !Builtin(nest.entry.codeAddr) ==>
        && PaysOnly(old(world), world, ctx.self, nest.entry.address.value, if nest.out.err.None? then nest.entry.value else 0)
        && (nest.out.err.None? <==> depth <= 1024 && Balance(old(world), ctx.self) >= nest.entry.value)
      ensures NeverIn(nest, ctx.self) ==> SameCode(old(world), world, ctx.self)
      decreases before, 0
    {
      hide TableReq, Pops, Enough, Keeps, MeaningAll, LostAll, Wei, Delivered, MemFee, Covers, Ranges, Top, Narrow, NarrowCall,
           NarrowOps, LegalNest, Piece, PaysOnly, NeverIn, SameCode;
      var a, args := CallOperands(op, stack, mem);
      var value, address := ToHash(a[2]), ToAddr(a[1]);
      CallArgs(ctx.self, address, args);
      var gas := a[0];
      if value > 0 {
        gas := gas + 2300;
      }
      var r, e, left, to;
      r, e, left, to, nest :=
        Exec(Some(if op == CALLCODE then ctx.self else address), Some(address), Code(world, address), ctx.self, args, gas, value);
      CallLaw(RulesOf(), depth, old(world), nest);
      ctx.ReturnGas(left);
      if e.Some? {
        stack.Push(0);
      } else {
        Deliver(stack, mem, a[5], a[6], r);
      }
    }

    lemma CreateArgs(mem: Memory, offset: nat, size: nat, self: Addr)
      requires mem.Valid() && (size > 0 ==> offset + size <= |mem.store|)
      ensures IsWord(self) && mem.paid < TWO64 ==> NarrowCall(None, mem.Get(offset, size), self, [])
    {
      GetIsNarrow(mem, offset, size);
    }

    lemma CallArgs(self: Addr, address: Addr, args: seq<Byte>)
      requires Traced()
      ensures Narrow() && IsWord(self) && IsWord(address) && IsWord(|args|) ==>
        NarrowCall(Some(self), Code(world, address), self, args) && NarrowCall(Some(address), Code(world, address), self, args)
    {
      hide MeaningAll, LostAll, Wei, NarrowBlock, NarrowState, NarrowOps;
      if Narrow() {
        WorldIsNarrow();
        CodeIsNarrow(world, address);
      }
    }

    /** The operands of a call are popped, and its input is read from memory. */
    method CallOperands(op: Byte, stack: Stack, mem: Memory) returns (a: seq<nat>, args: seq<Byte>)
      requires (op == CALL || op == CALLCODE) && CanRun(op, stack, mem)
      modifies stack`ptr
      ensures stack.Valid() && stack.ptr == old(stack.ptr) - 7 <= 1024 && stack.Items() == old(stack.Items())[..stack.ptr]
      ensures |a| == 7 && forall i | 0 <= i < 7 :: a[i] == Top(old(stack.Items()), i)
      ensures a[6] > 0 ==> a[5] + a[6] <= |mem.store|
      ensures args == Piece(mem.store, a[3], a[4]) && (mem.paid < TWO64 ==> IsWord(|args|))
    {
      hide TableReq, Pops, Enough;
      ghost var d := stack.Items();
      CallRoom(op, |stack.data|, stack.ptr);
      a := stack.PopMany(7);
      assert Ranges(op, d)[0] == Range(a[3], a[4]) && Ranges(op, d)[1] == Range(a[5], a[6]);
      args := mem.Get(a[3], a[4]);
      GetIsNarrow(mem, a[3], a[4]);
    }

    /** A call that succeeded: 1 on the stack and its result in memory. */
    method Deliver(stack: Stack, mem: Memory, offset: nat, size: nat, ret: seq<Byte>)
      requires stack.Valid() && stack.ptr <= 1024 && mem.Valid() && (size > 0 ==> offset + size <= |mem.store|)
      modifies stack, mem`store
      ensures stack.Valid() && |stack.data| == Max(old(|stack.data|), stack.ptr) && stack.wide == old(stack.wide)
      ensures stack.Items() == old(stack.Items()) + [1]
      ensures mem.Valid() && |mem.store| == old(|mem.store|)
      ensures mem.store == Delivered(old(mem.store), offset, size, ret)
    {
      stack.Push(1);
      mem.Set(offset, size, ret);
      SplicedIs(old(mem.store), offset, ret[..if |ret| < size then |ret| else size]);
    }

    /** What a running call keeps between steps; limit bounds the gas it has and the gas its memory has cost. */
    ghost predicate Running(ctx: Context, stack: Stack, mem: Memory, limit: nat)
      reads this, ctx.gas, stack, mem
    {
      && Valid() && Traced() && ctx.Valid() && stack.Valid() && mem.Valid() && ctx.self in world.accounts
      && mem.paid + ctx.gas.v <= limit < TWO64
    }

    /** The program counter is at an instruction, or past the code. */
    ghost predicate PcOk(code: seq<Byte>, pc: nat)
    {
      IsStart(code, pc) || pc >= |code|
    }

    /** Charge for the opcode at pc and buy the memory it needs. */
    method Pay(ctx: Context, op: Byte, stack: Stack, mem: Memory, ghost pc: nat, ghost input: seq<Byte>, ghost limit: nat)
      returns (err: Option<VmError>)
      requires Running(ctx, stack, mem, limit) && op == OpAt(ctx.code, pc)
      modifies `world, `trace, ctx.gas, ctx.usedGas, mem
      ensures Traced() && ctx.Valid() && (|stack.data| == 1025 && PushesOnly(op) ==> err == Some(StackLimit))
      ensures Lost() >= old(Lost()) && Keeps(old(world), world, coinbase) && ctx.gas.v <= old(ctx.gas.v)
      ensures err.None? ==> Running(ctx, stack, mem, limit) && CanRun(op, stack, mem)
      ensures err.None? ==> PriceIn(op, stack.Items(), old(world), ctx.self) + ctx.gas.v + mem.paid == old(ctx.gas.v + mem.paid)
      ensures err.None? ==> mem.paid >= old(mem.paid)
      ensures err.Some? ==> err.value in {OutOfGas, Underflow, StackLimit}
      ensures var p := Paid(FrameOf(ctx, input), old(At(ctx, stack, mem, pc)));
              if err.None? then p == Some(At(ctx, stack, mem, pc))
              else p.None? && err.value == PayError(FrameOf(ctx, input), old(At(ctx, stack, mem, pc)))
    {
      hide TableReq, Pops, Enough, Keeps, PriceIn, RefundFor, Ranges, Covers, MemFee, Top, PushesOnly, MeaningAll, LostAll, Wei,
           StackError, SizeFor;
      ghost var m := At(ctx, stack, mem, pc);
      var e, size, cost, fee := CalculateGasAndSize(ctx, op, stack, mem);
      KeepsLog(old(world), world, coinbase);
      if e.Some? {
        return e;
      }
      var price := new BigInt(cost);
      var ok := ctx.UseGas(price);
      if !ok {
        ctx.UseAllGas();
        return Some(OutOfGas);
      }
      BoughtSize(|mem.store|, size, mem.paid, fee, limit);
      mem.Resize(size % TWO64, fee);
      CoversMore(size, |mem.store|, Ranges(op, stack.Items()));
      err := None;
    }

    /** One turn of the loop: every step that goes on leaves less gas. */
    method Step(ctx: Context, stack: Stack, mem: Memory, pc: nat, input: seq<Byte>, ghost limit: nat)
      returns (next: Next, ghost inner: Option<Nest>)
      requires Running(ctx, stack, mem, limit) && PcOk(ctx.code, pc)
      modifies this, ctx.gas, ctx.usedGas, stack, mem
      ensures Traced() && start == old(start) && ctx.Valid()
      ensures stack.Valid() && |stack.data| >= old(|stack.data|)
      ensures stack.wide && !old(stack.wide) ==> LooksUp(OpAt(ctx.code, pc)) || OpAt(ctx.code, pc) == CREATE
      ensures old(Narrow()) && NarrowIn(ctx, input) && old(words) && !old(stack.wide) ==> words && !stack.wide
      ensures old(|stack.data|) == 1025 && PushesOnly(OpAt(ctx.code, pc)) ==> next == Fail(StackLimit)
      ensures next.Go? ==> Running(ctx, stack, mem, limit) && PcOk(ctx.code, next.pc) && ctx.gas.v < old(ctx.gas.v)
      ensures ctx.gas.v <= old(ctx.gas.v) && depth == old(depth)
      ensures next.Fail? ==> next.error != DepthError && next.error != ValueTransfer
      ensures Lost() >= old(Lost()) && Keeps(old(world), world, coinbase)
      ensures next.Go? ==> Turns(RulesOf(), depth, FrameOf(ctx, input), Turn(old(At(ctx, stack, mem, pc)), inner),
                                 At(ctx, stack, mem, next.pc))
      ensures next.Go? && OpAt(ctx.code, pc) == SSTORE ==>
        var d := old(stack.Items());
        && |d| >= 2 && stack.Items() == d[..|d| - 2] && OnlySlot(old(world), world, ctx.self, ToHash(Top(d, 0)))
        && Storage(world, ctx.self, ToHash(Top(d, 0))) == ToHash(Top(d, 1))
      ensures next.Done? ==> Ends(FrameOf(ctx, input), old(At(ctx, stack, mem, pc)), next.ret, None, ctx.gas.v, world)
      ensures next.Fail? ==> Ends(FrameOf(ctx, input), old(At(ctx, stack, mem, pc)), [], Some(next.error), 0, world)
      decreases ctx.gas.v, 3
    {
      hide TableReq, PureReq, Pops, Enough, Keeps, Price, RefundFor, Ranges, Covers, StartsFrom, PushesOnly,
           MeaningAll, LostAll, Wei, Paid, Acts, Stops, PayError, OnlySlot, Storage;
      var op := OpAt(ctx.code, pc);
      ghost var before := ctx.gas.v;
      inner := None;
      var err := Pay(ctx, op, stack, mem, pc, input, limit);
      ghost var w := world;
      if err.Some? {
        return Fail(err.value), None;
      }
      ghost var left := PriceIn(op, stack.Items(), old(world), ctx.self) + ctx.gas.v;
      PriceInIsPositive(op, stack.Items(), old(world), ctx.self);
      next, inner := Do(ctx, op, stack, mem, pc, input, left, limit);
      KeepsThen(old(world), w, world, coinbase);
      if next.Go? && op == SSTORE {
        StoreTurn(RulesOf(), depth, FrameOf(ctx, input), Turn(old(At(ctx, stack, mem, pc)), inner), At(ctx, stack, mem, next.pc));
      }
    }

    // ---------- the groups of the switch ----------

    method DoCompute(ctx: Context, op: Byte, stack: Stack, mem: Memory, pc: nat, input: seq<Byte>)
      requires PureReq(op).Some? && CanRun(op, stack, mem) && ctx.Valid() && op == OpAt(ctx.code, pc)
      modifies stack
      ensures stack.Valid() && |stack.data| >= old(|stack.data|)
      ensures stack.wide && !old(stack.wide) ==> LooksUp(op)
      ensures Result(block, coinbase, ViewOf(FrameOf(ctx, input), old(At(ctx, stack, mem, pc)))) < EvmArith.WORD ==>
        stack.wide == old(stack.wide)
      ensures Acts(RulesOf(), depth, FrameOf(ctx, input), old(At(ctx, stack, mem, pc)), None,
                   At(ctx, stack, mem, NextPc(ctx.code, pc)))
    {
      hide PureReq, TableReq, Pops, Enough, Ranges, Covers, Result, Acts, CanAct, LooksUp, Args;
      ghost var f, m := FrameOf(ctx, input), At(ctx, stack, mem, pc);
      CanActIs(f, m);
      Compute(ctx, op, stack, mem, pc, input);
      ActPure(RulesOf(), depth, f, m, At(ctx, stack, mem, NextPc(ctx.code, pc)));
    }

    method DoShuffle(ctx: Context, op: Byte, stack: Stack, mem: Memory, pc: nat, ghost input: seq<Byte>)
      requires Shuffles(op) && CanRun(op, stack, mem) && ctx.Valid() && op == OpAt(ctx.code, pc)
      modifies stack
      ensures stack.Valid() && |stack.data| >= old(|stack.data|) && stack.wide == old(stack.wide)
      ensures Acts(RulesOf(), depth, FrameOf(ctx, input), old(At(ctx, stack, mem, pc)), None,
                   At(ctx, stack, mem, NextPc(ctx.code, pc)))
    {
      hide TableReq, Pops, Enough, Ranges, Covers, Acts, CanAct, Top, GetData, FromBigEndian;
      ghost var f, m := FrameOf(ctx, input), At(ctx, stack, mem, pc);
      CanActIs(f, m);
      Shuffle(ctx, op, stack, mem, pc);
      ActShuffle(RulesOf(), depth, f, m, At(ctx, stack, mem, NextPc(ctx.code, pc)));
    }

    method DoWriteMemory(ctx: Context, op: Byte, stack: Stack, mem: Memory, ghost pc: nat, input: seq<Byte>)
      requires WritesMemory(op) && CanRun(op, stack, mem) && ctx.Valid() && op == OpAt(ctx.code, pc)
      modifies stack, mem`store
      ensures stack.Valid() && mem.Valid() && |mem.store| == old(|mem.store|)
      ensures stack.data == old(stack.data) && stack.wide == old(stack.wide)
      ensures Acts(RulesOf(), depth, FrameOf(ctx, input), old(At(ctx, stack, mem, pc)), None,
                   At(ctx, stack, mem, NextPc(ctx.code, pc)))
    {
      hide TableReq, Pops, Enough, Ranges, Covers, Acts, CanAct, Spliced, Payload;
      ghost var f, m := FrameOf(ctx, input), At(ctx, stack, mem, pc);
      CanActIs(f, m);
      WriteCases(op, m.items, |m.memory|, m.world, f.code, f.input);
      WriteMemory(ctx, op, stack, mem, input);
      ActMemory(RulesOf(), depth, f, m, At(ctx, stack, mem, NextPc(ctx.code, pc)));
    }

    method DoWriteWorld(ctx: Context, op: Byte, stack: Stack, mem: Memory, ghost pc: nat, ghost input: seq<Byte>)
      requires (op == SSTORE || IsLog(op)) && CanRun(op, stack, mem) && ctx.self in world.accounts && Traced()
      requires ctx.Valid() && op == OpAt(ctx.code, pc)
      modifies stack, `world, `trace
      ensures Traced() && stack.data == old(stack.data) && stack.wide == old(stack.wide)
      ensures stack.Valid() && Lost() >= old(Lost()) && Keeps(old(world), world, coinbase)
      ensures Acts(RulesOf(), depth, FrameOf(ctx, input), old(At(ctx, stack, mem, pc)), None,
                   At(ctx, stack, mem, NextPc(ctx.code, pc)))
    {
      hide TableReq, Enough, Ranges, Covers, Acts, CanAct, SetStorage, Topics, Keeps, MeaningAll, LostAll, Wei, Traced, Lost,
           Pops, Top;
      ghost var f, m := FrameOf(ctx, input), At(ctx, stack, mem, pc);
      CanActIs(f, m);
      if IsLog(op) {
        LogInMemory(f, m);
      }
      WriteWorld(ctx, op, stack, mem);
      ActWorld(RulesOf(), depth, f, m, At(ctx, stack, mem, NextPc(ctx.code, pc)));
    }

    method DoCall(ctx: Context, op: Byte, stack: Stack, mem: Memory, ghost pc: nat, ghost input: seq<Byte>, ghost before: nat)
      returns (ghost nest: Nest)
      requires Valid() && Traced() && ctx.Valid() && op == OpAt(ctx.code, pc)
      requires (op == CALL || op == CALLCODE) && CanRun(op, stack, mem) && ctx.self in world.accounts
      requires var d := stack.Items(); ctx.gas.v + Top(d, 0) + (if Top(d, 2) > 0 then 2300 else 0) < before < TWO64
      modifies this, ctx.gas, ctx.usedGas, stack, mem`store
      ensures Traced() && start == old(start) && ctx.Valid()
      ensures stack.Valid() && |stack.data| >= old(|stack.data|) && depth == old(depth)
      ensures mem.Valid() && |mem.store| == old(|mem.store|) && ctx.gas.v < before
      ensures Lost() >= old(Lost()) && Keeps(old(world), world, coinbase)
      ensures stack.wide == old(stack.wide)
      ensures old(Narrow()) && IsWord(ctx.self) && mem.paid < TWO64 && old(words) ==> words
      ensures Acts(RulesOf(), depth, FrameOf(ctx, input), old(At(ctx, stack, mem, pc)), Some(nest),
                   At(ctx, stack, mem, NextPc(ctx.code, pc)))
      decreases before, 1
    {
      hide TableReq, Pops, Enough, Keeps, MeaningAll, LostAll, Wei, Delivered, MemFee, Covers, Ranges, Top, Narrow, NarrowOps,
           LegalNest, Piece, Acts, CanAct, Traced, Lost, Code;
      ghost var f, m := FrameOf(ctx, input), At(ctx, stack, mem, pc);
      CanActIs(f, m);
      nest := OpCall(ctx, op, stack, mem, before);
      ActCall(RulesOf(), depth, f, m, nest, At(ctx, stack, mem, NextPc(ctx.code, pc)));
    }

    /** The switch over opcodes; left is the gas before the opcode was paid for. */
    method Do(ctx: Context, op: Byte, stack: Stack, mem: Memory, pc: nat, input: seq<Byte>, ghost left: nat, ghost limit: nat)
      returns (next: Next, ghost inner: Option<Nest>)
      requires Running(ctx, stack, mem, limit) && PcOk(ctx.code, pc) && op == OpAt(ctx.code, pc) && CanRun(op, stack, mem)
      requires mem.paid + left <= limit && ctx.gas.v <= left && (Known(op) && !Halts(op) ==> ctx.gas.v < left)
      requires op == CALL || op == CALLCODE ==>
        var d := stack.Items(); ctx.gas.v + Top(d, 0) + (if Top(d, 2) > 0 then 2300 else 0) < left
      modifies this, ctx.gas, ctx.usedGas, stack, mem`store
      ensures Traced() && start == old(start) && ctx.Valid()
      ensures stack.Valid() && |stack.data| >= old(|stack.data|)
      ensures stack.wide && !old(stack.wide) ==> LooksUp(op) || op == CREATE
      ensures old(Narrow()) && NarrowIn(ctx, input) && old(words) && !old(stack.wide) ==> words && !stack.wide
      ensures next.Go? ==> Running(ctx, stack, mem, limit) && PcOk(ctx.code, next.pc) && ctx.gas.v < left
      ensures ctx.gas.v <= left && depth == old(depth)
      ensures next.Fail? ==> next.error == InvalidJump || next.error == InvalidOpcode
      ensures Lost() >= old(Lost()) && Keeps(old(world), world, coinbase)
      ensures CanAct(FrameOf(ctx, input), old(At(ctx, stack, mem, pc)))
      ensures next.Go? ==> Acts(RulesOf(), depth, FrameOf(ctx, input), old(At(ctx, stack, mem, pc)), inner,
                                At(ctx, stack, mem, next.pc))
      ensures next.Done? ==> Stops(FrameOf(ctx, input), old(At(ctx, stack, mem, pc)), next.ret, None, ctx.gas.v, world)
      ensures next.Fail? ==> Stops(FrameOf(ctx, input), old(At(ctx, stack, mem, pc)), [], Some(next.error), 0, world)
      decreases left, 2
    {
      hide TableReq, PureReq, Pops, Enough, Keeps, Ranges, Covers, StartsFrom, Known, LooksUp, Result, MeaningAll, LostAll,
           Wei, Spliced, Bumped, Acts, Stops, CanAct;
      ghost var w, m := world, At(ctx, stack, mem, pc);
      inner := None;
      KeepsSelf(w, coinbase);
      KnownCases(op);
      CanActIs(FrameOf(ctx, input), m);
      if op == JUMP || op == JUMPI {
        next := Jump(ctx, op, stack, mem, pc, input);
        NextOk(ctx.code, pc);
      } else if Halts(op) {
        var ret := Halt(ctx, op, stack, mem, pc, input);
        next := Done(ret);
      } else if !Known(op) {
        next := Fail(InvalidOpcode);
        StopUnknown(FrameOf(ctx, input), m, world);
      } else {
        NextOk(ctx.code, pc);
        next := Go(NextPc(ctx.code, pc));
        if PureReq(op).Some? {
          if Narrow() && NarrowIn(ctx, input) && !stack.wide {
            PureIsNarrow(ctx, op, stack, mem, pc, input, limit);
          }
          DoCompute(ctx, op, stack, mem, pc, input);
        } else if op == POP || IsPush(op) || IsDup(op) || IsSwap(op) {
          DoShuffle(ctx, op, stack, mem, pc, input);
        } else if op == CALLDATACOPY || op == CODECOPY || op == EXTCODECOPY || op == MSTORE || op == MSTORE8 {
          DoWriteMemory(ctx, op, stack, mem, pc, input);
        } else if op == SSTORE || IsLog(op) {
          DoWriteWorld(ctx, op, stack, mem, pc, input);
          KeepsHas(w, world, coinbase, ctx.self);
        } else if op == CREATE {
          ghost var nest := OpCreate(ctx, stack, mem, pc, input, left);
          inner := Some(nest);
          KeepsHas(w, world, coinbase, ctx.self);
        } else if op == CALL || op == CALLCODE {
          ghost var nest := DoCall(ctx, op, stack, mem, pc, input, left);
          inner := Some(nest);
          KeepsHas(w, world, coinbase, ctx.self);
        } else {
          ActNothing(RulesOf(), depth, FrameOf(ctx, input), m, At(ctx, stack, mem, NextPc(ctx.code, pc)));
        }
      }
    }

    /** Where all that can be looked up is a word, so is what is pushed. */
    lemma PureIsNarrow(ctx: Context, op: Byte, stack: Stack, mem: Memory, pc: nat, input: seq<Byte>, limit: nat)
      requires Running(ctx, stack, mem, limit) && PureReq(op).Some? && CanRun(op, stack, mem) && op == OpAt(ctx.code, pc)
      requires Narrow() && NarrowIn(ctx, input) && !stack.wide
      ensures var view := View(op, Args(stack.Items(), Pops(op)), world, ctx.self, ctx.caller, ctx.value, ctx.gas.v, pc,
                               mem.store, input, ctx.code);
              Result(block, coinbase, view) < EvmArith.WORD
    {
      hide Result, Ranges, Covers, NarrowState, NarrowBlock, MeaningAll, LostAll, Wei, NarrowOps;
      WorldIsNarrow();
      PureRoom(op, |stack.data|, stack.ptr);
      FeeBoundsSize(|mem.store| / 32);
      ResultIsNarrow(block, coinbase, View(op, Args(stack.Items(), Pops(op)), world, ctx.self, ctx.caller, ctx.value, ctx.gas.v,
                                           pc, mem.store, input, ctx.code));
    }

    /** Run: the gas it leaves is at most the gas it got, and none after an error. */
    method Run(ctx: Context, input: seq<Byte>) returns (ret: seq<Byte>, err: Option<VmError>, ghost tree: Tree)
      requires Valid() && Traced() && ctx.Valid() && ctx.gas.v < TWO64 && ctx.self in world.accounts && depth <= 1024
      modifies this, ctx.gas, ctx.usedGas
      ensures Traced() && start == old(start) && ctx.Valid()
      ensures depth == old(depth) && ctx.gas.v <= old(ctx.gas.v) && (err.Some? ==> ctx.gas.v == 0)
      ensures ctx.code == [] && !Builtin(ctx.codeAddr) ==>
        err == None && ret == [] && world == old(world) && ctx.gas.v == old(ctx.gas.v)
      ensures err != Some(DepthError) && err != Some(ValueTransfer)
      ensures Lost() >= old(Lost()) && Keeps(old(world), world, coinbase)
      ensures old(Narrow()) && NarrowIn(ctx, input) && old(words) ==> words
      ensures LegalTree(RulesOf(), old(depth) + 1, tree)
      ensures tree.frame == FrameOf(ctx, input) && tree.start == old(world) && tree.gas == old(ctx.gas.v)
      ensures tree.ret == ret && tree.err == err && tree.left == ctx.gas.v && (err.None? ==> tree.end == world)
      ensures !Builtin(ctx.codeAddr) && ctx.code != [] && err.None? ==> Returned(tree)
      decreases ctx.gas.v, 5
    {
      hide Keeps, IsStart, MeaningAll, LostAll, Wei, Chained, Ends, Returned;
      depth := depth + 1;
      KeepsSelf(world, coinbase);
      ret, err := [], None;
      if Builtin(ctx.codeAddr) {
        var price := new BigInt(PrecompiledGas(ctx.codeAddr.value, |input|));
        var ok := ctx.UseGas(price);
        if ok {
          ret := precompiled(ctx.codeAddr.value, input);
        } else {
          err := Some(OutOfGas);
        }
      }
      ghost var turns := [];
      if !Builtin(ctx.codeAddr) && |ctx.code| > 0 {
        ret, err, turns := Loop(ctx, input);
      }
      if err.Some? {
        ctx.UseAllGas();
        ret := [];
      }
      tree := Tree(FrameOf(ctx, input), old(world), old(ctx.gas.v), turns, ret, err, ctx.gas.v, world);
      depth := depth - 1;
      RunReturns(RulesOf(), depth + 1, tree);
    }

    /** The main loop, with a fresh stack and memory. */
    method Loop(ctx: Context, input: seq<Byte>) returns (ret: seq<Byte>, err: Option<VmError>, ghost turns: seq<Turn>)
      requires Valid() && Traced() && ctx.Valid() && ctx.gas.v < TWO64 && ctx.self in world.accounts
      modifies this, ctx.gas, ctx.usedGas
      ensures Traced() && start == old(start) && ctx.Valid()
      ensures depth == old(depth) && ctx.gas.v <= old(ctx.gas.v)
      ensures err != Some(DepthError) && err != Some(ValueTransfer)
      ensures Lost() >= old(Lost()) && Keeps(old(world), world, coinbase)
      ensures old(Narrow()) && NarrowIn(ctx, input) && old(words) ==> words
      ensures turns != []
      ensures var n, f := |turns| - 1, FrameOf(ctx, input);
              && Chained(RulesOf(), depth, f, turns[..n], Begin(old(ctx.gas.v), old(world)), turns[n].at)
              && turns[n].inner.None? && (err.Some? ==> ret == [])
              && Ends(f, turns[n].at, ret, err, if err.None? then ctx.gas.v else 0, world)
      decreases ctx.gas.v, 4
    {
      hide Keeps, IsStart, MeaningAll, LostAll, Wei, Chained, Ends, Turns;
      var stack := new Stack();
      var mem := new Memory();
      var pc := 0;
      ghost var limit := ctx.gas.v;
      StartIsStart(ctx.code);
      KeepsSelf(world, coinbase);
      turns := [];
      ghost var rules, f, first := RulesOf(), FrameOf(ctx, input), Begin(ctx.gas.v, world);
      ChainStarts(rules, depth, f, first);
      while true
        invariant fresh(stack) && fresh(mem) && Running(ctx, stack, mem, limit) && PcOk(ctx.code, pc)
        invariant depth == old(depth) && start == old(start) && ctx.gas.v <= old(ctx.gas.v)
        invariant Lost() >= old(Lost()) && Keeps(old(world), world, coinbase)
        invariant (words ==> !stack.wide) && (old(Narrow()) && NarrowIn(ctx, input) && old(words) ==> words)
        invariant Chained(rules, depth, f, turns, first, At(ctx, stack, mem, pc))
        decreases ctx.gas.v
      {
        ghost var w, m := world, At(ctx, stack, mem, pc);
        var next;
        ghost var inner;
        next, inner := Step(ctx, stack, mem, pc, input, limit);
        ghost var turn := Turn(m, if next.Go? then inner else None);
        KeepsThen(old(world), w, world, coinbase);
        words := words && !stack.wide;
        assert (turns + [turn])[..|turns|] == turns;
        match next
        case Go(p) =>
          ChainGrows(rules, depth, f, turns, turn, first, At(ctx, stack, mem, p));
          pc, turns := p, turns + [turn];
        case Done(r) => return r, None, turns + [turn];
        case Fail(e) => return [], Some(e), turns + [turn];
      }
    }

    /** One snapshot before the nonce is raised and one after; without funds the first is restored. */
    method Enter(creates: bool, caller: Addr, addr: Addr, value: nat) returns (snapshot: State, ok: bool)
      requires caller in world.accounts && (creates ==> addr != caller && addr != coinbase)
      modifies `world
      ensures ok <==> Balance(old(world), caller) >= value
      ensures !ok ==> world == old(world)
      ensures ok ==> snapshot == Bumped(old(world), caller, creates) && Keeps(old(world), snapshot, coinbase)
      ensures ok ==> Keeps(old(world), world, coinbase) && caller in old(world).accounts && addr in world.accounts
      ensures ok ==> var e := Entered(old(world), caller, creates, addr);
              Balance(e, caller) >= value && world == Transfer(e, caller, addr, value)
    {
      hide Keeps, Wei, Transfer;
      var vsnapshot := world;
      KeepsSelf(world, coinbase);
      if creates {
        world := SetNonce(world, caller, Nonce(world, caller) + 1);
        KeepsPut(vsnapshot, caller, world.accounts[caller], coinbase);
      }
      snapshot := world;
      if creates {
        world := World.Create(world, addr);
        KeepsCreate(snapshot, addr, coinbase);
      } else {
        world := Touch(world, addr);
        KeepsTouch(snapshot, addr, coinbase);
      }
      KeepsThen(vsnapshot, snapshot, world, coinbase);
      if Balance(world, caller) < value {
        world := vsnapshot;
        return snapshot, false;
      }
      ghost var w := world;
      world := Transfer(world, caller, addr, value);
      KeepsTransfer(w, caller, addr, value, coinbase);
      KeepsThen(vsnapshot, w, world, coinbase);
      KeepsHas(w, world, coinbase, addr);
      ok := true;
    }

    lemma CallIsNarrow(address: Option<Addr>, code: seq<Byte>, caller: Addr, input: seq<Byte>, value: nat, addr: Addr, w: State)
      requires NarrowIs(w) && NarrowCall(address, code, caller, input) && caller in w.accounts
      requires addr == if address.Some? then address.value else createAddress(caller, Nonce(w, caller))
      requires Balance(Entered(w, caller, address.None?, addr), caller) >= value
      ensures NarrowIs(Transfer(Entered(w, caller, address.None?, addr), caller, addr, value))
      ensures NarrowCall(Some(addr), code, caller, input) && IsWord(value)
    {
      hide NarrowState, NarrowBlock, Entered, Transfer;
      EnteredNarrow(w, caller, address.None?, addr, value);
    }

    /** Run in a context of its own; what it does is recorded apart. */
    method RunApart(addr: Addr, codeAddr: Option<Addr>, code: seq<Byte>, caller: Addr, input: seq<Byte>, gas: nat, value: nat)
      returns (ret: seq<Byte>, err: Option<VmError>, back: nat, ghost inner: seq<Op>, ghost tree: Tree)
      requires Valid() && gas < TWO64 && addr in world.accounts && depth <= 1024
      modifies this
      ensures trace == old(trace) && start == old(start) && depth == old(depth) && back <= gas
      ensures world == MeaningAll(inner, |inner|, old(world)) && NarrowOps(inner) && Keeps(old(world), world, coinbase)
      ensures err.Some? ==> back == 0 && err != Some(DepthError) && err != Some(ValueTransfer)
      ensures code == [] && !Builtin(codeAddr) ==> err == None && ret == [] && back == gas && world == old(world)
      ensures NarrowIs(old(world)) && NarrowCall(Some(addr), code, caller, input) && IsWord(value) && old(words) ==> words
      ensures LegalTree(RulesOf(), old(depth) + 1, tree)
      ensures tree.frame == Frame(addr, caller, codeAddr, code, value, input) && tree.start == old(world) && tree.gas == gas
      ensures tree.ret == ret && tree.err == err && tree.left == back && (err.None? ==> tree.end == world)
      decreases gas, 6
    {
      hide Keeps, MeaningAll, LostAll, Wei, NarrowState, NarrowBlock, IsWord, NarrowOp, LegalTree;
      ghost var outer, begun := trace, start;
      trace, start := [], world;
      NothingDone(world);
      var ctx := new Context(caller, addr, codeAddr, code, value, gas);
      ret, err, tree := Run(ctx, input);
      back := ctx.gas.v;
      inner := trace;
      trace, start := outer, begun;
    }

    /**
     exec: snapshot, transfer, run. When the transfer fails, or the calls are too deep, nothing at all has
     changed; when the code fails, nothing but a creator's nonce.
     */
    method Exec(address: Option<Addr>, codeAddr: Option<Addr>, code: seq<Byte>, caller: Addr, input: seq<Byte>,
                gas: nat, value: nat)
      returns (ret: seq<Byte>, err: Option<VmError>, back: nat, addr: Addr, ghost nest: Nest)
      requires Valid() && Traced() && gas < TWO64 && caller in world.accounts
      modifies this
      ensures Traced() && start == old(start)
      ensures depth == old(depth) && back <= gas
      ensures err.None? ==> addr in world.accounts
      ensures err == Some(DepthError) || err == Some(ValueTransfer) ==> world == old(world) && back == gas
      ensures err.Some? && err != Some(DepthError) && err != Some(ValueTransfer) ==>
        world == Bumped(old(world), caller, address.None?) && back == 0
      ensures Lost() >= old(Lost()) && Keeps(old(world), world, coinbase)
      ensures addr == if address.Some? then address.value else createAddress(caller, Nonce(old(world), caller))
      ensures old(Narrow()) && NarrowCall(address, code, caller, input) && old(words) ==> words
      ensures LegalNest(RulesOf(), old(depth), old(world), nest)
      ensures nest.entry == Entry(address, codeAddr, code, caller, input, gas, value)
      ensures nest.out == Outcome(ret, err, back, addr, world)
      ensures err == Some(DepthError) <==> old(depth) > 1024
      ensures err == Some(ValueTransfer) <==> old(depth) <= 1024 && Balance(old(world), caller) < value
      ensures err.None? && code == [] && !Builtin(codeAddr) ==>
        ret == [] && back == gas && world == Transfer(Entered(old(world), caller, address.None?, addr), caller, addr, value)
      decreases gas, 9
    {
      hide *;
      ret, err, back, addr, nest := Enact(address, codeAddr, code, caller, input, gas, value);
      NestFacts(RulesOf(), old(depth), old(world), nest);
      RulesIs();
    }

    lemma RulesIs()
      ensures RulesOf() == Rules(block, coinbase, createAddress, precompiled)
    {}

    method Enact(address: Option<Addr>, codeAddr: Option<Addr>, code: seq<Byte>, caller: Addr, input: seq<Byte>,
                 gas: nat, value: nat)
      returns (ret: seq<Byte>, err: Option<VmError>, back: nat, addr: Addr, ghost nest: Nest)
      requires Valid() && Traced() && gas < TWO64 && caller in world.accounts
      modifies this
      ensures Traced() && start == old(start) && depth == old(depth) && back <= gas
      ensures err.None? ==> addr in world.accounts
      ensures Lost() >= old(Lost()) && Keeps(old(world), world, coinbase)
      ensures old(Narrow()) && NarrowCall(address, code, caller, input) && old(words) ==> words
      ensures LegalNest(RulesOf(), old(depth), old(world), nest)
      ensures nest.entry == Entry(address, codeAddr, code, caller, input, gas, value)
      ensures nest.out == Outcome(ret, err, back, addr, world)
      decreases gas, 8
    {
      hide Keeps, MeaningAll, LostAll, Wei, Meaning, Transfer, Entered, Bumped, NarrowIs, NarrowCall, IsWord, NarrowOps,
           LegalNest, LegalTree;
      ret := [];
      KeepsSelf(world, coinbase);
      addr := if address.Some? then address.value else createAddress(caller, Nonce(world, caller));
      ghost var entry := Entry(address, codeAddr, code, caller, input, gas, value);
      if depth > 1024 {
        nest := Nest(entry, Outcome([], Some(DepthError), gas, addr, world), None);
        NestFails(RulesOf(), depth, world, nest);
        return [], Some(DepthError), gas, addr, nest;
      }
      ghost var vsnapshot := world;
      if Narrow() {
        WorldIsNarrow();
      }
      var snapshot, ok := Enter(address.None?, caller, addr, value);
      if !ok {
        nest := Nest(entry, Outcome([], Some(ValueTransfer), gas, addr, world), None);
        NestFails(RulesOf(), depth, world, nest);
        return [], Some(ValueTransfer), gas, addr, nest;
      }
      ret, err, back, nest := Proceed(snapshot, addr, entry, vsnapshot, codeAddr, code, caller, input, gas, value);
    }

    /** The account has been entered and paid: its code runs, and what it did is undone if it failed. */
    method Proceed(snapshot: State, addr: Addr, ghost entry: Entry, ghost w: State, codeAddr: Option<Addr>, code: seq<Byte>,
                   caller: Addr, input: seq<Byte>, gas: nat, value: nat)
      returns (ret: seq<Byte>, err: Option<VmError>, back: nat, ghost nest: Nest)
      requires Valid() && gas < TWO64 && depth <= 1024 && addr in world.accounts && caller in w.accounts
      requires w == MeaningAll(trace, |trace|, start) && NarrowOps(trace)
      requires Keeps(w, world, coinbase) && Keeps(w, snapshot, coinbase)
      requires Balance(w, caller) >= value && snapshot == Bumped(w, caller, entry.address.None?)
      requires addr == (if entry.address.Some? then entry.address.value else createAddress(caller, Nonce(w, caller)))
      requires world == Transfer(Entered(w, caller, entry.address.None?, addr), caller, addr, value)
      requires entry == Entry(entry.address, codeAddr, code, caller, input, gas, value)
      modifies this
      ensures Traced() && start == old(start) && depth == old(depth) && back <= gas
      ensures err.None? ==> addr in world.accounts
      ensures Lost() >= old(Lost()) && Keeps(w, world, coinbase)
      ensures NarrowIs(w) && NarrowCall(entry.address, code, caller, input) && old(words) ==> words
      ensures LegalNest(RulesOf(), old(depth), w, nest) && nest.entry == entry && nest.out == Outcome(ret, err, back, addr, world)
      decreases gas, 7
    {
      hide Keeps, MeaningAll, LostAll, Wei, Meaning, Transfer, Entered, Bumped, NarrowIs, NarrowCall, IsWord, NarrowOps,
           LegalNest, LegalTree;
      ghost var creates, x, inner := entry.address.None?, world, [];
      ghost var tree;
      if NarrowIs(w) && NarrowCall(entry.address, code, caller, input) {
        CallIsNarrow(entry.address, code, caller, input, value, addr, w);
      }
      ret, err, back, inner, tree := RunApart(addr, codeAddr, code, caller, input, gas, value);
      KeepsThen(w, x, world, coinbase);
      KeepsHas(x, world, coinbase, addr);
      if err.Some? {
        world := snapshot;
      }
      CallMeans(caller, creates, addr, value, inner, err.Some?, w);
      Record(Call(caller, creates, addr, value, inner, err.Some?), w);
      nest := Nest(entry, Outcome(ret, err, back, addr, world), Some(tree));
      NestRuns(RulesOf(), depth, w, nest);
    }
  }

  lemma NothingDone(w: State)
    ensures MeaningAll([], 0, w) == w && LostAll([], 0, w) == 0
  {}

  lemma NothingToCover()
    ensures LeastCover(0, [])
  {}

  lemma StartIsStart(code: seq<Byte>)
    ensures IsStart(code, 0)
  {}

  /** What 64 bits of gas can pay for fits 64 bits. */
  lemma BoughtSize(have: nat, size: nat, paid: nat, fee: nat, limit: nat)
    requires have % 32 == 0 && size % 32 == 0 && paid == MemFee(have / 32) && fee == GrowFee(have, size)
    requires paid + fee <= limit < TWO64
    ensures size % TWO64 == size
  {
    hide MemFee;
    if size > have {
      FeeBoundsSize(size / 32);
    } else {
      FeeBoundsSize(have / 32);
    }
  }

  lemma PriceInIsPositive(op: Byte, d: seq<nat>, w: State, self: Addr)
    requires |d| >= Pops(op)
    ensures Known(op) && !Halts(op) ==> PriceIn(op, d, w, self) > 0
    ensures op == CALL || op == CALLCODE ==>
      PriceIn(op, d, w, self) > Top(d, 0) + if Top(d, 2) > 0 then 2300 else 0
  {
    hide Price, Known;
    PriceIsPositive(op, d, op == CALL && Has(w, ToAddr(Top(d, 1))),
                    if op == SSTORE then Storage(w, self, ToHash(Top(d, 0))) else 0);
  }

  /** The groups of the switch cover every opcode of the table. */
  lemma KnownCases(op: Byte)
    ensures Known(op) ==>
      || PureReq(op).Some? || op == POP || IsPush(op) || IsDup(op) || IsSwap(op) || op == CALLDATACOPY
      || op == CODECOPY || op == EXTCODECOPY || op == MSTORE || op == MSTORE8 || op == SSTORE || IsLog(op)
      || op == JUMP || op == JUMPI || op == JUMPDEST || op == CREATE || op == CALL || op == CALLCODE || Halts(op)
    ensures op == JUMP || op == JUMPI ==> Known(op)
  {}

  lemma NextOk(code: seq<Byte>, pc: nat)
    requires IsStart(code, pc) || pc >= |code|
    ensures pc < |code| ==> IsStart(code, NextPc(code, pc))
    ensures pc >= |code| ==> OpAt(code, pc) == STOP
  {
    if pc < |code| {
      NextIsStart(code, 0, pc);
    }
  }

  lemma KeepsHas(w: State, r: State, cb: Addr, a: Addr)
    requires a in w.accounts && Keeps(w, r, cb)
    ensures a in r.accounts
  {}

  lemma PureRoom(op: Byte, size: nat, ptr: nat)
    requires PureReq(op).Some? && Enough(op, size, ptr) && ptr <= size
    ensures Pops(op) == PureReq(op).value.pop <= ptr <= 1024 + Pops(op)
  {}

  lemma CreateRoom(size: nat, ptr: nat)
    requires Enough(CREATE, size, ptr) && ptr <= size
    ensures ptr <= 1027
  {}

  lemma CallRoom(op: Byte, size: nat, ptr: nat)
    requires (op == CALL || op == CALLCODE) && Enough(op, size, ptr) && ptr <= size
    ensures ptr <= 1031
  {}

  lemma KeepsLog(w: State, r: State, cb: Addr)
    requires r.accounts == w.accounts
    ensures Keeps(w, r, cb)
  {}
}
