/**
 What the opcodes do in a run, in terms of what a contract can observe: a slot holds what was stored in it, a
 call pays and runs the account it names, and no account's storage changes but by code that runs as it.
 */
module EvmLaws {
  import opened Bytes
  import opened World
  import opened WorldLaws
  import opened Effects
  import opened EvmCode
  import opened EvmMachine
  import opened EvmGas
  import opened EvmLook
  import opened EvmRun
  import EvmArith

  // ---------- one turn ----------

  lemma TurnIs(rules: Rules, depth: nat, f: Frame, t: Turn, r: Machine)
    requires Turns(rules, depth, f, t, r)
    ensures Paid(f, t.at).Some? && CanAct(f, Paid(f, t.at).value)
    ensures !Calls(OpOf(f, t.at)) && OpOf(f, t.at) != CREATE ==> t.inner.None? && Act(rules, f, Paid(f, t.at).value) == Some(r)
  {
    hide Act, LegalNest, Paid, CanAct;
  }

  lemma PaidIs(f: Frame, m: Machine)
    requires Paid(f, m).Some?
    ensures var op, p := OpOf(f, m), Paid(f, m).value;
            && |m.items| >= Pops(op) && Enough(op, m.slice, |m.items|) && Cost(f, m) <= m.gas
            && p == m.(memory := Widened(m.memory, SizeFor(op, m.items)), gas := m.gas - Cost(f, m),
                       world := m.world.(refund := m.world.refund + RefundFor(op, m.items, m.world, f.self)))
  {
    hide Cost, Widened, SizeFor, RefundFor, Enough, Pops;
  }

  /** Only a slot of one account may differ between two worlds. */
  ghost predicate OnlySlot(w: State, r: State, x: Addr, k: nat)
  {
    && (forall a, j | a != x || j != k :: Storage(r, a, j) == Storage(w, a, j))
    && (forall a :: Balance(r, a) == Balance(w, a) && Nonce(r, a) == Nonce(w, a) && Code(r, a) == Code(w, a))
    && r.logs == w.logs
  }

  lemma SetStorageOnly(w: State, p: State, x: Addr, k: nat, v: nat)
    requires p.accounts == w.accounts && p.logs == w.logs
    ensures var r := SetStorage(p, x, k, v); Storage(r, x, k) == v && OnlySlot(w, r, x, k) && r.refund == p.refund
  {
    var r := SetStorage(p, x, k, v);
    hide SetStorage, Storage, Balance, Nonce, Code;
    SetStorageLaw(p, x, k, v, x, k);
    forall a, j | a != x || j != k ensures Storage(r, a, j) == Storage(w, a, j) {
      SetStorageLaw(p, x, k, v, a, j);
      SameAccounts(w, p, a, j);
    }
    forall a ensures Balance(r, a) == Balance(w, a) && Nonce(r, a) == Nonce(w, a) && Code(r, a) == Code(w, a) {
      SetStorageLaw(p, x, k, v, a, 0);
      SameAccounts(w, p, a, 0);
    }
  }

  /** SSTORE: this slot takes the value, and nothing else changes; setting a slot costs more, clearing one is refunded. */
  lemma StoreTurn(rules: Rules, depth: nat, f: Frame, t: Turn, r: Machine)
    requires Turns(rules, depth, f, t, r) && OpOf(f, t.at) == SSTORE
    ensures |t.at.items| >= 2
    ensures var d, w := t.at.items, t.at.world;
            var k, v := ToHash(Top(d, 0)), ToHash(Top(d, 1));
            var was := Storage(w, f.self, k);
            && Storage(r.world, f.self, k) == v && OnlySlot(w, r.world, f.self, k)
            && r.world.refund == w.refund + (if was != 0 && v == 0 then 15000 else 0)
            && r.items == d[..|d| - 2] && r.memory == t.at.memory && r.pc == t.at.pc + 1
            && r.gas == t.at.gas - (if was == 0 && v != 0 then 20000 else 5000)
  {
    hide Turns, Paid, CanAct, SetStorage, Storage, OnlySlot, Cost, RefundFor, SizeFor, Widened;
    TurnIs(rules, depth, f, t, r);
    PaidIs(f, t.at);
    StorePrice(f, t.at);
    var d, p := t.at.items, Paid(f, t.at).value;
    SetStorageOnly(t.at.world, p.world, f.self, ToHash(Top(d, 0)), ToHash(Top(d, 1)));
  }

  lemma SameAccounts(w: State, r: State, a: Addr, j: nat)
    requires r.accounts == w.accounts
    ensures Storage(r, a, j) == Storage(w, a, j) && Balance(r, a) == Balance(w, a)
    ensures Nonce(r, a) == Nonce(w, a) && Code(r, a) == Code(w, a)
  {}

  lemma StorePrice(f: Frame, m: Machine)
    requires OpOf(f, m) == SSTORE && |m.items| >= 2
    ensures var was, v := Storage(m.world, f.self, ToHash(Top(m.items, 0))), ToHash(Top(m.items, 1));
            && Cost(f, m) == (if was == 0 && v != 0 then 20000 else 5000)
            && RefundFor(SSTORE, m.items, m.world, f.self) == (if was != 0 && v == 0 then 15000 else 0)
            && SizeFor(SSTORE, m.items) == 0 && Widened(m.memory, 0) == m.memory
  {
    hide Storage;
  }

  // ---------- the other groups ----------

  /** No refund and the same accounts and logs: only an SSTORE and a SUICIDE earn a refund when they are paid for. */
  lemma PaidQuietly(f: Frame, m: Machine)
    requires Paid(f, m).Some? && OpOf(f, m) != SSTORE && OpOf(f, m) != SUICIDE
    ensures Paid(f, m).value.world == m.world
  {
    hide Cost, Widened, SizeFor, Enough, Storage, Removed;
  }

  /** An opcode that computes takes its operands, pushes the result, and changes neither the world nor what memory holds. */
  lemma PureTurn(rules: Rules, depth: nat, f: Frame, t: Turn, r: Machine)
    requires Turns(rules, depth, f, t, r) && PureReq(OpOf(f, t.at)).Some?
    ensures |t.at.items| >= Pops(OpOf(f, t.at)) && Paid(f, t.at).Some?
    ensures var op, d, p := OpOf(f, t.at), t.at.items, Paid(f, t.at).value;
            && r.items == d[..|d| - Pops(op)] + [Result(rules.block, rules.coinbase, ViewOf(f, p))]
            && r.world == t.at.world && r.memory == Widened(t.at.memory, SizeFor(op, d))
            && r.gas == t.at.gas - Cost(f, t.at) && r.pc == NextPc(f.code, t.at.pc)
  {
    hide Turns, Paid, CanAct, Result, ViewOf, Cost, RefundFor, SizeFor, Widened, NextPc, Pops;
    TurnIs(rules, depth, f, t, r);
    PaidIs(f, t.at);
    PaidQuietly(f, t.at);
  }

  /** SLOAD pushes what the slot holds. */
  lemma LoadTurn(rules: Rules, depth: nat, f: Frame, t: Turn, r: Machine)
    requires Turns(rules, depth, f, t, r) && OpOf(f, t.at) == SLOAD
    ensures |t.at.items| >= 1
    ensures var d := t.at.items;
            && r.items == d[..|d| - 1] + [Storage(t.at.world, f.self, ToHash(Top(d, 0)))]
            && r.world == t.at.world && r.memory == t.at.memory && r.gas == t.at.gas - 50 && r.pc == t.at.pc + 1
  {
    PureTurn(rules, depth, f, t, r);
    PaidQuietly(f, t.at);
    var p := Paid(f, t.at).value;
    hide Turns, Paid, CanAct, Storage, Result;
    ThereMeans(rules.block, rules.coinbase, ViewOf(f, p));
  }

  /** SUB, DIV and LT take the top item as their left operand. */
  lemma OperandOrder(rules: Rules, depth: nat, f: Frame, t: Turn, r: Machine)
    requires Turns(rules, depth, f, t, r) && OpOf(f, t.at) in {0x03, 0x04, 0x10}
    requires forall x <- t.at.items :: x < EvmArith.WORD
    ensures |t.at.items| >= 2 && |r.items| == |t.at.items| - 1
    ensures var op, n := OpOf(f, t.at), |t.at.items|;
            var x, y, z := t.at.items[n - 1], t.at.items[n - 2], r.items[n - 2];
            && r.items[..n - 2] == t.at.items[..n - 2]
            && (op == 0x03 ==> z + y == x || z + y == x + EvmArith.WORD)
            && (op == 0x04 ==> if y == 0 then z == 0 else z * y <= x < z * y + y)
            && (op == 0x10 ==> z == if x < y then 1 else 0)
  {
    hide Turns, Paid, CanAct, Cost, Widened, SizeFor, EvmArith.Arith;
    PureTurn(rules, depth, f, t, r);
    PaidIs(f, t.at);
    var p, n := Paid(f, t.at).value, |t.at.items|;
    var x, y := t.at.items[n - 1], t.at.items[n - 2];
    assert Args(p.items, 2) == [x, y] && x in t.at.items && y in t.at.items;
    EvmArith.SumMeans(x, y);
    EvmArith.DivMeans(x, y);
    EvmArith.CompareMeans(x, y);
  }

  /** POP, PUSH, DUP and SWAP: what becomes of the items, one by one. */
  lemma StackTurn(rules: Rules, depth: nat, f: Frame, t: Turn, r: Machine)
    requires Turns(rules, depth, f, t, r) && Shuffles(OpOf(f, t.at))
    ensures r.world == t.at.world && r.memory == t.at.memory
    ensures var op, d := OpOf(f, t.at), t.at.items;
            var n := |d|;
            && (op == POP ==> n > 0 && r.items == d[..n - 1])
            && (IsPush(op) ==> |r.items| == n + 1 && r.items[..n] == d && r.pc == t.at.pc + 2 + (op - PUSH1) as nat)
            && (op == PUSH1 ==> r.items[n] == if t.at.pc + 1 < |f.code| then f.code[t.at.pc + 1] as nat else 0)
            && (IsDup(op) ==>
                  var k := (op - DUP1) as nat; k < n && |r.items| == n + 1 && r.items[..n] == d && r.items[n] == d[n - 1 - k])
            && (IsSwap(op) ==>
                  var k := (op - SWAP1) as nat + 1;
                  && k < n && |r.items| == n && r.items[n - 1] == d[n - 1 - k] && r.items[n - 1 - k] == d[n - 1]
                  && forall i | 0 <= i < n - 1 && i != n - 1 - k :: r.items[i] == d[i])
  {
    hide Turns, Shuffled;
    ShuffleTurn(rules, depth, f, t, r);
    ShuffledIs(OpOf(f, t.at), f.code, t.at.pc, t.at.items);
  }

  lemma ShuffleTurn(rules: Rules, depth: nat, f: Frame, t: Turn, r: Machine)
    requires Turns(rules, depth, f, t, r) && Shuffles(OpOf(f, t.at))
    ensures |t.at.items| >= Pops(OpOf(f, t.at)) && r.items == Shuffled(OpOf(f, t.at), f.code, t.at.pc, t.at.items)
    ensures r.world == t.at.world && r.memory == t.at.memory && r.gas == t.at.gas - 3 + (if OpOf(f, t.at) == POP then 1 else 0)
    ensures r.slice == Max(t.at.slice, |r.items|)
    ensures r.pc == t.at.pc + 1 + if IsPush(OpOf(f, t.at)) then 1 + (OpOf(f, t.at) - PUSH1) as nat else 0
  {
    hide Turns, Paid, CanAct, Cost, Shuffled, PriceIn, RefundFor, SizeFor, Widened;
    TurnIs(rules, depth, f, t, r);
    PaidIs(f, t.at);
    PaidQuietly(f, t.at);
    NoMemory(f, t.at);
    Tiers(OpOf(f, t.at), t.at.items, false, 0);
  }

  /** Opcodes that touch no memory pay for none. */
  lemma NoMemory(f: Frame, m: Machine)
    requires |m.items| >= Pops(OpOf(f, m)) && Ranges(OpOf(f, m), m.items) == []
    ensures SizeFor(OpOf(f, m), m.items) == 0 && Widened(m.memory, 0) == m.memory
    ensures OpOf(f, m) != CALL && OpOf(f, m) != SSTORE ==> Cost(f, m) == Price(OpOf(f, m), m.items, false, 0)
  {
    hide Price, Ranges, Pops;
  }

  lemma ShuffledIs(op: Byte, code: seq<Byte>, pc: nat, d: seq<nat>)
    requires |d| >= Pops(op) && Shuffles(op)
    ensures var r, n := Shuffled(op, code, pc, d), |d|;
            && (op == POP ==> n > 0 && r == d[..n - 1])
            && (IsPush(op) || IsDup(op) ==> |r| == n + 1 && r[..n] == d)
            && (op == PUSH1 ==> r[n] == if pc + 1 < |code| then code[pc + 1] as nat else 0)
            && (IsDup(op) ==> var k := (op - DUP1) as nat; k < n && r[n] == d[n - 1 - k])
            && (IsSwap(op) ==>
                  var k := (op - SWAP1) as nat + 1;
                  && k < n && |r| == n && r[n - 1] == d[n - 1 - k] && r[n - 1 - k] == d[n - 1]
                  && forall i | 0 <= i < n - 1 && i != n - 1 - k :: r[i] == d[i])
  {
    if op == PUSH1 {
      GetDataAt(code, pc + 1, 1, 0);
      hide GetData;
      OneByte(GetData(code, pc + 1, 1));
    }
  }

  lemma OneByte(s: seq<Byte>)
    requires |s| == 1
    ensures FromBigEndian(s) == s[0] as nat
  {
    assert FromBigEndian(s[..0]) == 0;
  }

  /** A byte of memory; beyond its end there are zeros. */
  function ByteIn(memory: seq<Byte>, i: nat): (b: Byte)
  {
    if i < |memory| then memory[i] else 0
  }

  lemma WidenedBytes(memory: seq<Byte>, size: nat, i: nat)
    ensures |Widened(memory, size)| >= |memory| && |Widened(memory, size)| >= size
    ensures ByteIn(Widened(memory, size), i) == ByteIn(memory, i)
  {}

  /** A memory opcode writes its bytes at its offset, and every other byte stays. */
  lemma MemoryTurn(rules: Rules, depth: nat, f: Frame, t: Turn, r: Machine, offset: nat, b: seq<Byte>)
    requires Turns(rules, depth, f, t, r) && WritesMemory(OpOf(f, t.at)) && |t.at.items| >= Pops(OpOf(f, t.at))
    requires Ranges(OpOf(f, t.at), t.at.items)[0].offset == offset
    requires b == Payload(OpOf(f, t.at), t.at.items, t.at.world, f.code, f.input)
    ensures r.items == t.at.items[..|t.at.items| - Pops(OpOf(f, t.at))] && r.world == t.at.world && r.pc == t.at.pc + 1
    ensures b != [] ==> offset + |b| <= |r.memory| && r.memory[offset..offset + |b|] == b
    ensures forall i: nat | !(offset <= i < offset + |b|) :: ByteIn(r.memory, i) == ByteIn(t.at.memory, i)
  {
    hide *;
    WriteTurn(rules, depth, f, t, r);
    var p := Paid(f, t.at).value;
    SplicedBytes(p.memory, offset, b);
    forall i: nat | !(offset <= i < offset + |b|) ensures ByteIn(r.memory, i) == ByteIn(t.at.memory, i) {
      WidenedBytes(t.at.memory, SizeFor(OpOf(f, t.at), t.at.items), i);
    }
  }

  lemma WriteTurn(rules: Rules, depth: nat, f: Frame, t: Turn, r: Machine)
    requires Turns(rules, depth, f, t, r) && WritesMemory(OpOf(f, t.at)) && |t.at.items| >= Pops(OpOf(f, t.at))
    ensures Paid(f, t.at).Some? && Paid(f, t.at).value.memory == Widened(t.at.memory, SizeFor(OpOf(f, t.at), t.at.items))
    ensures r.items == t.at.items[..|t.at.items| - Pops(OpOf(f, t.at))] && r.world == t.at.world && r.pc == t.at.pc + 1
    ensures |Ranges(OpOf(f, t.at), t.at.items)| > 0
    ensures var m, o := Paid(f, t.at).value.memory, Ranges(OpOf(f, t.at), t.at.items)[0].offset;
            var b := Payload(OpOf(f, t.at), t.at.items, t.at.world, f.code, f.input);
            && (b != [] ==> o + |b| <= |m|) && r.memory == Spliced(m, o, b)
  {
    hide Turns, Paid, CanAct, Cost, Payload, Pops, Widened, SizeFor, Spliced, Covers, Ranges, PureReq, Shuffles, RefundFor;
    TurnIs(rules, depth, f, t, r);
    PaidIs(f, t.at);
    PaidQuietly(f, t.at);
    var p := Paid(f, t.at).value;
    CanActCovers(f, p);
    WriteCases(OpOf(f, t.at), t.at.items, |p.memory|, p.world, f.code, f.input);
    ActWrites(rules, f, p);
  }

  lemma ActWrites(rules: Rules, f: Frame, m: Machine)
    requires CanAct(f, m) && WritesMemory(OpOf(f, m))
    ensures Act(rules, f, m) == Some(Onward(f, m, m.items[..|m.items| - Pops(OpOf(f, m))]).(memory := Written(f, m)))
    ensures NextPc(f.code, m.pc) == m.pc + 1
  {
    hide CanAct, Written, Pops, PureReq, Result, ViewOf;
    WritesOnly(OpOf(f, m));
  }

  lemma WritesOnly(op: Byte)
    requires WritesMemory(op)
    ensures PureReq(op).None? && !Shuffles(op)
  {}

  lemma CanActCovers(f: Frame, m: Machine)
    requires CanAct(f, m)
    ensures |m.items| >= Pops(OpOf(f, m)) && Covers(|m.memory|, Ranges(OpOf(f, m), m.items))
  {}

  lemma SplicedBytes(store: seq<Byte>, offset: nat, b: seq<Byte>)
    requires b != [] ==> offset + |b| <= |store|
    ensures var r := Spliced(store, offset, b);
            && |r| == |store| && (b != [] ==> r[offset..offset + |b|] == b)
            && forall i: nat | !(offset <= i < offset + |b|) :: ByteIn(r, i) == ByteIn(store, i)
  {}

  /** MSTORE writes the 32 bytes of a word, and MLOAD there reads it back. */
  lemma WordTurn(rules: Rules, depth: nat, f: Frame, t: Turn, r: Machine, u: Turn, q: Machine)
    requires Turns(rules, depth, f, t, r) && OpOf(f, t.at) == MSTORE && u.at == r
    requires Turns(rules, depth, f, u, q) && OpOf(f, r) == MLOAD
    ensures |t.at.items| >= 2 && |r.items| == |t.at.items| - 2 && |r.items| > 0 && |q.items| == |r.items|
    ensures Top(r.items, 0) == Top(t.at.items, 0) && Top(t.at.items, 1) < EvmArith.WORD ==>
      Top(q.items, 0) == Top(t.at.items, 1)
  {
    TurnIs(rules, depth, f, t, r);
    PaidIs(f, t.at);
    var d := t.at.items;
    var o, x := Top(d, 0), Top(d, 1);
    hide Turns, Paid, CanAct, Cost, Act, Widened, SizeFor, FromBigEndian, ToBytes32;
    MemoryTurn(rules, depth, f, t, r, o, ToBytes32(x)[..32]);
    PureTurn(rules, depth, f, u, q);
    var p := Paid(f, r).value;
    PaidIs(f, r);
    hide Result;
    ThereMeans(rules.block, rules.coinbase, ViewOf(f, p));
    if Top(r.items, 0) == o && x < EvmArith.WORD {
      LoadIs(r.memory, p.memory, SizeFor(MLOAD, r.items), o, x);
    }
  }

  lemma LoadIs(memory: seq<Byte>, wide: seq<Byte>, size: nat, o: nat, x: nat)
    requires o + 32 <= |memory| && memory[o..o + 32] == ToBytes32(x)[..32] && wide == Widened(memory, size) && x < EvmArith.WORD
    ensures o + 32 <= |wide| && FromBigEndian(wide[o..o + 32]) == x
  {
    assert wide[o..o + 32] == ToBytes32(x)[..32];
    hide ToBytes32, FromBigEndian, Widened;
    assert memory[..o] + ToBytes32(x)[..32] + memory[o + 32..] == memory;
    LoadStored(memory, o, x);
  }

  /** LOG appends one entry: the contract, its topics in order, and the bytes in memory; no account changes. */
  lemma LogTurn(rules: Rules, depth: nat, f: Frame, t: Turn, r: Machine)
    requires Turns(rules, depth, f, t, r) && IsLog(OpOf(f, t.at))
    ensures |t.at.items| >= (OpOf(f, t.at) - LOG0) as nat + 2
    ensures var n, d, w := (OpOf(f, t.at) - LOG0) as nat, t.at.items, t.at.world;
            && r.items == d[..|d| - n - 2] && r.pc == t.at.pc + 1 && r.world.accounts == w.accounts && r.world.refund == w.refund
            && |r.world.logs| == |w.logs| + 1 && r.world.logs[..|w.logs|] == w.logs
            && var l := r.world.logs[|w.logs|];
               && l.address == f.self && |l.topics| == n && (forall i | 0 <= i < n :: l.topics[i] == ToHash(Top(d, 2 + i)))
               && |l.data| == Top(d, 1) && forall i | 0 <= i < |l.data| :: l.data[i] == ByteIn(t.at.memory, Top(d, 0) + i)
  {
    hide Turns, Paid, CanAct, Cost, Topics, Widened, SizeFor, ByteIn;
    TurnIs(rules, depth, f, t, r);
    PaidIs(f, t.at);
    PaidQuietly(f, t.at);
    var p := Paid(f, t.at).value;
    LogInMemory(f, p);
    TopicsAre(t.at.items, Pops(OpOf(f, t.at)));
    PieceBytes(t.at.memory, SizeFor(OpOf(f, t.at), t.at.items), Top(t.at.items, 0), Top(t.at.items, 1));
  }

  lemma {:induction false} TopicsAre(d: seq<nat>, n: nat)
    requires 2 <= n <= |d|
    ensures |Topics(d, n)| == n - 2 && forall i | 0 <= i < n - 2 :: Topics(d, n)[i] == ToHash(Top(d, 2 + i))
    decreases n
  {
    if n > 2 {
      TopicsAre(d, n - 1);
    }
  }

  /** A piece of memory, byte by byte. */
  lemma PieceBytes(memory: seq<Byte>, size: nat, o: nat, l: nat)
    requires l > 0 ==> o + l <= |Widened(memory, size)|
    ensures var b := Piece(Widened(memory, size), o, l);
            |b| == l && forall i | 0 <= i < l :: b[i] == ByteIn(memory, o + i)
  {}

  /** A jump that goes on: to a JUMPDEST that is an instruction, or past a JUMPI whose condition is zero. */
  lemma JumpTurn(rules: Rules, depth: nat, f: Frame, t: Turn, r: Machine)
    requires Turns(rules, depth, f, t, r) && (OpOf(f, t.at) == JUMP || OpOf(f, t.at) == JUMPI)
    ensures var d, n := t.at.items, if OpOf(f, t.at) == JUMP then 1 else 2;
            && |d| >= n && r.items == d[..|d| - n] && r.world == t.at.world && r.memory == t.at.memory
            && (if OpOf(f, t.at) == JUMPI && Top(d, 1) == 0 then r.pc == t.at.pc + 1
                else r.pc == Top(d, 0) && r.pc < |f.code| && f.code[r.pc] == 0x5B && IsStart(f.code, r.pc))
  {
    hide Turns, Paid, CanAct, Cost, Widened, SizeFor, IsStart;
    TurnIs(rules, depth, f, t, r);
    PaidIs(f, t.at);
    PaidQuietly(f, t.at);
    NoMemory(f, t.at);
  }

  // ---------- the end of a run ----------

  /** RETURN gives the bytes its operands name, STOP and SUICIDE give none; the gas left is what the last opcode left. */
  lemma RunEnds(rules: Rules, depth: nat, t: Tree)
    requires LegalTree(rules, depth, t) && !Builtin(t.frame.codeAddr) && t.frame.code != [] && t.err.None?
    ensures t.turns != []
    ensures var f, m := t.frame, t.turns[|t.turns| - 1].at;
            var op, d := OpOf(f, m), m.items;
            && (op == STOP || op == SUICIDE ==> t.ret == [])
            && (op == STOP || op == RETURN ==> t.end == m.world)
            && (op == STOP || op == RETURN || op == SUICIDE)
            && |d| >= Pops(op) && t.left == m.gas - Cost(f, m)
            && (op == RETURN ==>
                  |t.ret| == Top(d, 1) && forall i | 0 <= i < |t.ret| :: t.ret[i] == ByteIn(m.memory, Top(d, 0) + i))
            && (op == SUICIDE ==>
                  var p := Paid(f, m).value.world; p.accounts == m.world.accounts && t.end == Suicide(p, f.self, ToAddr(Top(d, 0))))
  {
    hide LegalTree, Chained, Paid, CanAct, Cost, Target, Known, Suicide, ByteIn, Widened, SizeFor, Pops;
    TreeChain(rules, depth, t);
    var f, m := t.frame, t.turns[|t.turns| - 1].at;
    PaidIs(f, m);
    CanActCovers(f, Paid(f, m).value);
    if OpOf(f, m) != SUICIDE {
      PaidQuietly(f, m);
    }
    if OpOf(f, m) == RETURN {
      var d := m.items;
      assert Ranges(RETURN, d)[0] == Range(Top(d, 0), Top(d, 1));
      PieceBytes(m.memory, SizeFor(RETURN, d), Top(d, 0), Top(d, 1));
    }
  }

  /** A run that ends well: what it returns is the part of memory that the RETURN it reached names. */
  ghost predicate Returned(t: Tree)
  {
    && t.turns != []
    && var m := t.turns[|t.turns| - 1].at;
       var op, d := OpOf(t.frame, m), m.items;
       && (op == STOP || op == RETURN || op == SUICIDE)
       && (op != RETURN ==> t.ret == []) && (op != SUICIDE ==> t.end == m.world)
       && (op == RETURN ==>
             |d| >= 2 && |t.ret| == Top(d, 1) && forall i | 0 <= i < |t.ret| :: t.ret[i] == ByteIn(m.memory, Top(d, 0) + i))
  }

  lemma RunReturns(rules: Rules, depth: nat, t: Tree)
    requires LegalTree(rules, depth, t)
    ensures !Builtin(t.frame.codeAddr) && t.frame.code != [] && t.err.None? ==> Returned(t)
  {
    hide LegalTree, Paid, Cost, Suicide, ByteIn;
    if !Builtin(t.frame.codeAddr) && t.frame.code != [] && t.err.None? {
      RunEnds(rules, depth, t);
    }
  }

  // ---------- calls ----------

  /** A call leaves one item in place of seven: whether it succeeded; the gas that came back is added to the caller's. */
  lemma CallTurn(rules: Rules, depth: nat, f: Frame, t: Turn, r: Machine)
    requires Turns(rules, depth, f, t, r) && Calls(OpOf(f, t.at))
    ensures |t.at.items| >= 7 && t.inner.Some? && LegalNest(rules, depth, t.at.world, t.inner.value)
    ensures var d, e, o := t.at.items, t.inner.value.entry, t.inner.value.out;
            && e.caller == f.self && e.codeAddr == Some(ToAddr(Top(d, 1))) && e.code == Code(t.at.world, ToAddr(Top(d, 1)))
            && e.address == Some(if OpOf(f, t.at) == CALL then ToAddr(Top(d, 1)) else f.self)
            && e.value == ToHash(Top(d, 2)) && e.gas == Top(d, 0) + (if e.value > 0 then 2300 else 0) && |e.input| == Top(d, 4)
            && (forall i | 0 <= i < |e.input| :: e.input[i] == ByteIn(t.at.memory, Top(d, 3) + i))
            && r.items == d[..|d| - 7] + [if o.err.None? then 1 else 0] && r.world == o.world
            && r.gas == t.at.gas - Cost(f, t.at) + o.back && r.pc == t.at.pc + 1
  {
    hide Paid, CanAct, Cost, LegalNest, ByteIn, Widened, SizeFor;
    PaidIs(f, t.at);
    PaidQuietly(f, t.at);
    var p, d := Paid(f, t.at).value, t.at.items;
    CanActCovers(f, p);
    assert Ranges(OpOf(f, t.at), d)[0] == Range(Top(d, 3), Top(d, 4));
    PieceBytes(t.at.memory, SizeFor(OpOf(f, t.at), d), Top(d, 3), Top(d, 4));
  }

  /** The result of a call is in memory from the offset named on, as far as it fits the size named; no other byte changes. */
  lemma CallDelivers(rules: Rules, depth: nat, f: Frame, t: Turn, r: Machine)
    requires Turns(rules, depth, f, t, r) && Calls(OpOf(f, t.at))
    ensures |t.at.items| >= 7 && t.inner.Some?
    ensures var d, o := t.at.items, t.inner.value.out;
            var k := if o.err.Some? then 0 else if |o.ret| < Top(d, 6) then |o.ret| else Top(d, 6);
            forall i: nat :: ByteIn(r.memory, i) ==
              if Top(d, 5) <= i < Top(d, 5) + k then o.ret[i - Top(d, 5)] else ByteIn(t.at.memory, i)
  {
    hide Turns, ByteIn, Widened, SizeFor, Delivered;
    CallMemory(rules, depth, f, t, r);
    var d, o, size := t.at.items, t.inner.value.out, SizeFor(OpOf(f, t.at), t.at.items);
    DeliveredBytes(Widened(t.at.memory, size), Top(d, 5), Top(d, 6), o.ret);
    forall i: nat ensures ByteIn(Widened(t.at.memory, size), i) == ByteIn(t.at.memory, i) {
      WidenedBytes(t.at.memory, size, i);
    }
  }

  lemma CallMemory(rules: Rules, depth: nat, f: Frame, t: Turn, r: Machine)
    requires Turns(rules, depth, f, t, r) && Calls(OpOf(f, t.at))
    ensures |t.at.items| >= 7 && t.inner.Some?
    ensures var d, o := t.at.items, t.inner.value.out;
            var m := Widened(t.at.memory, SizeFor(OpOf(f, t.at), d));
            && (Top(d, 6) > 0 ==> Top(d, 5) + Top(d, 6) <= |m|)
            && r.memory == if o.err.None? then Delivered(m, Top(d, 5), Top(d, 6), o.ret) else m
  {
    hide Paid, CanAct, Cost, LegalNest, Widened, SizeFor, Delivered, CallEntry;
    PaidIs(f, t.at);
    CanActCovers(f, Paid(f, t.at).value);
    assert Ranges(OpOf(f, t.at), t.at.items)[1] == Range(Top(t.at.items, 5), Top(t.at.items, 6));
  }

  lemma DeliveredBytes(memory: seq<Byte>, offset: nat, size: nat, ret: seq<Byte>)
    requires size > 0 ==> offset + size <= |memory|
    ensures var k := if |ret| < size then |ret| else size;
            forall i: nat :: ByteIn(Delivered(memory, offset, size, ret), i) ==
              if offset <= i < offset + k then ret[i - offset] else ByteIn(memory, i)
  {}

  /** An account without code is only paid: the amount moves from the caller to the account entered, and nothing else. */
  lemma PlainNest(rules: Rules, depth: nat, w: State, n: Nest, a: Addr)
    requires LegalNest(rules, depth, w, n) && n.entry.address.Some? && n.entry.code == [] && !Builtin(n.entry.codeAddr)
    ensures var e, o := n.entry, n.out;
            var moved := if o.err.None? then e.value else 0;
            && Balance(o.world, a) == Balance(w, a) - (if a == e.caller then moved else 0)
                                                    + (if a == e.address.value then moved else 0)
            && (o.err.None? <==> depth <= 1024 && Balance(w, e.caller) >= e.value) && SameInside(w, o.world, a)
            && o.back == e.gas && o.ret == [] && o.world.logs == w.logs && o.world.refund == w.refund
  {
    NestFacts(rules, depth, w, n);
    hide Transfer, Entered, Balance, SameInside, Nonce, Code;
    var e, o := n.entry, n.out;
    if o.err.None? {
      BegunIs(w, e.caller, o.addr, e.value, a);
    } else {
      SameItself(w, a);
    }
  }

  lemma SameItself(w: State, a: Addr)
    ensures SameInside(w, w, a)
  {}

  lemma BegunIs(w: State, caller: Addr, addr: Addr, v: nat, a: Addr)
    requires caller in w.accounts && Balance(w, caller) >= v
    ensures var r := Transfer(Entered(w, caller, false, addr), caller, addr, v);
            && Balance(r, a) == Balance(w, a) - (if a == caller then v else 0) + (if a == addr then v else 0)
            && SameInside(w, r, a) && r.refund == w.refund && r.logs == w.logs
  {
    BegunLaw(w, caller, false, addr, v, a);
  }

  /** The amount moves from one account to the other, possibly the same, and no other balance changes. */
  ghost predicate PaysOnly(w: State, r: State, from: Addr, to: Addr, v: nat)
  {
    forall a :: Balance(r, a) == Balance(w, a) - (if a == from then v else 0) + (if a == to then v else 0)
  }

  /** What a call of an account can do to the caller and to the balances. */
  lemma CallLaw(rules: Rules, depth: nat, w: State, n: Nest)
    requires LegalNest(rules, depth, w, n) && n.entry.address.Some?
    ensures n.entry.code == [] && !Builtin(n.entry.codeAddr) ==>
      && PaysOnly(w, n.out.world, n.entry.caller, n.entry.address.value, if n.out.err.None? then n.entry.value else 0)
      && (n.out.err.None? <==> depth <= 1024 && Balance(w, n.entry.caller) >= n.entry.value)
    ensures NeverIn(n, n.entry.caller) ==> SameCode(w, n.out.world, n.entry.caller)
  {
    hide LegalNest, Grown, NeverIn, Nonce, SameInside;
    NestKeeps(rules, depth, w, n, n.entry.caller);
    if n.entry.code == [] && !Builtin(n.entry.codeAddr) {
      forall a ensures Balance(n.out.world, a) == Balance(w, a)
                         - (if a == n.entry.caller && n.out.err.None? then n.entry.value else 0)
                         + (if a == n.entry.address.value && n.out.err.None? then n.entry.value else 0) {
        PlainNest(rules, depth, w, n, a);
      }
      PlainNest(rules, depth, w, n, 0);
    }
  }

  /** CALL to an account without code pays it; CALLCODE leaves every balance, for it enters the caller itself. */
  lemma CallPays(rules: Rules, depth: nat, f: Frame, t: Turn, r: Machine, a: Addr)
    requires Turns(rules, depth, f, t, r) && Calls(OpOf(f, t.at))
    ensures |t.at.items| >= 7 && |r.items| > 0
    ensures var d, w := t.at.items, t.at.world;
            var to, v := ToAddr(Top(d, 1)), ToHash(Top(d, 2));
            var ok := depth <= 1024 && Balance(w, f.self) >= v;
            Code(w, to) == [] && !IsPrecompiled(to) ==>
              && Top(r.items, 0) == (if ok then 1 else 0)
              && Balance(r.world, a) == Balance(w, a) - (if ok && OpOf(f, t.at) == CALL && a == f.self then v else 0)
                                                      + (if ok && OpOf(f, t.at) == CALL && a == to then v else 0)
              && SameInside(w, r.world, a) && r.world.logs == w.logs
  {
    hide Turns, LegalNest, Cost, Balance, Code, SameInside, ByteIn;
    CallTurn(rules, depth, f, t, r);
    var d := t.at.items;
    if Code(t.at.world, ToAddr(Top(d, 1))) == [] && !IsPrecompiled(ToAddr(Top(d, 1))) {
      PlainNest(rules, depth, t.at.world, t.inner.value, a);
    }
  }

  /** CREATE pushes the new address and stores there the code returned, if the gas that came back pays for it. */
  lemma CreateTurn(rules: Rules, depth: nat, f: Frame, t: Turn, r: Machine)
    requires Turns(rules, depth, f, t, r) && OpOf(f, t.at) == CREATE
    ensures |t.at.items| >= 3 && t.inner.Some? && LegalNest(rules, depth, t.at.world, t.inner.value)
    ensures var d, e, o := t.at.items, t.inner.value.entry, t.inner.value.out;
            && e.caller == f.self && e.address.None? && e.codeAddr.None? && e.value == Top(d, 0) && e.input == []
            && |e.code| == Top(d, 2) && (forall i | 0 <= i < |e.code| :: e.code[i] == ByteIn(t.at.memory, Top(d, 1) + i))
            && o.addr == rules.createAddress(f.self, Nonce(t.at.world, f.self))
            && r.items == d[..|d| - 3] + [if o.err.None? then o.addr else 0] && r.pc == t.at.pc + 1
            && (o.err.None? && 200 * |o.ret| <= o.back ==>
                  r.world == SetCode(o.world, o.addr, o.ret) && Code(r.world, o.addr) == o.ret && r.gas == o.back - 200 * |o.ret|)
            && (o.err.Some? || 200 * |o.ret| > o.back ==> r.world == o.world && r.gas == o.back)
  {
    hide Paid, CanAct, Cost, LegalNest, ByteIn, Widened, SizeFor, SetCode, Nonce, Code;
    PaidIs(f, t.at);
    PaidQuietly(f, t.at);
    var p, d := Paid(f, t.at).value, t.at.items;
    CanActCovers(f, p);
    assert Ranges(CREATE, d)[0] == Range(Top(d, 1), Top(d, 2));
    PieceBytes(t.at.memory, SizeFor(CREATE, d), Top(d, 1), Top(d, 2));
    var o := t.inner.value.out;
    NestFacts(rules, depth, t.at.world, t.inner.value);
    SetCodeLaw(o.world, o.addr, o.ret, o.addr);
  }

  // ---------- whole runs ----------

  /** The state after turn i of a chain that ends in r. */
  function After(turns: seq<Turn>, r: Machine, i: nat): (m: Machine)
    requires i < |turns|
  {
    if i + 1 < |turns| then turns[i + 1].at else r
  }

  lemma {:induction false} ChainAt(rules: Rules, depth: nat, f: Frame, turns: seq<Turn>, first: Machine, r: Machine, i: nat)
    requires Chained(rules, depth, f, turns, first, r) && i < |turns|
    ensures Turns(rules, depth, f, turns[i], After(turns, r, i)) && turns[0].at == first
    decreases |turns|
  {
    hide Turns;
    var n := |turns| - 1;
    if n > 0 {
      ChainAt(rules, depth, f, turns[..n], first, turns[n].at, if i < n then i else 0);
    }
  }

  /** The account is not entered, neither here nor further down. */
  ghost predicate NeverIn(n: Nest, a: Addr)
    decreases n
  {
    n.out.addr != a && (n.run.Some? ==> NeverInTurns(n.run.value.turns, a))
  }

  ghost predicate NeverInside(t: Turn, a: Addr)
    decreases t
  {
    t.inner.Some? ==> NeverIn(t.inner.value, a)
  }

  ghost predicate NeverInTurns(turns: seq<Turn>, a: Addr)
    decreases turns
  {
    forall i | 0 <= i < |turns| :: NeverInside(turns[i], a)
  }

  /** The nonce of an account after an execution: each creation it makes adds one, and being created sets it to zero. */
  ghost function Grown(n: Nest, a: Addr, k: nat): (r: nat)
    decreases n
  {
    var makes := if n.entry.address.None? && n.entry.caller == a then 1 else 0;
    if n.run.None? then k
    else if n.out.err.Some? then k + makes
    else GrownIn(n.run.value.turns, |n.run.value.turns|, a, if n.entry.address.None? && n.out.addr == a then 0 else k + makes)
  }

  ghost function GrownIn(turns: seq<Turn>, j: nat, a: Addr, k: nat): (r: nat)
    requires j <= |turns|
    decreases turns, j
  {
    if j == 0 then k else GrownBy(turns[j - 1], a, GrownIn(turns, j - 1, a, k))
  }

  ghost function GrownBy(t: Turn, a: Addr, k: nat): (r: nat)
    decreases t
  {
    if t.inner.Some? then Grown(t.inner.value, a, k) else k
  }

  lemma {:induction false} GrownInPrefix(turns: seq<Turn>, n: nat, j: nat, a: Addr, k: nat)
    requires j <= n <= |turns|
    ensures GrownIn(turns[..n], j, a, k) == GrownIn(turns, j, a, k)
    decreases j
  {
    hide Grown;
    if j > 0 {
      GrownInPrefix(turns, n, j - 1, a, k);
    }
  }

  /** Code and storage of an account stay. */
  ghost predicate SameCode(w: State, r: State, a: Addr)
  {
    Code(r, a) == Code(w, a) && SameStorage(w, r, a)
  }

  /** What a turn that calls nobody can change: storage, and only that of the account that runs. */
  lemma OwnTurn(rules: Rules, depth: nat, f: Frame, t: Turn, r: Machine, a: Addr)
    requires Turns(rules, depth, f, t, r) && !Calls(OpOf(f, t.at)) && OpOf(f, t.at) != CREATE
    ensures t.inner.None? && Nonce(r.world, a) == Nonce(t.at.world, a) && Code(r.world, a) == Code(t.at.world, a)
    ensures a != f.self || OpOf(f, t.at) != SSTORE ==> SameStorage(t.at.world, r.world, a)
  {
    if OpOf(f, t.at) == SSTORE {
      hide Turns, Act, Paid, Cost, Storage, Nonce, Code;
      TurnIs(rules, depth, f, t, r);
      StoreTurn(rules, depth, f, t, r);
    } else {
      OtherTurn(rules, depth, f, t, r);
      hide Turns, Act, Paid, Cost;
      TurnIs(rules, depth, f, t, r);
    }
  }

  lemma OtherTurn(rules: Rules, depth: nat, f: Frame, t: Turn, r: Machine)
    requires Turns(rules, depth, f, t, r) && !Calls(OpOf(f, t.at)) && OpOf(f, t.at) != CREATE && OpOf(f, t.at) != SSTORE
    ensures r.world.accounts == t.at.world.accounts
  {
    hide Turns, Paid, CanAct, Result, ViewOf, Shuffled, Written, LogOf, Target, Cost, Widened, SizeFor, RefundFor, NextPc,
         PureReq, Pops;
    TurnIs(rules, depth, f, t, r);
    PaidIs(f, t.at);
  }

  /** A turn changes the nonces as its call does, and leaves an account alone that it neither runs as nor enters. */
  lemma {:induction false} TurnKeeps(rules: Rules, depth: nat, f: Frame, t: Turn, r: Machine, a: Addr)
    requires Turns(rules, depth, f, t, r)
    ensures Nonce(r.world, a) == GrownBy(t, a, Nonce(t.at.world, a))
    ensures f.self != a && NeverInside(t, a) ==> SameCode(t.at.world, r.world, a)
    decreases t, 1
  {
    hide Turns, LegalNest, Nonce, Code, Cost, ByteIn, Storage, NeverIn, Grown;
    if Calls(OpOf(f, t.at)) {
      CallTurn(rules, depth, f, t, r);
      NestKeeps(rules, depth, t.at.world, t.inner.value, a);
    } else if OpOf(f, t.at) == CREATE {
      CreateTurn(rules, depth, f, t, r);
      NestKeeps(rules, depth, t.at.world, t.inner.value, a);
      var o := t.inner.value.out;
      SetCodeLaw(o.world, o.addr, o.ret, a);
      NeverInAddr(t.inner.value, a);
    } else {
      OwnTurn(rules, depth, f, t, r, a);
    }
  }

  lemma NeverInAddr(n: Nest, a: Addr)
    ensures NeverIn(n, a) ==> n.out.addr != a
  {}

  lemma {:induction false} ChainKeeps(rules: Rules, depth: nat, f: Frame, turns: seq<Turn>, first: Machine, r: Machine, a: Addr)
    requires Chained(rules, depth, f, turns, first, r)
    ensures Nonce(r.world, a) == GrownIn(turns, |turns|, a, Nonce(first.world, a))
    ensures f.self != a && NeverInTurns(turns, a) ==> SameCode(first.world, r.world, a)
    decreases turns
  {
    hide Turns, Nonce, Code, Storage, NeverIn, Grown;
    if turns != [] {
      var n := |turns| - 1;
      ChainKeeps(rules, depth, f, turns[..n], first, turns[n].at, a);
      TurnKeeps(rules, depth, f, turns[n], r, a);
      GrownInPrefix(turns, n, n, a, Nonce(first.world, a));
    }
  }

  /**
   What an execution leaves of every account: the nonce counts its creations, and code and storage change only
   where the account is entered, by code that runs as it.
   */
  lemma {:induction false} NestKeeps(rules: Rules, depth: nat, w: State, n: Nest, a: Addr)
    requires LegalNest(rules, depth, w, n)
    ensures Nonce(n.out.world, a) == Grown(n, a, Nonce(w, a))
    ensures NeverIn(n, a) ==> SameCode(w, n.out.world, a)
    decreases n, 0
  {
    var e, o := n.entry, n.out;
    var creates := e.address.None?;
    hide LegalTree, Transfer, Entered, Bumped, Nonce, Code, Storage, Balance;
    BumpedLaw(w, e.caller, creates, a);
    if n.run.Some? && o.err.None? {
      var t := n.run.value;
      BegunLaw(w, e.caller, creates, o.addr, e.value, a);
      TreeKeeps(rules, depth + 1, t, a);
    }
  }

  lemma {:induction false} TreeKeeps(rules: Rules, depth: nat, t: Tree, a: Addr)
    requires LegalTree(rules, depth, t) && t.err.None?
    ensures Nonce(t.end, a) == GrownIn(t.turns, |t.turns|, a, Nonce(t.start, a))
    ensures t.frame.self != a && NeverInTurns(t.turns, a) ==> SameCode(t.start, t.end, a)
    decreases t, 0
  {
    var f := t.frame;
    if Builtin(f.codeAddr) || f.code == [] {
      NoTurns(rules, depth, t);
    } else {
      hide LegalTree, Chained, Suicide, Nonce, Code, Storage, NeverIn, Grown, Cost, ByteIn, Paid, Ends;
      RunEnds(rules, depth, t);
      TreeChain(rules, depth, t);
      var n := |t.turns| - 1;
      var m := t.turns[n].at;
      ChainKeeps(rules, depth, f, t.turns[..n], Begin(t.gas, t.start), m, a);
      GrownInPrefix(t.turns, n, n, a, Nonce(t.start, a));
      if OpOf(f, m) == SUICIDE {
        SuicideLaw(Paid(f, m).value.world, f.self, ToAddr(Top(m.items, 0)), a);
        SameInsideOf(m.world, Paid(f, m).value.world, a);
      }
    }
  }

  lemma NoTurns(rules: Rules, depth: nat, t: Tree)
    requires LegalTree(rules, depth, t) && (Builtin(t.frame.codeAddr) || t.frame.code == [])
    ensures t.turns == [] && t.end == t.start
  {}

  lemma TreeChain(rules: Rules, depth: nat, t: Tree)
    requires LegalTree(rules, depth, t) && !Builtin(t.frame.codeAddr) && t.frame.code != []
    ensures t.turns != []
    ensures var n := |t.turns| - 1;
            && Chained(rules, depth, t.frame, t.turns[..n], Begin(t.gas, t.start), t.turns[n].at) && t.turns[n].inner.None?
            && Ends(t.frame, t.turns[n].at, t.ret, t.err, t.left, t.end)
  {
    hide Chained, Ends;
  }

  lemma SameInsideOf(w: State, r: State, a: Addr)
    requires r.accounts == w.accounts
    ensures SameInside(w, r, a)
  {}

  /** No contract can be created at an account's own address. */
  ghost predicate Unborn(rules: Rules, a: Addr)
  {
    forall x, k :: rules.createAddress(x, k) != a
  }

  lemma {:induction false} GrownUp(rules: Rules, depth: nat, w: State, n: Nest, a: Addr, k: nat)
    requires LegalNest(rules, depth, w, n) && Unborn(rules, a)
    ensures Grown(n, a, k) >= k + if n.run.Some? && n.entry.address.None? && n.entry.caller == a then 1 else 0
    decreases n, 0
  {
    hide LegalTree, Transfer, Entered, Bumped, Nonce, Balance;
    if n.run.Some? && n.out.err.None? {
      var t := n.run.value;
      TreeUp(rules, depth + 1, t, a, k + if n.entry.address.None? && n.entry.caller == a then 1 else 0);
    }
  }

  lemma {:induction false} TreeUp(rules: Rules, depth: nat, t: Tree, a: Addr, k: nat)
    requires LegalTree(rules, depth, t) && Unborn(rules, a)
    ensures GrownIn(t.turns, |t.turns|, a, k) >= k
    decreases t, 0
  {
    hide LegalTree, Ends, Chained, Grown;
    if Builtin(t.frame.codeAddr) || t.frame.code == [] {
      NoTurns(rules, depth, t);
    } else {
      TreeChain(rules, depth, t);
      var n := |t.turns| - 1;
      ChainUp(rules, depth, t.frame, t.turns[..n], Begin(t.gas, t.start), t.turns[n].at, a, k);
      GrownInPrefix(t.turns, n, n, a, k);
    }
  }

  lemma {:induction false} ChainUp(rules: Rules, depth: nat, f: Frame, turns: seq<Turn>, first: Machine, r: Machine, a: Addr,
                                   k: nat)
    requires Chained(rules, depth, f, turns, first, r) && Unborn(rules, a)
    ensures GrownIn(turns, |turns|, a, k) >= k
    decreases turns
  {
    hide Turns, Grown;
    if turns != [] {
      var n := |turns| - 1;
      ChainUp(rules, depth, f, turns[..n], first, turns[n].at, a, k);
      GrownInPrefix(turns, n, n, a, k);
      TurnUp(rules, depth, f, turns[n], r, a, GrownIn(turns, n, a, k));
    }
  }

  lemma {:induction false} TurnUp(rules: Rules, depth: nat, f: Frame, t: Turn, r: Machine, a: Addr, k: nat)
    requires Turns(rules, depth, f, t, r) && Unborn(rules, a)
    ensures GrownBy(t, a, k) >= k
    decreases t, 1
  {
    hide Grown;
    if t.inner.Some? {
      InnerLegal(rules, depth, f, t, r);
      GrownUp(rules, depth, t.at.world, t.inner.value, a, k);
    }
  }

  lemma InnerLegal(rules: Rules, depth: nat, f: Frame, t: Turn, r: Machine)
    requires Turns(rules, depth, f, t, r) && t.inner.Some?
    ensures Calls(OpOf(f, t.at)) || OpOf(f, t.at) == CREATE
    ensures LegalNest(rules, depth, t.at.world, t.inner.value)
  {
    TurnIs(rules, depth, f, t, r);
    hide Turns, LegalNest, Act, Paid, CanAct, Cost, Nonce, Code, ByteIn;
    if Calls(OpOf(f, t.at)) {
      CallTurn(rules, depth, f, t, r);
    } else {
      CreateTurn(rules, depth, f, t, r);
    }
  }

  /** The nonce of an account at whose address nothing is created never falls, and rises when the account creates. */
  lemma NonceNeverFalls(rules: Rules, depth: nat, w: State, n: Nest, a: Addr)
    requires LegalNest(rules, depth, w, n) && Unborn(rules, a)
    ensures Nonce(n.out.world, a) >= Nonce(w, a)
    ensures n.entry.address.None? && n.entry.caller == a && n.run.Some? ==> Nonce(n.out.world, a) > Nonce(w, a)
  {
    hide LegalNest, Grown, Nonce;
    NestKeeps(rules, depth, w, n, a);
    GrownUp(rules, depth, w, n, a, Nonce(w, a));
  }

  /** A turn that does not write to a slot of the account that runs, neither itself nor through one it calls. */
  ghost predicate Leaves(f: Frame, t: Turn, k: nat)
  {
    && NeverInside(t, f.self)
    && (OpOf(f, t.at) == SSTORE ==> |t.at.items| > 0 && ToHash(Top(t.at.items, 0)) != k)
  }

  lemma LeavesSlot(rules: Rules, depth: nat, f: Frame, t: Turn, r: Machine, k: nat)
    requires Turns(rules, depth, f, t, r) && Leaves(f, t, k)
    ensures Storage(r.world, f.self, k) == Storage(t.at.world, f.self, k)
  {
    hide Turns, LegalNest, Nonce, Code, Cost, ByteIn, Storage, NeverIn, Grown;
    if t.inner.Some? {
      InnerLegal(rules, depth, f, t, r);
      NestKeeps(rules, depth, t.at.world, t.inner.value, f.self);
      var o := t.inner.value.out;
      if Calls(OpOf(f, t.at)) {
        CallTurn(rules, depth, f, t, r);
      } else {
        CreateTurn(rules, depth, f, t, r);
        SetCodeLaw(o.world, o.addr, o.ret, f.self);
      }
    } else {
      CallsInside(rules, depth, f, t, r);
      if OpOf(f, t.at) == SSTORE {
        StoreTurn(rules, depth, f, t, r);
      } else {
        OwnTurn(rules, depth, f, t, r, f.self);
      }
    }
  }

  lemma CallsInside(rules: Rules, depth: nat, f: Frame, t: Turn, r: Machine)
    requires Turns(rules, depth, f, t, r) && t.inner.None?
    ensures !Calls(OpOf(f, t.at)) && OpOf(f, t.at) != CREATE
  {
    hide LegalNest, Act, Paid, CanAct;
  }

  lemma {:induction false} SlotStays(rules: Rules, depth: nat, f: Frame, turns: seq<Turn>, first: Machine, r: Machine,
                                     i: nat, j: nat, k: nat)
    requires Chained(rules, depth, f, turns, first, r) && i <= j < |turns|
    requires forall m | i <= m < j :: Leaves(f, turns[m], k)
    ensures Storage(turns[j].at.world, f.self, k) == Storage(turns[i].at.world, f.self, k)
    decreases j
  {
    hide Chained, Turns, Storage, Leaves;
    if i < j {
      SlotStays(rules, depth, f, turns, first, r, i, j - 1, k);
      ChainAt(rules, depth, f, turns, first, r, j - 1);
      LeavesSlot(rules, depth, f, turns[j - 1], turns[j].at, k);
    }
  }

  /**
   What was stored is loaded: an SLOAD pushes the value of the last SSTORE to that slot, whatever happens in
   between as long as nothing writes to the slot and the account is not entered again.
   */
  lemma SlotHeld(rules: Rules, depth: nat, f: Frame, turns: seq<Turn>, first: Machine, r: Machine, i: nat, j: nat)
    requires Chained(rules, depth, f, turns, first, r) && i < j < |turns|
    requires OpOf(f, turns[i].at) == SSTORE && OpOf(f, turns[j].at) == SLOAD
    requires |turns[i].at.items| >= 2 && |turns[j].at.items| >= 1
    requires ToHash(Top(turns[j].at.items, 0)) == ToHash(Top(turns[i].at.items, 0))
    requires forall m | i < m < j :: Leaves(f, turns[m], ToHash(Top(turns[i].at.items, 0)))
    ensures var d := turns[j].at.items;
            After(turns, r, j).items == d[..|d| - 1] + [ToHash(Top(turns[i].at.items, 1))]
  {
    hide Chained, Turns, Storage, Leaves, OnlySlot;
    var k := ToHash(Top(turns[i].at.items, 0));
    ChainAt(rules, depth, f, turns, first, r, i);
    StoreTurn(rules, depth, f, turns[i], turns[i + 1].at);
    SlotStays(rules, depth, f, turns, first, r, i + 1, j, k);
    ChainAt(rules, depth, f, turns, first, r, j);
    LoadTurn(rules, depth, f, turns[j], After(turns, r, j));
  }
}
