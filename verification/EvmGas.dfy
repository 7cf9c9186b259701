/** What an opcode needs: stack items, memory ranges and gas (Appendix G of the Yellow Paper). */
module EvmGas {
  import opened Bytes
  import opened World
  import opened EvmCode
  import opened EvmMachine
  import EvmArith

  datatype VmError = OutOfGas | Underflow | StackLimit | InvalidJump | InvalidOpcode | DepthError | ValueTransfer

  const TWO160: nat := 0x1_0000_0000_0000_0000_0000_0000_0000_0000_0000_0000

  function ToAddr(x: nat): (a: Addr) { x % TWO160 }

  function ToHash(x: nat): (h: nat) { x % EvmArith.WORD }

  /** How many items an opcode takes from the stack or looks at. */
  function Pops(op: Byte): (n: nat)
    ensures op == MLOAD || op == POP || op == JUMP || op == SUICIDE ==> n == 1
    ensures op == MSTORE || op == MSTORE8 || op == SSTORE || op == JUMPI ==> n == 2
    ensures op == SHA3 || op == EXP || op == RETURN ==> n == 2
    ensures op == CALLDATACOPY || op == CODECOPY || op == CREATE ==> n == 3
    ensures op == EXTCODECOPY ==> n == 4
    ensures op == CALL || op == CALLCODE ==> n == 7
    ensures IsLog(op) ==> n == (op - LOG0) as nat + 2
  {
    if IsSwap(op) then (op - SWAP1) as nat + 2
    else if IsDup(op) then (op - DUP1) as nat + 1
    else if IsLog(op) then (op - LOG0) as nat + 2
    else if TableReq(op).Some? then TableReq(op).value.pop
    else 0
  }

  /** The stack holds enough items and the backing slice has room for what is pushed. */
  predicate Enough(op: Byte, size: nat, ptr: nat)
  {
    && ptr >= Pops(op)
    && var r := TableReq(op);
       r.Some? && r.value.push > 0 ==> size + r.value.push <= 1025 + r.value.pop
  }

  /** Which of the two failed: the items the table names, then the room, then the items of DUP, SWAP and LOG. */
  function StackError(op: Byte, size: nat, ptr: nat): (e: VmError)
    ensures e == Underflow || e == StackLimit
  {
    var r := TableReq(op);
    if r.Some? && ptr >= r.value.pop && r.value.push > 0 && size + r.value.push > 1025 + r.value.pop then StackLimit
    else Underflow
  }

  /** Opcodes that push an item and pop none: PUSH, DUP and the rows of the table without operands. */
  predicate PushesOnly(op: Byte)
  {
    var r := TableReq(op);
    r.Some? && r.value.pop == 0 && r.value.push > 0
  }

  /**
   The limit is compared with the backing slice, not with the stack. That makes a difference exactly for an
   opcode that only pushes, when the slice is full and the stack is not.
   */
  lemma SliceLimitIff(op: Byte, size: nat, ptr: nat)
    requires ptr <= size <= 1025 && ptr >= Pops(op)
    ensures (Enough(op, size, ptr) <==> Enough(op, ptr, ptr)) <==> !(PushesOnly(op) && size == 1025 && ptr < 1025)
  {
    PushAtMostOne(op);
    hide TableReq, Pops;
  }

  lemma PushAtMostOne(op: Byte)
    ensures TableReq(op).Some? ==> TableReq(op).value.push <= 1
  {}

  /** PUSH1 is refused on an empty stack whose slice is full. */
  lemma RefusedWhenEmpty()
    ensures PushesOnly(PUSH1) && !Enough(PUSH1, 1025, 0) && Enough(PUSH1, 0, 0)
  {}

  /** The item the table lets CALLDATACOPY push is never the cause of a refusal. */
  lemma CallDataCopyFits(size: nat, ptr: nat)
    requires 3 <= ptr <= size <= 1025
    ensures Enough(CALLDATACOPY, size, ptr)
  {}

  lemma EnoughPops(op: Byte, size: nat, ptr: nat)
    requires Enough(op, size, ptr)
    ensures ptr >= Pops(op)
  {}

  /** Item i from the top. */
  function Top(d: seq<nat>, i: nat): (x: nat)
    requires i < |d|
  {
    d[|d| - 1 - i]
  }

  datatype Range = Range(offset: nat, size: nat)

  /** The memory an opcode reads or writes. */
  function Ranges(op: Byte, d: seq<nat>): (r: seq<Range>)
    requires |d| >= Pops(op)
  {
    if op == MLOAD || op == MSTORE then [Range(Top(d, 0), 32)]
    else if op == MSTORE8 then [Range(Top(d, 0), 1)]
    else if op == SHA3 || op == RETURN || IsLog(op) then [Range(Top(d, 0), Top(d, 1))]
    else if op == CALLDATACOPY || op == CODECOPY then [Range(Top(d, 0), Top(d, 2))]
    else if op == EXTCODECOPY then [Range(Top(d, 1), Top(d, 3))]
    else if op == CREATE then [Range(Top(d, 1), Top(d, 2))]
    else if op == CALL || op == CALLCODE then [Range(Top(d, 3), Top(d, 4)), Range(Top(d, 5), Top(d, 6))]
    else []
  }

  predicate Covers(size: nat, ranges: seq<Range>)
  {
    forall r <- ranges :: r.size > 0 ==> r.offset + r.size <= size
  }

  /** n is the least size that covers the ranges. */
  ghost predicate LeastCover(n: nat, ranges: seq<Range>)
  {
    Covers(n, ranges) && forall m: nat | Covers(m, ranges) :: n <= m
  }

  lemma LeastCoverOne(r: Range)
    ensures LeastCover(CalcMemSize(r.offset, r.size), [r])
  {
    var n := CalcMemSize(r.offset, r.size);
    forall m: nat | Covers(m, [r]) ensures n <= m {
      assert r in [r];
    }
  }

  lemma LeastCoverTwo(r: Range, s: Range)
    ensures var x, y := CalcMemSize(r.offset, r.size), CalcMemSize(s.offset, s.size);
            LeastCover(if x > y then x else y, [s, r])
  {
    var x, y := CalcMemSize(r.offset, r.size), CalcMemSize(s.offset, s.size);
    forall m: nat | Covers(m, [s, r]) ensures x <= m && y <= m {
      assert r in [s, r] && s in [s, r];
    }
  }

  /** The least whole number of words that covers the ranges. */
  lemma LeastWords(need: nat, ranges: seq<Range>)
    requires LeastCover(need, ranges)
    ensures Covers(32 * ToWords(need), ranges)
    ensures forall m: nat | m % 32 == 0 && Covers(m, ranges) :: 32 * ToWords(need) <= m
  {
    CoversMore(need, 32 * ToWords(need), ranges);
  }

  lemma CoversMore(a: nat, b: nat, ranges: seq<Range>)
    requires a <= b
    ensures Covers(a, ranges) ==> Covers(b, ranges)
  {}

  function CalcMemSize(off: nat, l: nat): (n: nat)
  {
    if l == 0 then 0 else off + l
  }

  /** The price of an opcode apart from memory growth; slot is the storage slot an SSTORE overwrites. */
  function Price(op: Byte, d: seq<nat>, found: bool, slot: nat): (g: nat)
    requires |d| >= Pops(op)
  {
    if IsSwap(op) || IsDup(op) then 3
    else if IsLog(op) then 375 + 375 * (op - LOG0) as nat + 8 * Top(d, 1)
    else if op == SSTORE then if slot == 0 && ToHash(Top(d, 1)) != 0 then 20000 else 5000
    else if TableReq(op).None? then 0
    else TableReq(op).value.gas + Extra(op, d, found)
  }

  function Extra(op: Byte, d: seq<nat>, found: bool): (g: nat)
    requires |d| >= Pops(op)
  {
    if op == EXP then 10 * |BigEndian(Top(d, 1))|
    else if op == SHA3 then 6 * ToWords(Top(d, 1))
    else if op == CALLDATACOPY || op == CODECOPY then 3 * ToWords(Top(d, 2))
    else if op == EXTCODECOPY then 3 * ToWords(Top(d, 3))
    else if op == CALL || op == CALLCODE then
      Top(d, 0) + (if op == CALL && !found then 25000 else 0) + (if Top(d, 2) > 0 then 9000 else 0)
    else 0
  }

  /** Every opcode that does not stop the execution costs gas; a call costs more than it hands on. */
  lemma PriceIsPositive(op: Byte, d: seq<nat>, found: bool, slot: nat)
    requires |d| >= Pops(op)
    ensures Known(op) && !Halts(op) ==> Price(op, d, found, slot) > 0
    ensures op == CALL || op == CALLCODE ==>
      Price(op, d, found, slot) > Top(d, 0) + if Top(d, 2) > 0 then 2300 else 0
  {}

  /** The fee for growing from one size to another. */
  function GrowFee(have: nat, size: nat): (f: int)
  {
    if size > have then MemFee(size / 32) - MemFee(have / 32) else 0
  }

  /** The price in a given world. */
  function PriceIn(op: Byte, d: seq<nat>, w: State, self: Addr): (g: nat)
    requires |d| >= Pops(op)
  {
    Price(op, d, op == CALL && Has(w, ToAddr(Top(d, 1))), if op == SSTORE then Storage(w, self, ToHash(Top(d, 0))) else 0)
  }

  /** What an opcode adds to the refund counter: for clearing a slot and for a first self-destruct. */
  function RefundFor(op: Byte, d: seq<nat>, w: State, self: Addr): (g: nat)
    requires |d| >= Pops(op)
  {
    if op == SSTORE && Storage(w, self, ToHash(Top(d, 0))) != 0 && ToHash(Top(d, 1)) == 0 then 15000
    else if op == SUICIDE && !Removed(w, self) then 24000
    else 0
  }

  // ---------- the fees ----------

  /** The fee of every opcode whose fee does not depend on its operands, by the tiers of Appendix G. */
  lemma Tiers(op: Byte, d: seq<nat>, found: bool, slot: nat)
    requires |d| >= Pops(op)
    ensures op in {STOP, RETURN, SUICIDE} ==> Price(op, d, found, slot) == 0
    ensures op == JUMPDEST ==> Price(op, d, found, slot) == 1
    ensures op in {0x30, 0x32, 0x33, 0x34, 0x36, 0x38, 0x3A, 0x41, 0x42, 0x43, 0x44, 0x45, POP, 0x58, 0x59, 0x5A} ==>
      Price(op, d, found, slot) == 2
    ensures op in {0x01, 0x03, 0x10, 0x11, 0x12, 0x13, 0x14, 0x15, 0x16, 0x17, 0x18, 0x19, 0x1A, 0x35, MLOAD, MSTORE, MSTORE8} ==>
      Price(op, d, found, slot) == 3
    ensures IsPush(op) || IsDup(op) || IsSwap(op) ==> Price(op, d, found, slot) == 3
    ensures op in {0x02, 0x04, 0x05, 0x06, 0x07, 0x0B} ==> Price(op, d, found, slot) == 5
    ensures op in {0x08, 0x09, JUMP} ==> Price(op, d, found, slot) == 8
    ensures op == JUMPI ==> Price(op, d, found, slot) == 10
    ensures op in {0x31, 0x3B, 0x40} ==> Price(op, d, found, slot) == 20
    ensures op == SLOAD ==> Price(op, d, found, slot) == 50
    ensures op == CREATE ==> Price(op, d, found, slot) == 32000
  {}

  /** The fees that depend on the operands: words hashed or copied, bytes of an exponent, topics and data of a log, calls. */
  lemma Metered(op: Byte, d: seq<nat>, found: bool, slot: nat)
    requires |d| >= Pops(op)
    ensures op == SHA3 ==> Price(op, d, found, slot) == 30 + 6 * ((Top(d, 1) + 31) / 32)
    ensures op == EXP ==> Price(op, d, found, slot) == 10 + 10 * |BigEndian(Top(d, 1))|
    ensures op in {CALLDATACOPY, CODECOPY} ==> Price(op, d, found, slot) == 3 + 3 * ((Top(d, 2) + 31) / 32)
    ensures op == EXTCODECOPY ==> Price(op, d, found, slot) == 20 + 3 * ((Top(d, 3) + 31) / 32)
    ensures IsLog(op) ==> Price(op, d, found, slot) == 375 * (1 + (op - LOG0) as nat) + 8 * Top(d, 1)
    ensures op == SSTORE ==> Price(op, d, found, slot) == if slot == 0 && Top(d, 1) % EvmArith.WORD != 0 then 20000 else 5000
    ensures op == CALL ==>
      Price(op, d, found, slot) == 40 + Top(d, 0) + (if found then 0 else 25000) + (if Top(d, 2) == 0 then 0 else 9000)
    ensures op == CALLCODE ==> Price(op, d, found, slot) == 40 + Top(d, 0) + if Top(d, 2) == 0 then 0 else 9000
  {}
}
