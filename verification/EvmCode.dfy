/** Opcodes, the table of what each pops, costs and pushes, and the instructions of a piece of code. */
module EvmCode {
  import opened Bytes

  const STOP: Byte := 0x00
  const SHA3: Byte := 0x20
  const CALLDATACOPY: Byte := 0x37
  const CODECOPY: Byte := 0x39
  const EXTCODECOPY: Byte := 0x3C
  const EXP: Byte := 0x0A
  const POP: Byte := 0x50
  const MLOAD: Byte := 0x51
  const MSTORE: Byte := 0x52
  const MSTORE8: Byte := 0x53
  const SLOAD: Byte := 0x54
  const SSTORE: Byte := 0x55
  const JUMP: Byte := 0x56
  const JUMPI: Byte := 0x57
  const JUMPDEST: Byte := 0x5B
  const PUSH1: Byte := 0x60
  const DUP1: Byte := 0x80
  const SWAP1: Byte := 0x90
  const LOG0: Byte := 0xA0
  const CREATE: Byte := 0xF0
  const CALL: Byte := 0xF1
  const CALLCODE: Byte := 0xF2
  const RETURN: Byte := 0xF3
  const SUICIDE: Byte := 0xFF

  predicate IsPush(op: Byte) { PUSH1 <= op <= 0x7F }

  predicate IsDup(op: Byte) { DUP1 <= op <= 0x8F }

  predicate IsSwap(op: Byte) { SWAP1 <= op <= 0x9F }

  predicate IsLog(op: Byte) { LOG0 <= op <= 0xA4 }

  /** Opcodes that stop the execution. */
  predicate Halts(op: Byte) { op == STOP || op == RETURN || op == SUICIDE }

  datatype Req = Req(pop: nat, gas: nat, push: nat)

  /** The rows of the table that compute one value from the values popped. */
  function PureReq(op: Byte): (r: Option<Req>)
    ensures r.Some? ==> r.value.push == 1 && r.value.gas > 0 && r.value.pop <= 3
  {
    if op in {0x01, 0x03, 0x10, 0x11, 0x12, 0x13, 0x14, 0x16, 0x17, 0x18, 0x1A} then Some(Req(2, 3, 1))
    else if op in {0x15, 0x19, 0x35, MLOAD} then Some(Req(1, 3, 1))
    else if op in {0x02, 0x04, 0x05, 0x06, 0x07, 0x0B} then Some(Req(2, 5, 1))
    else if op in {0x08, 0x09} then Some(Req(3, 8, 1))
    else if op == EXP then Some(Req(2, 10, 1))
    else if op in {0x30, 0x32, 0x33, 0x34, 0x36, 0x38, 0x3A, 0x41, 0x42, 0x43, 0x44, 0x45, 0x58, 0x59, 0x5A} then
      Some(Req(0, 2, 1))
    else if op in {0x31, 0x3B, 0x40} then Some(Req(1, 20, 1))
    else if op == SLOAD then Some(Req(1, 50, 1))
    else if op == SHA3 then Some(Req(2, 30, 1))
    else None
  }

  /** The table. PUSH and DUP share one row each; STOP, SWAP, LOG and unknown opcodes have none. */
  function TableReq(op: Byte): (r: Option<Req>)
  {
    if PureReq(op).Some? then PureReq(op)
    else if op == CALLDATACOPY then Some(Req(3, 3, 1))
    else if op == CODECOPY then Some(Req(3, 3, 0))
    else if op == EXTCODECOPY then Some(Req(4, 20, 0))
    else if op == MSTORE || op == MSTORE8 then Some(Req(2, 3, 0))
    else if op == POP then Some(Req(1, 2, 0))
    else if op == JUMP then Some(Req(1, 8, 0))
    else if op == JUMPI then Some(Req(2, 10, 0))
    else if op == SSTORE then Some(Req(2, 0, 0))
    else if op == JUMPDEST then Some(Req(0, 1, 0))
    else if op == CREATE then Some(Req(3, 32000, 1))
    else if op == CALL || op == CALLCODE then Some(Req(7, 40, 1))
    else if op == SUICIDE then Some(Req(1, 0, 0))
    else if op == RETURN then Some(Req(2, 0, 0))
    else if IsPush(op) then Some(Req(0, 3, 1))
    else if IsDup(op) then Some(Req(0, 0, 1))
    else None
  }

  predicate Known(op: Byte)
  {
    op == STOP || IsSwap(op) || IsLog(op) || TableReq(op).Some?
  }

  // ---------- instruction starts ----------

  /** GetOp: past the end the code reads as STOP. */
  function OpAt(code: seq<Byte>, pc: nat): (op: Byte)
  {
    if pc < |code| then code[pc] else STOP
  }

  /** Where the next instruction starts: a PUSH carries its data with it. */
  function NextPc(code: seq<Byte>, pc: nat): (p: nat)
    ensures p > pc
  {
    pc + 1 + if IsPush(OpAt(code, pc)) then (OpAt(code, pc) - PUSH1 + 1) as nat else 0
  }

  /** at is an instruction start, counting from pc. */
  ghost predicate StartsFrom(code: seq<Byte>, pc: nat, at: nat)
    decreases at - pc
  {
    pc == at || (pc < at && StartsFrom(code, NextPc(code, pc), at))
  }

  ghost predicate IsStart(code: seq<Byte>, at: nat)
  {
    StartsFrom(code, 0, at)
  }

  lemma {:induction false} NextIsStart(code: seq<Byte>, pc: nat, at: nat)
    requires StartsFrom(code, pc, at)
    ensures StartsFrom(code, pc, NextPc(code, at))
    decreases at - pc
  {
    if pc < at {
      NextIsStart(code, NextPc(code, pc), at);
    } else {
      assert StartsFrom(code, NextPc(code, at), NextPc(code, at));
    }
  }

  /** No instruction starts between one start and the next. */
  lemma {:induction false} NoneBetween(code: seq<Byte>, pc: nat, at: nat, p: nat)
    requires StartsFrom(code, pc, at) && at < p < NextPc(code, at)
    ensures !StartsFrom(code, pc, p)
    decreases at - pc
  {
    if pc < at {
      NoneBetween(code, NextPc(code, pc), at, p);
    }
  }

  /** jumpdests: exactly the JUMPDEST bytes that are instructions and not PUSH data. */
  method JumpDests(code: seq<Byte>) returns (m: set<nat>)
    ensures forall p: nat :: p in m <==> p < |code| && code[p] == JUMPDEST && IsStart(code, p)
  {
    m := {};
    var pc := 0;
    while pc < |code|
      invariant IsStart(code, pc)
      invariant forall p: nat :: p in m <==> p < |code| && p < pc && code[p] == JUMPDEST && IsStart(code, p)
      decreases |code| - pc
    {
      var op := code[pc];
      ghost var next := NextPc(code, pc);
      NextIsStart(code, 0, pc);
      forall p: nat | pc < p < next ensures !IsStart(code, p) {
        NoneBetween(code, 0, pc, p);
      }
      if IsPush(op) {
        pc := pc + (op - PUSH1 + 1) as nat;
      } else if op == JUMPDEST {
        m := m + {pc};
      }
      pc := pc + 1;
    }
  }
}
