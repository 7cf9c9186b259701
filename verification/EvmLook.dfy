/** What the opcodes push that look something up: in the message, the code, memory, the state or the block. */
module EvmLook {
  import opened Bytes
  import opened World
  import opened EvmCode
  import opened EvmGas
  import EvmArith

  /** The block and the transaction a contract runs in; sha3 and hashOf stand for the hash functions. */
  datatype Block = Block(origin: Addr, gasPrice: nat, number: nat, time: nat, difficulty: nat, gasLimit: nat,
                         hashOf: nat -> nat, sha3: seq<Byte> -> nat)

  /** All that an opcode can observe besides the block. */
  datatype View = View(op: Byte, args: seq<nat>, world: State, self: Addr, caller: Addr, value: nat, gas: nat,
                       pc: nat, memory: seq<Byte>, input: seq<Byte>, code: seq<Byte>)

  /** getData: a slice padded with zeros on the right. */
  function GetData(data: seq<Byte>, start: nat, size: nat): (r: seq<Byte>)
    ensures |r| == size
  {
    var s := if start < |data| then start else |data|;
    var e := if s + size < |data| then s + size else |data|;
    data[s..e] + seq(size - (e - s), _ => 0)
  }

  /** BigToBytes: at least 32 bytes, zeros on the left. */
  function ToBytes32(x: nat): (r: seq<Byte>)
    ensures |r| >= 32
  {
    var b := BigEndian(x);
    if |b| > 32 then b else seq(32 - |b|, _ => 0) + b
  }

  /** A piece of memory that has been paid for. */
  function Piece(memory: seq<Byte>, offset: nat, size: nat): (b: seq<Byte>)
    ensures |b| <= size
  {
    if size == 0 || offset + size > |memory| then [] else memory[offset..offset + size]
  }

  /** BLOCKHASH: the last 256 blocks. */
  function BlockHash(b: Block, num: nat): (h: nat)
  {
    if num > b.number - 257 && num < b.number then b.hashOf(num % TWO64) else 0
  }

  /** The opcodes without operands. */
  function LookedHere(b: Block, coinbase: Addr, v: View): (r: nat)
  {
    if v.op == 0x30 then v.self
    else if v.op == 0x32 then b.origin
    else if v.op == 0x33 then v.caller
    else if v.op == 0x34 then v.value
    else if v.op == 0x36 then |v.input|
    else if v.op == 0x38 then |v.code|
    else if v.op == 0x3A then b.gasPrice
    else if v.op == 0x41 then coinbase
    else if v.op == 0x42 then b.time
    else if v.op == 0x43 then EvmArith.U256(b.number)
    else if v.op == 0x44 then b.difficulty
    else if v.op == 0x45 then b.gasLimit
    else if v.op == 0x58 then v.pc
    else if v.op == 0x59 then |v.memory|
    else v.gas
  }

  /** The value a lookup pushes. */
  function Looked(b: Block, coinbase: Addr, v: View): (r: nat)
  {
    if v.args == [] then LookedHere(b, coinbase, v)
    else
      var x := v.args[0];
      if v.op == SHA3 then b.sha3(Piece(v.memory, x, if |v.args| > 1 then v.args[1] else 0))
      else if v.op == 0x31 then Balance(v.world, ToAddr(x))
      else if v.op == 0x35 then FromBigEndian(GetData(v.input, x, 32))
      else if v.op == 0x3B then |Code(v.world, ToAddr(x))|
      else if v.op == 0x40 then BlockHash(b, x)
      else if v.op == MLOAD then FromBigEndian(Piece(v.memory, x, 32))
      else Storage(v.world, v.self, ToHash(x))
  }

  /** What a computing opcode pushes. */
  function Result(b: Block, coinbase: Addr, v: View): (r: nat)
  {
    var exact := EvmArith.Arith(v.op, v.args);
    if exact.Some? then exact.value else Looked(b, coinbase, v)
  }

  /** Opcodes that push what they find. */
  predicate LooksUp(op: Byte)
  {
    op == SHA3 || 0x30 <= op <= 0x45 || op == MLOAD || op == SLOAD || 0x58 <= op <= 0x5A
  }

  /** Everything else pushes a word when it is given words; so does what is read from memory and from the input. */
  lemma ResultIsWord(b: Block, coinbase: Addr, v: View)
    requires PureReq(v.op).Some? && |v.args| == PureReq(v.op).value.pop && forall i | 0 <= i < |v.args| :: v.args[i] < EvmArith.WORD
    ensures !LooksUp(v.op) || v.op == MLOAD || v.op == 0x35 ==> Result(b, coinbase, v) < EvmArith.WORD
  {
    hide EvmArith.Binary;
    ArithExactly(v.op, v.args);
    if EvmArith.Arith(v.op, v.args).Some? {
      EvmArith.WordsStayWords(v.op, v.args);
    } else if v.op == MLOAD {
      BytesAreWord(Piece(v.memory, v.args[0], 32));
    } else if v.op == 0x35 {
      BytesAreWord(GetData(v.input, v.args[0], 32));
    }
  }

  lemma ArithExactly(op: Byte, args: seq<nat>)
    requires PureReq(op).Some? && |args| == PureReq(op).value.pop
    ensures EvmArith.Arith(op, args).Some? <==> !LooksUp(op)
  {}

  lemma BytesAreWord(s: seq<Byte>)
    requires |s| <= 32
    ensures FromBigEndian(s) < EvmArith.WORD
  {
    BigEndianBound(s);
    EvmArith.Pow256Of31();
    EvmArith.Pow256Grows(|s|, 32);
  }

  // ---------- what was stored is found ----------

  /** MLOAD after MSTORE at the same place: exactly a word comes back as it was. */
  lemma LoadStored(memory: seq<Byte>, offset: nat, x: nat)
    requires offset + 32 <= |memory|
    ensures var m := memory[..offset] + ToBytes32(x)[..32] + memory[offset + 32..];
            FromBigEndian(Piece(m, offset, 32)) == x <==> x < EvmArith.WORD
  {
    var b := BigEndian(x);
    var m := memory[..offset] + ToBytes32(x)[..32] + memory[offset + 32..];
    assert m[offset..offset + 32] == ToBytes32(x)[..32];
    BytesAreWord(Piece(m, offset, 32));
    if x < EvmArith.WORD {
      EvmArith.Pow256Of31();
      BigEndianSize(x, 32);
      assert ToBytes32(x)[..32] == ToBytes32(x);
      ZeroFill(32 - |b|, b);
      BigEndianRoundTrip(x);
    }
  }

  // ---------- what the lookups mean ----------

  /** The opcodes without operands: the message, the block, and the machine itself. */
  lemma HereMeans(b: Block, coinbase: Addr, v: View)
    requires v.args == [] && PureReq(v.op).Some?
    ensures var r := Result(b, coinbase, v);
            && (v.op == 0x30 ==> r == v.self) && (v.op == 0x32 ==> r == b.origin) && (v.op == 0x33 ==> r == v.caller)
            && (v.op == 0x34 ==> r == v.value) && (v.op == 0x36 ==> r == |v.input|) && (v.op == 0x38 ==> r == |v.code|)
            && (v.op == 0x3A ==> r == b.gasPrice) && (v.op == 0x41 ==> r == coinbase) && (v.op == 0x42 ==> r == b.time)
            && (v.op == 0x43 && b.number < EvmArith.WORD ==> r == b.number) && (v.op == 0x44 ==> r == b.difficulty)
            && (v.op == 0x45 ==> r == b.gasLimit) && (v.op == 0x58 ==> r == v.pc) && (v.op == 0x59 ==> r == |v.memory|)
            && (v.op == 0x5A ==> r == v.gas)
  {}

  /** The opcodes with operands: state, input, memory, blocks and hashes. */
  lemma ThereMeans(b: Block, coinbase: Addr, v: View)
    requires PureReq(v.op).Some? && |v.args| == PureReq(v.op).value.pop
    ensures var r := Result(b, coinbase, v);
            && (v.op == 0x31 ==> r == Balance(v.world, v.args[0] % TWO160))
            && (v.op == 0x3B ==> r == |Code(v.world, v.args[0] % TWO160)|)
            && (v.op == SLOAD ==> r == Storage(v.world, v.self, v.args[0] % EvmArith.WORD))
            && (v.op == 0x40 && b.number - 257 < v.args[0] < b.number && b.number < TWO64 ==> r == b.hashOf(v.args[0]))
            && (v.op == 0x40 && !(b.number - 257 < v.args[0] < b.number) ==> r == 0)
            && (v.op == MLOAD && v.args[0] + 32 <= |v.memory| ==> r == FromBigEndian(v.memory[v.args[0]..v.args[0] + 32]))
            && (v.op == 0x35 && v.args[0] + 32 <= |v.input| ==> r == FromBigEndian(v.input[v.args[0]..v.args[0] + 32]))
            && (v.op == SHA3 && 0 < v.args[1] && v.args[0] + v.args[1] <= |v.memory| ==>
                  r == b.sha3(v.memory[v.args[0]..v.args[0] + v.args[1]]))
            && (v.op == SHA3 && v.args[1] == 0 ==> r == b.sha3([]))
  {
    hide FromBigEndian, EvmArith.Arith;
    ArithExactly(v.op, v.args);
    if v.op == 0x35 && v.args[0] + 32 <= |v.input| {
      assert GetData(v.input, v.args[0], 32) == v.input[v.args[0]..v.args[0] + 32];
    }
  }

  /** getData: byte i of what is taken is byte start + i of the data, or zero past its end. */
  lemma GetDataAt(data: seq<Byte>, start: nat, size: nat, i: nat)
    requires i < size
    ensures GetData(data, start, size)[i] == if start + i < |data| then data[start + i] else 0
  {}
}
