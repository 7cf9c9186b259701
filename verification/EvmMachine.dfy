/** What one call works on: its stack, its memory and its gas. */
module EvmMachine {
  import opened Bytes
  import opened World
  import EvmArith

  /** Values on the stack; the backing slice may be longer than the stack. */
  class Stack {
    var data: seq<nat>
    var ptr: nat
    /** A number of more than 256 bits has been pushed. */
    ghost var wide: bool

    const LIMIT: nat := 1024

    ghost predicate Valid()
      reads this
    {
      ptr <= |data| <= LIMIT + 1 && (!wide ==> forall i | 0 <= i < ptr :: data[i] < EvmArith.WORD)
    }

    ghost function Items(): (s: seq<nat>)
      reads this
      requires Valid()
    {
      data[..ptr]
    }

    constructor ()
      ensures Valid() && Items() == [] && data == [] && !wide
    {
      data, ptr, wide := [], 0, false;
    }

    method Push(d: nat)
      requires Valid() && ptr <= LIMIT
      modifies this
      ensures Valid() && Items() == old(Items()) + [d] && (wide <==> old(wide) || d >= EvmArith.WORD)
      ensures |data| == if old(|data|) > old(ptr) then old(|data|) else old(ptr) + 1
    {
      if |data| > ptr {
        data := data[ptr := d];
      } else {
        data := data + [d];
      }
      ptr := ptr + 1;
      wide := wide || d >= EvmArith.WORD;
    }

    method Pop() returns (ret: nat)
      requires Valid() && ptr > 0
      modifies `ptr
      ensures Valid() && old(Items()) == Items() + [ret]
    {
      ptr := ptr - 1;
      ret := data[ptr];
    }

    /** n values, the top one first. */
    method PopMany(n: nat) returns (args: seq<nat>)
      requires Valid() && ptr >= n
      modifies `ptr
      ensures Valid() && ptr == old(ptr) - n && |args| == n
      ensures forall i | 0 <= i < n :: args[i] == data[old(ptr) - 1 - i]
    {
      args := [];
      for i := 0 to n
        invariant Valid() && ptr == old(ptr) - i && |args| == i
        invariant forall j | 0 <= j < i :: args[j] == data[old(ptr) - 1 - j]
      {
        var x := Pop();
        args := args + [x];
      }
    }

    method Swap(n: nat)
      requires Valid() && 1 <= n <= ptr
      modifies `data
      ensures Valid() && |data| == old(|data|)
      ensures Items() == old(Items())[ptr - n := old(data[ptr - 1])][ptr - 1 := old(data[ptr - n])]
    {
      var a, b := data[ptr - n], data[ptr - 1];
      data := data[ptr - n := b][ptr - 1 := a];
    }

    method Dup(n: nat)
      requires Valid() && 1 <= n <= ptr <= LIMIT
      modifies this
      ensures Valid() && Items() == old(Items()) + [old(data[ptr - n])] && wide == old(wide)
      ensures |data| == if old(|data|) > old(ptr) then old(|data|) else old(ptr) + 1
    {
      Push(data[ptr - n]);
    }
  }

  // ---------- memory ----------

  function ToWords(size: nat): (w: nat)
  {
    (size + 31) / 32
  }

  /** The price of w words of memory: linear and quadratic part. */
  function MemFee(w: nat): (f: nat)
  {
    3 * w + w * w / 512
  }

  lemma FeeGrows(a: nat, b: nat)
    requires a <= b
    ensures MemFee(a) <= MemFee(b)
  {
    assert a * a <= b * b by {
      assert b * b - a * a == (b - a) * (b + a);
    }
  }

  /** Memory that 64 bits of gas can buy has a size far below 64 bits. */
  lemma FeeBoundsSize(w: nat)
    requires MemFee(w) < TWO64
    ensures w < 0x80_0000_0000 && 32 * w < TWO64
  {}

  /** Memory grows by zeros and never shrinks. */
  function Widened(store: seq<Byte>, size: nat): (r: seq<Byte>)
    ensures |r| == (if |store| < size then size else |store|) && store <= r && forall i | |store| <= i < |r| :: r[i] == 0
  {
    if |store| < size then store + seq(size - |store|, _ => 0) else store
  }

  class Memory {
    var store: seq<Byte>
    /** The gas charged so far for growing. */
    ghost var paid: nat

    /** Whole words, each paid for. */
    ghost predicate Valid()
      reads this
    {
      |store| % 32 == 0 && paid == MemFee(|store| / 32)
    }

    constructor ()
      ensures Valid() && store == [] && paid == 0
    {
      store, paid := [], 0;
    }

    method Resize(size: nat, ghost fee: nat)
      requires Valid() && size % 32 == 0
      requires fee == if size > |store| then MemFee(size / 32) - MemFee(|store| / 32) else 0
      modifies this
      ensures Valid() && paid == old(paid) + fee && store == Widened(old(store), size)
    {
      if |store| < size {
        FeeGrows(|store| / 32, size / 32);
        store := Widened(store, size);
        paid := paid + fee;
      }
    }

    /** Copies as much of value as fits; the range must have been bought. */
    method Set(offset: nat, size: nat, value: seq<Byte>)
      requires Valid() && (size > 0 ==> offset + size <= |store|)
      modifies `store
      ensures Valid() && |store| == old(|store|)
      ensures size > 0 ==> var k := if |value| < size then |value| else size;
              store == old(store)[..offset] + value[..k] + old(store)[offset + k..]
      ensures size == 0 ==> store == old(store)
    {
      if size > 0 {
        var k := if |value| < size then |value| else size;
        store := store[..offset] + value[..k] + store[offset + k..];
      }
    }

    function Get(offset: nat, size: nat): (b: seq<Byte>)
      reads this
      requires size > 0 ==> offset + size <= |store|
      ensures |b| == size
    {
      if size == 0 then [] else store[offset..offset + size]
    }
  }

  // ---------- gas ----------

  /** A number that is passed by reference: two names may share one. */
  class BigInt {
    var v: int

    constructor (v: int)
      ensures this.v == v
    {
      this.v := v;
    }
  }

  /** The package function UseGas: taken if there is enough; the amount may be the gas counter itself. */
  method Take(gas: BigInt, amount: BigInt) returns (ok: bool)
    modifies gas
    ensures ok <==> old(gas.v) >= old(amount.v)
    ensures gas.v == old(gas.v) - if ok then old(amount.v) else 0
  {
    if gas.v < amount.v {
      return false;
    }
    gas.v := gas.v - amount.v;
    return true;
  }

  class Context {
    const self: Addr
    const caller: Addr
    const codeAddr: Option<Addr>
    const code: seq<Byte>
    const value: nat
    const gas: BigInt
    const usedGas: BigInt

    ghost predicate Valid()
      reads gas
    {
      gas != usedGas && gas.v >= 0
    }

    constructor (caller: Addr, self: Addr, codeAddr: Option<Addr>, code: seq<Byte>, value: nat, gas: nat)
      ensures Valid() && fresh(this.gas) && fresh(usedGas)
      ensures this.caller == caller && this.self == self && this.codeAddr == codeAddr && this.code == code
      ensures this.value == value && this.gas.v == gas && usedGas.v == 0
    {
      this.caller, this.self, this.codeAddr, this.code, this.value := caller, self, codeAddr, code, value;
      this.gas := new BigInt(gas);
      usedGas := new BigInt(0);
    }

    /**
     What is taken from the gas is added to the used gas, exactly when the amount is not the gas counter
     itself, or there was nothing to take: a shared counter has been emptied before it is added.
     */
    method UseGas(amount: BigInt) returns (ok: bool)
      requires Valid() && amount.v >= 0
      modifies gas, usedGas
      ensures Valid() && (ok <==> old(gas.v) >= old(amount.v))
      ensures gas.v == old(gas.v) - if ok then old(amount.v) else 0
      ensures usedGas.v == old(usedGas.v) + if ok && amount != gas then old(amount.v) else 0
      ensures gas.v + usedGas.v == old(gas.v + usedGas.v) <==> !ok || amount != gas || old(gas.v) == 0
    {
      ok := Take(gas, amount);
      if ok {
        usedGas.v := usedGas.v + amount.v;
      }
    }

    /** UseGas applied to the gas counter: all gas is gone, and none of it counts as used. */
    method UseAllGas()
      requires Valid()
      modifies gas, usedGas
      ensures Valid() && gas.v == 0 && usedGas.v == old(usedGas.v)
    {
      var _ := UseGas(gas);
    }

    method ReturnGas(amount: nat)
      requires Valid()
      modifies gas, usedGas
      ensures Valid() && gas.v == old(gas.v) + amount && usedGas.v == old(usedGas.v) - amount
    {
      gas.v := gas.v + amount;
      usedGas.v := usedGas.v - amount;
    }
  }

  /** A context with five gas that uses its own counter: five gas are neither left nor used. */
  method LostGas() returns (left: int, used: int)
    ensures left == 0 && used == 0
  {
    var ctx := new Context(0, 0, None, [], 0, 5);
    ctx.UseAllGas();
    left, used := ctx.gas.v, ctx.usedGas.v;
  }

  /** A stack that once held 1025 items keeps its backing slice when it is empty again. */
  method FullThenEmpty() returns (stack: Stack)
    ensures fresh(stack) && stack.Valid() && stack.ptr == 0 && |stack.data| == 1025
  {
    stack := new Stack();
    for i := 0 to 1025
      invariant fresh(stack) && stack.Valid() && stack.ptr == i == |stack.data|
    {
      stack.Push(i);
    }
    for i := 0 to 1025
      invariant stack.Valid() && stack.ptr == 1025 - i && |stack.data| == 1025
    {
      var _ := stack.Pop();
    }
  }
}
