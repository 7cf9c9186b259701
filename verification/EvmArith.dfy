/**
 The arithmetic of the machine: words of 256 bits, read as numbers or in two's complement. Each opcode is
 written as the interpreter computes it and then shown to be what its name says.
 */
module EvmArith {
  import opened Bytes
  import opened Division
  import opened Powers

  const WORD: int := 0x1_0000_0000_0000_0000_0000_0000_0000_0000_0000_0000_0000_0000_0000_0000_0000_0000
  const HALF: int := 0x8000_0000_0000_0000_0000_0000_0000_0000_0000_0000_0000_0000_0000_0000_0000_0000

  /** The low 256 bits, of a negative number in two's complement. */
  function U256(x: int): (w: nat)
    ensures w < WORD
  {
    x % WORD
  }

  function S256(x: nat): (v: int)
  {
    if x < HALF then x else x - WORD
  }

  /** A word is its signed value, wrapped, and no other number of that range has this word. */
  lemma WordIsSigned(x: nat)
    requires x < WORD
    ensures -HALF <= S256(x) < HALF && U256(S256(x)) == x
  {}

  lemma SignedIsWord(v: int)
    requires -HALF <= v < HALF
    ensures S256(U256(v)) == v
  {}

  // ---------- division ----------

  function Abs(x: int): (a: nat)
  {
    if x < 0 then -x else x
  }

  function Sdiv(a: nat, b: nat): (r: nat)
  {
    var x, y := S256(a), S256(b);
    if y == 0 then 0
    else
      var n := if x * y < 0 then -1 else 1;
      U256(Abs(x) / Abs(y) * n)
  }

  function Smod(a: nat, b: nat): (r: nat)
  {
    var x, y := S256(a), S256(b);
    if y == 0 then 0
    else
      var n := if x < 0 then -1 else 1;
      U256(Abs(x) % Abs(y) * n)
  }

  /** q and r are the quotient and the remainder of x by y, rounded toward zero. */
  ghost predicate Truncates(x: int, y: int, q: int, r: int)
  {
    x == q * y + r && Abs(r) < Abs(y) && (r > 0 ==> x > 0) && (r < 0 ==> x < 0)
  }

  lemma Sign(x: int, y: int)
    ensures x * y < 0 <==> (x < 0 && y > 0) || (x > 0 && y < 0)
  {}

  lemma Times(a: int, b: int)
    ensures (-a) * b == -(a * b) && a * (-b) == -(a * b) && (-a) * (-b) == a * b
  {}

  ghost function Quo(x: int, y: int): (q: int)
    requires y != 0
  {
    var q := Abs(x) / Abs(y);
    if x * y < 0 then -q else q
  }

  ghost function Rem(x: int, y: int): (r: int)
    requires y != 0
  {
    var r := Abs(x) % Abs(y);
    if x < 0 then -r else r
  }

  lemma Truncated(x: int, y: int)
    requires y != 0
    ensures Truncates(x, y, Quo(x, y), Rem(x, y))
  {
    var q, r := Abs(x) / Abs(y), Abs(x) % Abs(y);
    Decompose(Abs(x), Abs(y));
    Sign(x, y);
    Times(q, Abs(y));
    if x == 0 {
      Euclid(0, Abs(y), 0, 0);
    }
  }

  lemma Ranges(x: int, y: int)
    requires -HALF <= x < HALF && y != 0
    ensures -HALF <= Quo(x, y) <= HALF && (Quo(x, y) == HALF <==> x == -HALF && y == -1)
    ensures -HALF <= Rem(x, y) < HALF
  {
    QuotientSize(Abs(x), Abs(y));
    Sign(x, y);
    RangesOf(x, y, Abs(x) / Abs(y), Abs(x) % Abs(y), x * y < 0);
  }

  lemma RangesOf(x: int, y: int, q: int, r: int, negative: bool)
    requires 0 <= q && 0 <= r && -HALF <= x < HALF && y != 0 && (negative <==> (x < 0 && y > 0) || (x > 0 && y < 0))
    requires q <= Abs(x) && r <= Abs(x) && (Abs(y) > 1 && x != 0 ==> q < Abs(x)) && (Abs(y) == 1 ==> q == Abs(x))
    ensures var s := if negative then -q else q; -HALF <= s <= HALF && (s == HALF <==> x == -HALF && y == -1)
    ensures -HALF <= (if x < 0 then -r else r) < HALF
  {}

  lemma SdivWord(a: nat, b: nat)
    requires S256(b) != 0
    ensures Sdiv(a, b) == U256(Quo(S256(a), S256(b))) && Smod(a, b) == U256(Rem(S256(a), S256(b)))
  {
    var x, y := S256(a), S256(b);
    Times(Abs(x) / Abs(y), 1);
    Times(Abs(x) % Abs(y), 1);
  }

  /** Signed division rounds toward zero, unless the least number is divided by -1: the quotient has no word. */
  lemma SdivIff(a: nat, b: nat)
    requires a < WORD && 0 < b < WORD
    ensures S256(b) != 0 && Truncates(S256(a), S256(b), Quo(S256(a), S256(b)), S256(Smod(a, b)))
    ensures S256(Sdiv(a, b)) == Quo(S256(a), S256(b)) <==> !(a == HALF && b == WORD - 1)
  {
    hide Quo, Rem, Truncates, Sdiv, Smod;
    var x, y := S256(a), S256(b);
    WordIsSigned(a);
    Truncated(x, y);
    Ranges(x, y);
    SdivWord(a, b);
    SignedIsWord(Rem(x, y));
    if Quo(x, y) < HALF {
      SignedIsWord(Quo(x, y));
    }
  }

  lemma QuotientSize(x: nat, y: nat)
    requires y > 0
    ensures x / y <= x && (y > 1 && x > 0 ==> x / y < x) && x % y < y && x % y <= x && (y == 1 ==> x / y == x)
  {
    var q := x / y;
    Decompose(x, y);
    AtLeast(q, y, 1);
    if y > 1 {
      AtLeast(q, y, 2);
    }
  }

  lemma Decompose(x: nat, y: nat)
    requires y > 0
    ensures x == x / y * y + x % y && x % y < y
  {}

  lemma AtLeast(q: nat, y: nat, k: nat)
    requires y >= k
    ensures q * y >= q * k
  {}

  // ---------- sign extension ----------

  /** The byte that holds the sign is counted from the right; 31 and more change nothing. */
  function SignExtend(back: nat, num: nat): (r: nat)
  {
    if back >= 31 then num
    else
      var p := 128 * Pow256(back);
      if num / p % 2 == 1 then U256(num % p - p) else U256(num % p)
  }

  lemma {:induction false} Pow256Grows(a: nat, b: nat)
    requires a <= b
    ensures Pow256(a) <= Pow256(b)
  {
    if a < b {
      Pow256Grows(a, b - 1);
    }
  }

  lemma Pow256Of31()
    ensures 256 * Pow256(31) == WORD
  {
    assert Pow256(4) == 0x1_0000_0000;
    assert Pow256(8) == 0x1_0000_0000_0000_0000;
    assert Pow256(12) == 0x1_0000_0000_0000_0000_0000_0000;
    assert Pow256(16) == 0x1_0000_0000_0000_0000_0000_0000_0000_0000;
    assert Pow256(20) == 0x1_0000_0000_0000_0000_0000_0000_0000_0000_0000_0000;
    assert Pow256(24) == 0x1_0000_0000_0000_0000_0000_0000_0000_0000_0000_0000_0000_0000;
    assert Pow256(28) == 0x1_0000_0000_0000_0000_0000_0000_0000_0000_0000_0000_0000_0000_0000_0000;
  }

  /** The low back + 1 bytes of num, read as a signed number of that size. */
  lemma SignExtendIs(back: nat, num: nat)
    requires back < 31
    ensures var m := 256 * Pow256(back); var low := num % m;
            S256(SignExtend(back, num)) == if low < m / 2 then low else low - m
  {
    var p := 128 * Pow256(back);
    Pow256Grows(back, 30);
    Pow256Of31();
    assert Pow256(31) == 256 * Pow256(30);
    hide Pow256;
    LowPart(num, p);
    assert 2 * p == 256 * Pow256(back);
    SignedIsWord(if num / p % 2 == 1 then num % p - p else num % p);
  }

  lemma LowPart(num: nat, p: nat)
    requires p > 0
    ensures num % (2 * p) == num % p + (if num / p % 2 == 1 then p else 0) && num % p < p
  {
    DivDiv(num, p, 2);
    assert p * 2 == 2 * p;
  }

  // ---------- bytes and bits ----------

  /** The big-endian bytes, padded on the left to 32. */
  function Padded(x: nat): (s: seq<Byte>)
  {
    var b := BigEndian(x);
    if |b| >= 32 then b else seq(32 - |b|, _ => 0 as Byte) + b
  }

  function ByteAt(th: nat, x: nat): (r: nat)
    ensures r < 256
  {
    if th < 32 && th < |Padded(x)| then Padded(x)[th] as nat else 0
  }

  lemma {:induction false} BigEndianAt(x: nat, i: nat)
    requires i < |BigEndian(x)|
    ensures BigEndian(x)[|BigEndian(x)| - 1 - i] as nat == x / Pow256(i) % 256
  {
    if i > 0 {
      BigEndianAt(x / 256, i - 1);
      DivDiv(x, 256, Pow256(i - 1));
    }
  }

  /** BYTE counts from the most significant byte of the word. */
  lemma ByteAtIs(th: nat, x: nat)
    requires x < WORD && th < 32
    ensures ByteAt(th, x) == x / Pow256(31 - th) % 256
  {
    Pow256Of31();
    BigEndianSize(x, 32);
    var b, i := BigEndian(x), 31 - th;
    hide BigEndian;
    if i < |b| {
      BigEndianAt(x, i);
    } else {
      BigEndianSize(x, i);
      Euclid(x, Pow256(i), 0, x);
    }
  }

  function And(x: nat, y: nat): (r: nat)
  {
    if x == 0 || y == 0 then 0 else 2 * And(x / 2, y / 2) + (if x % 2 == 1 && y % 2 == 1 then 1 else 0)
  }

  function Or(x: nat, y: nat): (r: nat)
    decreases x + y
  {
    if x == 0 && y == 0 then 0 else 2 * Or(x / 2, y / 2) + (if x % 2 == 1 || y % 2 == 1 then 1 else 0)
  }

  function Xor(x: nat, y: nat): (r: nat)
    decreases x + y
  {
    if x == 0 && y == 0 then 0 else 2 * Xor(x / 2, y / 2) + (if x % 2 != y % 2 then 1 else 0)
  }

  /** Adding is adding without carry, plus the carries. */
  lemma {:induction false} BitsAdd(x: nat, y: nat)
    ensures And(x, y) + Or(x, y) == x + y && Xor(x, y) + And(x, y) == Or(x, y)
    decreases x + y
  {
    if x != 0 || y != 0 {
      BitsAdd(x / 2, y / 2);
      if x == 0 || y == 0 {
        AndZero(x / 2, y / 2);
      }
    }
  }

  lemma AndZero(x: nat, y: nat)
    ensures x == 0 || y == 0 ==> And(x, y) == 0
  {}

  lemma {:induction false} BitsBound(x: nat, y: nat, k: nat)
    requires x < Pow2(k) && y < Pow2(k)
    ensures Or(x, y) < Pow2(k)
  {
    if k == 0 {
      assert x == 0 && y == 0;
    } else if x != 0 || y != 0 {
      BitsBound(x / 2, y / 2, k - 1);
    }
  }

  // ---------- the opcodes ----------

  function Power(x: nat, y: nat): (p: nat)
  {
    if y == 0 then 1 else x * Power(x, y - 1)
  }

  function Not(x: int): (r: nat)
  {
    U256(-1 - x)
  }

  function Flag(b: bool): (r: nat)
  {
    if b then 1 else 0
  }

  /** The opcodes of two words. */
  function Binary(op: Byte, x: nat, y: nat): (r: Option<nat>)
  {
    if op == 0x01 then Some(U256(x + y))
    else if op == 0x02 then Some(U256(x * y))
    else if op == 0x03 then Some(U256(x - y))
    else if op == 0x04 then Some(if y == 0 then 0 else U256(x / y))
    else if op == 0x05 then Some(Sdiv(x, y))
    else if op == 0x06 then Some(if y == 0 then 0 else U256(x % y))
    else if op == 0x07 then Some(Smod(x, y))
    else if op == 0x0A then Some(U256(Power(x, y)))
    else if op == 0x0B then Some(SignExtend(x, y))
    else if op == 0x10 then Some(Flag(x < y))
    else if op == 0x11 then Some(Flag(x > y))
    else if op == 0x12 then Some(Flag(S256(x) < S256(y)))
    else if op == 0x13 then Some(Flag(S256(x) > S256(y)))
    else if op == 0x14 then Some(Flag(x == y))
    else if op == 0x16 then Some(And(x, y))
    else if op == 0x17 then Some(Or(x, y))
    else if op == 0x18 then Some(Xor(x, y))
    else if op == 0x1A then Some(ByteAt(x, y))
    else None
  }

  /** The value an arithmetic opcode pushes, its operands in the order they are popped; None for the other opcodes. */
  function Arith(op: Byte, args: seq<nat>): (r: Option<nat>)
  {
    if |args| == 2 then Binary(op, args[0], args[1])
    else if |args| == 1 && op == 0x15 then Some(Flag(args[0] == 0))
    else if |args| == 1 && op == 0x19 then Some(Not(args[0]))
    else if |args| == 3 && op == 0x08 then Some(if args[2] == 0 then 0 else U256((args[0] + args[1]) % args[2]))
    else if |args| == 3 && op == 0x09 then Some(if args[2] == 0 then 0 else U256((args[0] * args[1]) % args[2]))
    else None
  }

  lemma Pow2Of256()
    ensures Pow2(256) == WORD
  {
    Pow2Of255();
    assert Pow2(256) == 2 * Pow2(255);
  }

  /** Words in, words out. */
  lemma WordsStayWords(op: Byte, args: seq<nat>)
    requires (forall i | 0 <= i < |args| :: args[i] < WORD) && Arith(op, args).Some?
    ensures Arith(op, args).value < WORD
  {
    hide And, Or, Xor, Pow2, SignExtend, Sdiv, Smod, Power, Padded;
    if |args| == 2 {
      var x, y := args[0], args[1];
      BitsAdd(x, y);
      Pow2Of256();
      BitsBound(x, y, 256);
      SmallResults(x, y);
    }
  }

  lemma SmallResults(x: nat, y: nat)
    requires x < WORD && y < WORD
    ensures Sdiv(x, y) < WORD && Smod(x, y) < WORD && SignExtend(x, y) < WORD && ByteAt(x, y) < WORD
  {
    hide Pow256, Padded;
  }

  /** The modulus of ADDMOD and MULMOD applies to the sum and the product themselves, not to their words. */
  lemma ModIsExact(x: nat, y: nat, z: nat)
    requires 0 < z < WORD
    ensures Arith(0x08, [x, y, z]) == Some((x + y) % z) && Arith(0x09, [x, y, z]) == Some((x * y) % z)
  {
    hide Binary, Not, Flag, U256;
    SmallMod(x + y, z);
    SmallMod(x * y, z);
  }

  lemma SmallMod(v: nat, z: nat)
    requires 0 < z < WORD
    ensures U256(v % z) == v % z
  {}

  lemma Undo(x: nat, y: nat)
    requires x < WORD && y < WORD
    ensures U256(U256(x + y) - y) == x && Not(Not(x)) == x
  {}

  /** The opcodes of the next lemma. */
  lemma AddSubNot(x: nat, y: nat)
    ensures Arith(0x01, [x, y]) == Some(U256(x + y)) && Arith(0x03, [x, y]) == Some(U256(x - y))
    ensures Arith(0x19, [x]) == Some(Not(x))
  {
    hide U256, Not, Sdiv, Smod, SignExtend, And, Or, Xor, ByteAt, Power, S256, Flag;
  }

  /** SUB undoes ADD, and NOT is its own inverse. */
  lemma Inverses(x: nat, y: nat)
    requires x < WORD && y < WORD
    ensures Arith(0x03, [Arith(0x01, [x, y]).value, y]) == Some(x)
    ensures Arith(0x19, [Arith(0x19, [x]).value]) == Some(x)
  {
    hide *;
    Undo(x, y);
    AddSubNot(x, y);
    AddSubNot(U256(x + y), y);
    AddSubNot(Not(x), y);
  }

  // ---------- what the opcodes mean ----------

  /** Bit i of a number. */
  function Bit(x: nat, i: nat): (b: bool)
  {
    if i == 0 then x % 2 == 1 else Bit(x / 2, i - 1)
  }

  lemma {:induction false} BitwiseIs(x: nat, y: nat, i: nat)
    ensures Bit(And(x, y), i) <==> Bit(x, i) && Bit(y, i)
    ensures Bit(Or(x, y), i) <==> Bit(x, i) || Bit(y, i)
    ensures Bit(Xor(x, y), i) <==> Bit(x, i) != Bit(y, i)
    decreases i
  {
    hide And, Or, Xor;
    HalfBits(x, y);
    if i > 0 {
      BitwiseIs(x / 2, y / 2, i - 1);
    }
  }

  lemma HalfBits(x: nat, y: nat)
    ensures And(x, y) / 2 == And(x / 2, y / 2) && Or(x, y) / 2 == Or(x / 2, y / 2) && Xor(x, y) / 2 == Xor(x / 2, y / 2)
    ensures And(x, y) % 2 == 1 <==> x % 2 == 1 && y % 2 == 1
    ensures (Or(x, y) % 2 == 1 <==> x % 2 == 1 || y % 2 == 1) && (Xor(x, y) % 2 == 1 <==> x % 2 != y % 2)
  {
    var a, o, e := And(x / 2, y / 2), Or(x / 2, y / 2), Xor(x / 2, y / 2);
    AndZero(x / 2, y / 2);
    var p, q, r := Flag(x % 2 == 1 && y % 2 == 1), Flag(x % 2 == 1 || y % 2 == 1), Flag(x % 2 != y % 2);
    assert x != 0 && y != 0 ==> And(x, y) == 2 * a + p;
    assert x != 0 || y != 0 ==> Or(x, y) == 2 * o + q && Xor(x, y) == 2 * e + r;
    hide And, Or, Xor;
    HalfOf(a, p);
    HalfOf(o, q);
    HalfOf(e, r);
  }

  lemma HalfOf(a: nat, b: nat)
    requires b < 2
    ensures (2 * a + b) / 2 == a && (2 * a + b) % 2 == b
  {}

  /** Sums, differences and complements are taken modulo 2^256. */
  lemma SumMeans(x: nat, y: nat)
    requires x < WORD && y < WORD
    ensures Arith(0x01, [x, y]).Some? && var r := Arith(0x01, [x, y]).value; r == x + y || r == x + y - WORD
    ensures Arith(0x03, [x, y]).Some? && var r := Arith(0x03, [x, y]).value; r + y == x || r + y == x + WORD
    ensures Arith(0x19, [x]).Some? && x + Arith(0x19, [x]).value == WORD - 1
  {
    hide *;
    Unfolded(x, y);
    SumMod(x, y);
  }

  /** So are products. */
  lemma ProductMeans(x: nat, y: nat)
    ensures Arith(0x02, [x, y]).Some? && var r := Arith(0x02, [x, y]).value; r < WORD && (x * y - r) % WORD == 0
  {
    hide *;
    Unfolded(x, y);
    ProductMod(x * y);
  }

  /** Quotient and remainder; division by zero gives zero. */
  lemma DivMeans(x: nat, y: nat)
    requires x < WORD && y < WORD
    ensures Arith(0x04, [x, y]).Some? && Arith(0x06, [x, y]).Some?
    ensures var q, r := Arith(0x04, [x, y]).value, Arith(0x06, [x, y]).value;
            if y == 0 then q == 0 && r == 0 else x == q * y + r && r < y
  {
    hide *;
    Unfolded(x, y);
    if y > 0 {
      DivMod(x, y);
      SmallQuotient(x, y);
    }
  }

  lemma SumMod(x: nat, y: nat)
    requires x < WORD && y < WORD
    ensures U256(x + y) == x + y || U256(x + y) == x + y - WORD
    ensures U256(x - y) + y == x || U256(x - y) + y == x + WORD
    ensures U256(-1 - x) + x == WORD - 1
  {}

  lemma Unfolded(x: nat, y: nat)
    ensures Arith(0x01, [x, y]) == Some(U256(x + y)) && Arith(0x02, [x, y]) == Some(U256(x * y))
    ensures Arith(0x03, [x, y]) == Some(U256(x - y)) && Arith(0x19, [x]) == Some(U256(-1 - x))
    ensures Arith(0x04, [x, y]) == Some(if y == 0 then 0 else U256(x / y))
    ensures Arith(0x06, [x, y]) == Some(if y == 0 then 0 else U256(x % y))
  {
    hide U256, Sdiv, Smod, SignExtend, And, Or, Xor, ByteAt, Power, S256, Flag;
  }

  lemma ProductMod(p: nat)
    ensures U256(p) < WORD && (p - U256(p)) % WORD == 0
  {
    DivMod(p, WORD);
    Euclid(p - p % WORD, WORD, p / WORD, 0);
  }

  lemma DivMod(x: nat, y: nat)
    requires y > 0
    ensures x == (x / y) * y + x % y && 0 <= x % y < y
  {
    Decompose(x, y);
  }

  lemma SmallQuotient(x: nat, y: nat)
    requires 0 < y && x < WORD && y < WORD
    ensures U256(x / y) == x / y && U256(x % y) == x % y
  {
    QuotientSize(x, y);
  }

  /** Comparisons give 1 or 0, signed ones on the signed values; the bitwise opcodes act on each bit. */
  lemma CompareMeans(x: nat, y: nat)
    ensures Arith(0x10, [x, y]) == Some(if x < y then 1 else 0) && Arith(0x11, [x, y]) == Some(if x > y then 1 else 0)
    ensures Arith(0x12, [x, y]) == Some(if S256(x) < S256(y) then 1 else 0)
    ensures Arith(0x13, [x, y]) == Some(if S256(x) > S256(y) then 1 else 0)
    ensures Arith(0x14, [x, y]) == Some(if x == y then 1 else 0) && Arith(0x15, [x]) == Some(if x == 0 then 1 else 0)
    ensures Arith(0x16, [x, y]).Some? && Arith(0x17, [x, y]).Some? && Arith(0x18, [x, y]).Some?
    ensures forall i :: Bit(Arith(0x16, [x, y]).value, i) <==> Bit(x, i) && Bit(y, i)
    ensures forall i :: Bit(Arith(0x17, [x, y]).value, i) <==> Bit(x, i) || Bit(y, i)
    ensures forall i :: Bit(Arith(0x18, [x, y]).value, i) <==> Bit(x, i) != Bit(y, i)
    ensures Arith(0x05, [x, y]) == Some(Sdiv(x, y)) && Arith(0x07, [x, y]) == Some(Smod(x, y))
    ensures Arith(0x0A, [x, y]) == Some(Power(x, y) % WORD) && Arith(0x0B, [x, y]) == Some(SignExtend(x, y))
    ensures Arith(0x1A, [x, y]) == Some(ByteAt(x, y))
  {
    hide Sdiv, Smod, SignExtend, And, Or, Xor, ByteAt, Power, S256, Bit;
    forall i
      ensures Bit(And(x, y), i) <==> Bit(x, i) && Bit(y, i)
      ensures Bit(Or(x, y), i) <==> Bit(x, i) || Bit(y, i)
      ensures Bit(Xor(x, y), i) <==> Bit(x, i) != Bit(y, i)
    {
      BitwiseIs(x, y, i);
    }
  }
}
