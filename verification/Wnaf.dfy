/** Windowed non-adjacent form of a scalar, as computed for elliptic curve multiplication. */
module Wnaf {
  import opened Division
  import opened Powers

  /** The group order of secp256k1. */
  const ORDER: nat := 0xFFFF_FFFF_FFFF_FFFF_FFFF_FFFF_FFFF_FFFE_BAAE_DCE6_AF48_A03B_BFD2_5E8C_D036_4141

  /** count bits of s from an offset on. */
  function Bits(s: nat, offset: nat, count: nat): (b: nat)
    ensures b < Pow2(count)
  {
    s / Pow2(offset) % Pow2(count)
  }

  /** The value of the first n digits. */
  ghost function Value(d: seq<int>, n: nat): (v: int)
    requires n <= |d|
  {
    if n == 0 then 0 else Value(d, n - 1) + d[n - 1] * Pow2(n - 1)
  }

  lemma {:induction false} ValueSame(d: seq<int>, e: seq<int>, n: nat)
    requires n <= |d| && n <= |e| && forall i | 0 <= i < n :: d[i] == e[i]
    ensures Value(d, n) == Value(e, n)
  {
    if n > 0 {
      ValueSame(d, e, n - 1);
    }
  }

  lemma {:induction false} ValueZeros(d: seq<int>, lo: nat, hi: nat)
    requires lo <= hi <= |d| && forall i | lo <= i < hi :: d[i] == 0
    ensures Value(d, hi) == Value(d, lo)
  {
    if lo < hi {
      ValueZeros(d, lo, hi - 1);
    }
  }

  // ---------- splitting a number at a bit ----------

  /** The low bits of s up to a position, extended by the next bits. */
  lemma LowBits(s: nat, bit: nat, n: nat)
    ensures s % Pow2(bit + n) == s % Pow2(bit) + Bits(s, bit, n) * Pow2(bit)
  {
    Pow2Sum(bit, n);
    DivDiv(s, Pow2(bit), Pow2(n));
  }

  lemma SkipStep(s: nat, bit: nat, carry: nat, value: int)
    requires value + carry * Pow2(bit) == s % Pow2(bit) && Bits(s, bit, 1) == carry
    ensures value + carry * Pow2(bit + 1) == s % Pow2(bit + 1)
  {
    LowBits(s, bit, 1);
    assert carry * Pow2(bit + 1) == carry * Pow2(bit) + carry * Pow2(bit) by {
      assert Pow2(bit + 1) == 2 * Pow2(bit);
    }
  }

  /** A digit takes up the bits of its window and the carry in, and leaves a carry out. */
  lemma WindowStep(s: nat, bit: nat, n: nat, carry: nat, next: nat, value: int)
    requires value + carry * Pow2(bit) == s % Pow2(bit)
    ensures var word := Bits(s, bit, n) + carry - next * Pow2(n);
            value + word * Pow2(bit) + next * Pow2(bit + n) == s % Pow2(bit + n)
  {
    hide Pow2, Bits;
    LowBits(s, bit, n);
    Pow2Sum(bit, n);
    var b, p, q := Bits(s, bit, n), Pow2(bit), Pow2(n);
    assert (b + carry - next * q) * p == b * p + carry * p - next * (p * q) by {
      assert (next * q) * p == next * (p * q);
      Spread(b, carry, next * q, p);
    }
  }

  lemma Spread(a: int, b: int, c: int, p: int)
    ensures (a + b - c) * p == a * p + b * p - c * p
  {}

  lemma Parity(x: nat, h: nat)
    requires h > 0
    ensures x % (2 * h) % 2 == x % 2
  {
    DivDiv(x, 2, h);
    var k := x / 2 % h;
    assert (x % 2 + k * 2) % 2 == x % 2;
  }

  lemma LowestBit(s: nat, bit: nat, n: nat)
    requires n > 0
    ensures Bits(s, bit, n) % 2 == Bits(s, bit, 1)
  {
    assert Pow2(n) == 2 * Pow2(n - 1) && Pow2(1) == 2;
    hide Pow2;
    Parity(s / Pow2(bit), Pow2(n - 1));
  }

  /** With the lowest bit differing from the carry, the digit is odd and below half the window. */
  lemma DigitBound(word: nat, w: nat)
    requires w >= 2 && word < Pow2(w) && word % 2 == 1
    ensures var next := word / Pow2(w - 1) % 2;
            var digit := word - next * Pow2(w);
            digit % 2 == 1 && -(Pow2(w - 1) as int) < digit < Pow2(w - 1) && (next == 0 <==> word < Pow2(w - 1))
  {
    var h := Pow2(w - 1);
    assert Pow2(w) == 2 * h && h == 2 * Pow2(w - 2);
    if word < h {
      Euclid(word, h, 0, word);
    } else {
      Euclid(word, h, 1, word - h);
    }
  }

  /** At the end of a number whose top bit is clear no carry is left. */
  lemma LastWindow(s: nat, bit: nat, n: nat, w: nat, carry: nat)
    requires 0 < n <= w && w >= 2 && s < Pow2(bit + n - 1) && carry <= 1 && Bits(s, bit, 1) != carry
    ensures Bits(s, bit, n) + carry < Pow2(w - 1)
  {
    hide Pow2, Bits;
    TopClear(s, bit, n);
    LowestBit(s, bit, n);
    Pow2Grows(n - 1, w - 1);
    Pow2Double(n - 1);
    Pow2Double(w - 1);
    var b := Bits(s, bit, n);
    assert b < Pow2(n - 1) && b % 2 != carry;
    if n >= 2 && carry == 1 {
      assert b % 2 == 0 && b + 1 != 2 * Pow2(n - 2);
    }
  }

  lemma Quotient(s: nat, p: nat, q: nat)
    requires p > 0 && s < p * q
    ensures s / p < q
  {
    var x := s / p;
    assert p * x <= s;
    assert x >= q ==> p * x >= p * q by {
      if x >= q {
        Scale(p, q, x);
      }
    }
  }

  lemma TopClear(s: nat, bit: nat, n: nat)
    requires n > 0 && s < Pow2(bit + n - 1)
    ensures Bits(s, bit, n) < Pow2(n - 1)
  {
    hide Pow2;
    Pow2Sum(bit, n - 1);
    Pow2Grows(n - 1, n);
    Quotient(s, Pow2(bit), Pow2(n - 1));
    var x := s / Pow2(bit);
    Euclid(x, Pow2(n), 0, x);
  }

  lemma Scale(a: nat, b: nat, c: nat)
    requires b <= c
    ensures a * b <= a * c
  {}

  // ---------- the digits ----------

  /** A digit is zero or odd and less than half the window in size. */
  ghost predicate IsDigit(x: int, w: nat)
    requires w > 0
  {
    x == 0 || (x % 2 == 1 && -(Pow2(w - 1) as int) < x < Pow2(w - 1))
  }

  ghost predicate Digits(d: seq<int>, w: nat)
    requires w > 0
  {
    forall i | 0 <= i < |d| :: IsDigit(d[i], w)
  }

  /** Nonzero digits are at least w apart. */
  ghost predicate Sparse(d: seq<int>, w: nat)
  {
    forall i, j | 0 <= i < j < |d| && d[i] != 0 && d[j] != 0 :: j - i >= w
  }

  /** The number converted: a scalar with its top bit set is replaced by its negative. */
  function Magnitude(a: nat): (s: nat)
    requires a < ORDER
  {
    if Bits(a, 255, 1) == 1 then ORDER - a else a
  }

  /** The number fits the digits asked for; for 256 digits every scalar does. */
  ghost predicate Fits(s: nat, len: nat)
  {
    s == 0 || (len > 0 && s < Pow2(len - 1))
  }

  /** The digits below bit, with the carry, are the low bits of s. */
  ghost predicate Converted(d: seq<int>, w: nat, s: nat, bit: nat, carry: nat)
    requires w > 0
  {
    && bit <= |d| && carry <= 1 && (forall i | bit <= i < |d| :: d[i] == 0)
    && Value(d, bit) + carry * Pow2(bit) == s % Pow2(bit)
    && Digits(d, w) && Sparse(d, w) && (forall i | 0 <= i < bit && d[i] != 0 :: i + w <= bit || bit == |d|)
    && (bit == |d| ==> carry == 0)
  }

  lemma TopBit(s: nat, len: nat)
    requires len > 0 && Fits(s, len)
    ensures Bits(s, len - 1, 1) == 0
  {
    assert s < Pow2(len - 1);
    Euclid(s, Pow2(len - 1), 0, s);
  }

  lemma ConvertSkip(d: seq<int>, w: nat, s: nat, bit: nat, carry: nat)
    requires w >= 2 && Converted(d, w, s, bit, carry) && bit < |d| && Bits(s, bit, 1) == carry && Fits(s, |d|)
    ensures Converted(d, w, s, bit + 1, carry)
  {
    hide Pow2, Bits, Digits, Sparse, Fits;
    SkipStep(s, bit, carry, Value(d, bit));
    TopBit(s, |d|);
  }

  lemma ConvertDigit(d: seq<int>, w: nat, s: nat, bit: nat, carry: nat, n: nat, word: nat, next: nat)
    requires w >= 2 && Converted(d, w, s, bit, carry) && bit < |d| && Bits(s, bit, 1) != carry && Fits(s, |d|)
    requires n == (if w > |d| - bit then |d| - bit else w) && word == Bits(s, bit, n) + carry && next == word / Pow2(w - 1) % 2
    ensures Converted(d[bit := word - next * Pow2(w)], w, s, bit + n, next)
  {
    var digit := word - next * Pow2(w);
    var e := d[bit := digit];
    WordBound(s, bit, n, w, carry);
    DigitBound(word, w);
    if bit + n == |d| {
      LastCarry(s, bit, n, w, carry, |d|);
    }
    hide Pow2, Bits, Fits, IsDigit;
    WindowStep(s, bit, n, carry, next, Value(d, bit));
    ValueSame(d, e, bit);
    ValueZeros(e, bit + 1, bit + n);
    NextIsZero(n, w, next);
    DigitsMore(d, bit, digit, w);
    SparseMore(d, bit, digit, w);
  }

  lemma NextIsZero(n: nat, w: nat, next: nat)
    requires n < w ==> next == 0
    requires n <= w
    ensures next * Pow2(n) == next * Pow2(w)
  {}

  lemma WordBound(s: nat, bit: nat, n: nat, w: nat, carry: nat)
    requires 0 < n <= w && carry <= 1 && Bits(s, bit, 1) != carry
    ensures Bits(s, bit, n) + carry < Pow2(w) && (Bits(s, bit, n) + carry) % 2 == 1
  {
    hide Pow2, Bits;
    LowestBit(s, bit, n);
    Pow2Grows(n, w);
    Pow2Double(n);
    var b := Bits(s, bit, n);
    assert b % 2 != carry;
    if carry == 1 {
      assert b % 2 == 0 && b + 1 != 2 * Pow2(n - 1);
    }
  }

  /** The last window leaves no carry. */
  lemma LastCarry(s: nat, bit: nat, n: nat, w: nat, carry: nat, len: nat)
    requires 0 < n <= w && w >= 2 && bit + n == len && Fits(s, len) && carry <= 1 && Bits(s, bit, 1) != carry
    ensures var word := Bits(s, bit, n) + carry; word < Pow2(w - 1) && word / Pow2(w - 1) % 2 == 0
  {
    LastWindow(s, bit, n, w, carry);
    var word := Bits(s, bit, n) + carry;
    Euclid(word, Pow2(w - 1), 0, word);
  }

  lemma DigitsMore(d: seq<int>, bit: nat, digit: int, w: nat)
    requires w > 0 && bit < |d| && Digits(d, w) && IsDigit(digit, w)
    ensures Digits(d[bit := digit], w)
  {}

  lemma SparseMore(d: seq<int>, bit: nat, digit: int, w: nat)
    requires bit < |d| && Sparse(d, w) && (forall i | bit <= i < |d| :: d[i] == 0)
    requires forall i | 0 <= i < bit && d[i] != 0 :: i + w <= bit
    ensures Sparse(d[bit := digit], w)
  {}

  // ---------- the form is unique ----------

  lemma {:induction false} ValueDrop(d: seq<int>, m: nat, n: nat)
    requires m <= n <= |d|
    ensures Value(d, n) == Value(d, m) + Pow2(m) * Value(d[m..], n - m)
    decreases n
  {
    hide Pow2;
    if m < n {
      ValueDrop(d, m, n - 1);
      Pow2Sum(m, n - 1 - m);
      var t := d[m..];
      assert t[n - 1 - m] == d[n - 1];
      Scaled(Pow2(m), Value(t, n - 1 - m), d[n - 1], Pow2(n - 1 - m));
    }
  }

  lemma Scaled(p: int, v: int, x: int, q: int)
    ensures p * (v + x * q) == p * v + x * (p * q)
  {}

  lemma ValueTail(d: seq<int>)
    requires |d| > 0
    ensures Value(d, |d|) == d[0] + 2 * Value(d[1..], |d| - 1)
  {
    ValueDrop(d, 1, |d|);
    assert Pow2(0) == 1 && Pow2(1) == 2;
    assert Value(d, 1) == Value(d, 0) + d[0] * Pow2(0);
  }

  /** After a nonzero first digit the rest of its window is zero. */
  lemma ValueWindow(d: seq<int>, w: nat) returns (k: int)
    requires |d| > 0 && w > 0 && Sparse(d, w) && d[0] != 0
    ensures Value(d, |d|) == d[0] + Pow2(w) * k
  {
    var m := if w < |d| then w else |d|;
    ValueZeros(d, 1, m);
    assert Pow2(0) == 1;
    assert Value(d, 1) == Value(d, 0) + d[0] * Pow2(0);
    ValueDrop(d, m, |d|);
    k := if w < |d| then Value(d[m..], |d| - m) else 0;
  }

  lemma SameModulo(x: int, y: int, p: int, j: int, k: int)
    requires -p < x - y < p && x + p * j == y + p * k
    ensures x == y
  {
    assert x - y == p * (k - j);
    NoMultiple(p, k - j);
  }

  lemma NoMultiple(p: int, m: int)
    requires -p < p * m < p
    ensures m == 0
  {
    if m > 0 {
      Scale(p, 1, m);
    } else if m < 0 {
      Scale(p, 1, -m);
      Opposite(p, m);
    }
  }

  lemma Opposite(p: int, m: int)
    ensures p * (-m) == -(p * m)
  {  }

  lemma FirstSame(d: seq<int>, e: seq<int>, w: nat)
    requires |d| == |e| > 0 && w >= 2 && Digits(d, w) && Digits(e, w) && Sparse(d, w) && Sparse(e, w)
    requires Value(d, |d|) == Value(e, |e|)
    ensures d[0] == e[0]
  {
    hide Sparse, Value;
    ValueTail(d);
    ValueTail(e);
    assert IsDigit(d[0], w) && IsDigit(e[0], w) && d[0] % 2 == e[0] % 2;
    if d[0] != 0 {
      var j := ValueWindow(d, w);
      var k := ValueWindow(e, w);
      assert Pow2(w) == 2 * Pow2(w - 1);
      SameModulo(d[0], e[0], Pow2(w), j, k);
    }
  }

  lemma Tails(d: seq<int>, w: nat)
    requires |d| > 0 && w > 0 && Digits(d, w) && Sparse(d, w)
    ensures Digits(d[1..], w) && Sparse(d[1..], w)
  {
    var t := d[1..];
    forall i, j | 0 <= i < j < |t| && t[i] != 0 && t[j] != 0 ensures j - i >= w {
      assert d[i + 1] == t[i] && d[j + 1] == t[j];
    }
  }

  /** A number has one such form only. */
  lemma {:induction false} Unique(d: seq<int>, e: seq<int>, w: nat)
    requires |d| == |e| && w >= 2 && Digits(d, w) && Digits(e, w) && Sparse(d, w) && Sparse(e, w)
    requires Value(d, |d|) == Value(e, |e|)
    ensures d == e
  {
    if |d| > 0 {
      FirstSame(d, e, w);
      ValueTail(d);
      ValueTail(e);
      Tails(d, w);
      Tails(e, w);
      Unique(d[1..], e[1..], w);
      assert d == [d[0]] + d[1..] && e == [e[0]] + e[1..];
    }
  }

  // ---------- how many digits are set ----------

  /** The number of nonzero digits among the first n. */
  ghost function Count(d: seq<int>, n: nat): (c: nat)
    requires n <= |d|
    ensures c <= n
  {
    if n == 0 then 0 else Count(d, n - 1) + if d[n - 1] != 0 then 1 else 0
  }

  /** size is one past the last nonzero digit. */
  ghost predicate Ends(d: seq<int>, size: nat)
  {
    size <= |d| && (size > 0 ==> d[size - 1] != 0) && forall i | size <= i < |d| :: d[i] == 0
  }

  lemma {:induction false} CountZeros(d: seq<int>, lo: nat, hi: nat)
    requires lo <= hi <= |d| && forall i | lo <= i < hi :: d[i] == 0
    ensures Count(d, hi) == Count(d, lo)
  {
    if lo < hi {
      CountZeros(d, lo, hi - 1);
    }
  }

  /** The digits set are size of them only if there is at most one. */
  lemma CountIff(d: seq<int>, w: nat, size: nat)
    requires w >= 2 && Sparse(d, w) && Ends(d, size)
    ensures Count(d, |d|) == size <==> size <= 1
  {
    CountZeros(d, size, |d|);
    if size > 1 {
      assert d[size - 2] == 0;
      assert Count(d, size - 1) == Count(d, size - 2);
    } else if size == 1 {
      assert Count(d, 1) == Count(d, 0) + 1;
    }
  }

  /** One digit, the rest zero. */
  ghost function Single(x: int, at: nat, len: nat): (d: seq<int>)
    requires at < len
  {
    seq(len, _ => 0)[at := x]
  }

  lemma SingleForm(x: int, at: nat, len: nat, w: nat)
    requires at < len && w >= 2 && IsDigit(x, w)
    ensures var d := Single(x, at, len); Value(d, len) == x * Pow2(at) && Digits(d, w) && Sparse(d, w)
  {
    var d := Single(x, at, len);
    ValueZeros(d, 0, at);
    ValueZeros(d, at + 1, len);
    assert Value(d, at + 1) == Value(d, at) + d[at] * Pow2(at);
  }

  /** The form ends at its first digit exactly for zero and the odd numbers below half the window. */
  lemma ShortIff(d: seq<int>, w: nat, s: int, size: nat)
    requires w >= 2 && Digits(d, w) && Sparse(d, w) && Value(d, |d|) == s && Ends(d, size)
    ensures size <= 1 <==> IsDigit(s, w)
  {
    ValueZeros(d, size, |d|);
    if size <= 1 {
      assert Pow2(0) == 1;
      assert size == 1 ==> Value(d, 1) == Value(d, 0) + d[0] * Pow2(0) && IsDigit(d[0], w);
    } else if IsDigit(s, w) {
      assert Pow2(0) == 1;
      SingleForm(s, 0, |d|, w);
      Unique(d, Single(s, 0, |d|), w);
      assert false;
    }
  }

  /** 2 has one nonzero digit, and it is the second. */
  lemma CountExample(d: seq<int>, w: nat, size: nat)
    requires w >= 2 && |d| == 256 && Digits(d, w) && Sparse(d, w) && Value(d, |d|) == 2 && Ends(d, size)
    ensures size == 2 && Count(d, |d|) == 1
  {
    assert Pow2(0) == 1 && Pow2(1) == 2;
    Pow2Grows(1, w - 1);
    SingleForm(1, 1, 256, w);
    Unique(d, Single(1, 1, 256), w);
    assert d[1] == 1 && size == 2;
    CountZeros(d, 2, 256);
    assert Count(d, 2) == Count(d, 1) + 1 && Count(d, 1) == Count(d, 0);
  }

  // ---------- how long the form is ----------

  /** Digits whose windows end by m have together less than half of 2^m. */
  lemma {:induction false} LowValue(d: seq<int>, w: nat, m: nat, n: nat)
    requires w >= 2 && Digits(d, w) && Sparse(d, w) && n <= |d| && n <= m && m > 0
    requires forall i | 0 <= i < n && d[i] != 0 :: i + w <= m
    ensures -(Pow2(m - 1) as int) < Value(d, n) < Pow2(m - 1)
    decreases n
  {
    if n > 0 {
      var x := d[n - 1];
      if x == 0 {
        LowValue(d, w, m, n - 1);
      } else {
        assert IsDigit(x, w);
        if n > 1 {
          LowValue(d, w, n - 1, n - 1);
        }
        hide Value, Digits, Sparse;
        assert Value(d, n) == Value(d, n - 1) + x * Pow2(n - 1) by {
          ValueStep(d, n);
        }
        assert n == 1 ==> Value(d, 0) == 0 by {
          ValueNone(d);
        }
        assert -(Pow2(n - 1) as int) < Value(d, n - 1) < Pow2(n - 1) by {
          if n > 1 {
            Pow2Grows(n - 2, n - 1);
          }
        }
        TopDigit(x, w, n - 1, Value(d, n - 1));
        Pow2Grows(w - 1 + (n - 1), m - 1);
      }
    }
  }

  lemma ValueStep(d: seq<int>, n: nat)
    requires 0 < n <= |d|
    ensures Value(d, n) == Value(d, n - 1) + d[n - 1] * Pow2(n - 1)
  {}

  lemma ValueNone(d: seq<int>)
    ensures Value(d, 0) == 0
  {}

  lemma TopDigit(x: int, w: nat, i: nat, v: int)
    requires w > 0 && -(Pow2(w - 1) as int) < x < Pow2(w - 1) && -(Pow2(i) as int) < v < Pow2(i)
    ensures -(Pow2(w - 1 + i) as int) < v + x * Pow2(i) < Pow2(w - 1 + i)
  {
    Pow2Sum(w - 1, i);
    hide Pow2;
    Between(x, Pow2(w - 1), Pow2(i));
  }

  lemma Between(x: int, h: int, p: nat)
    requires -h < x < h
    ensures -(h * p) + p <= x * p <= h * p - p
  {
    Raise(x, h - 1, p);
    Raise(1 - h, x, p);
    assert (h - 1) * p == h * p - p && (1 - h) * p == p - h * p;
  }

  lemma Raise(x: int, y: int, p: nat)
    requires x <= y
    ensures x * p <= y * p
  {}

  /** One past the last digit is at most one more than the number of bits. */
  lemma SizeBound(d: seq<int>, w: nat, size: nat, b: nat)
    requires w >= 2 && Digits(d, w) && Sparse(d, w) && Ends(d, size)
    requires -(Pow2(b) as int) < Value(d, |d|) < Pow2(b)
    ensures size <= b + 1
  {
    if size > b + 1 {
      var t := size - 1;
      ValueZeros(d, size, |d|);
      LowValue(d, w, t, t);
      ValueStep(d, size);
      hide Digits, Sparse, Value;
      Pow2Double(t);
      Pow2Grows(b, t - 1);
      assert d[t] >= 1 || d[t] <= -1;
      if d[t] >= 1 {
        Raise(1, d[t], Pow2(t));
      } else {
        Raise(d[t], -1, Pow2(t));
      }
      assert false;
    }
  }

  // ---------- 256 digits are enough ----------

  /** Every scalar fits 256 digits. */
  lemma AlwaysFits(a: nat)
    requires a < ORDER
    ensures Fits(Magnitude(a), 256) && (Bits(a, 255, 1) == 1 <==> a >= Pow2(255))
  {
    Pow2Of255();
    assert Pow2(1) == 2 by {
      assert Pow2(0) == 1;
    }
    hide Pow2;
    var p := Pow2(255);
    if a < p {
      Euclid(a, p, 0, a);
    } else {
      Euclid(a, p, 1, a - p);
    }
  }

  // ---------- the loop ----------

  lemma Factor(sign: int, x: int, p: int, v: int)
    ensures sign * v + (sign * x) * p == sign * (v + x * p)
  {}

  lemma {:induction false} ValueSigned(d: seq<int>, e: seq<int>, sign: int, n: nat)
    requires n <= |d| && n <= |e| && forall i | 0 <= i < n :: e[i] == sign * d[i]
    ensures Value(e, n) == sign * Value(d, n)
  {
    hide Pow2;
    if n > 0 {
      ValueSigned(d, e, sign, n - 1);
      Factor(sign, d[n - 1], Pow2(n - 1), Value(d, n - 1));
    }
  }

  lemma MagnitudeIs(a: nat, s: nat)
    requires a < ORDER && s == if Bits(a, 255, 1) == 1 then ORDER - a else a
    ensures Magnitude(a) == s
  {}

  lemma Start(d: seq<int>, w: nat, s: nat)
    requires w > 0 && (forall i | 0 <= i < |d| :: d[i] == 0) && Fits(s, |d|)
    ensures Converted(d, w, s, 0, 0)
  {
    assert Pow2(0) == 1;
  }

  lemma DigitNotZero(d: seq<int>, w: nat, s: nat, bit: nat, carry: nat, n: nat, word: nat, next: nat)
    requires w >= 2 && Converted(d, w, s, bit, carry) && bit < |d| && Bits(s, bit, 1) != carry
    requires n == (if w > |d| - bit then |d| - bit else w) && word == Bits(s, bit, n) + carry && next == word / Pow2(w - 1) % 2
    ensures word - next * Pow2(w) != 0
  {
    WordBound(s, bit, n, w, carry);
    DigitBound(word, w);
  }

  /** When all bits are converted the digits have the value of the number. */
  lemma Finished(d: seq<int>, w: nat, s: nat, carry: nat)
    requires w > 0 && Converted(d, w, s, |d|, carry) && Fits(s, |d|)
    ensures Value(d, |d|) == s && Digits(d, w) && Sparse(d, w)
  {
    hide Pow2;
    assert carry * Pow2(|d|) == 0;
    if s > 0 {
      Pow2Grows(|d| - 1, |d|);
    }
    Euclid(s, Pow2(|d|), 0, s);
  }

  /** Turning all signs keeps digits digits and their distances. */
  lemma SignedDigits(d: seq<int>, e: seq<int>, sign: int, w: nat)
    requires w > 0 && |e| == |d| && (sign == 1 || sign == -1) && (forall i | 0 <= i < |d| :: e[i] == sign * d[i])
    requires Digits(d, w) && Sparse(d, w)
    ensures Digits(e, w) && Sparse(e, w)
  {
    hide Pow2;
    forall i | 0 <= i < |e| ensures IsDigit(e[i], w) {
      assert IsDigit(d[i], w);
    }
  }

  lemma SmallIff(s: nat, w: nat)
    requires w >= 2
    ensures IsDigit(s, w) <==> s == 0 || (s % 2 == 1 && s < Pow2(w - 1))
  {}

  /**
   The digits of a scalar: their value is the scalar or the scalar minus the group order, each nonzero
   digit is odd and small, and nonzero digits are at least w apart. The result is one past the last one,
   which is how many there are only when the number is zero or odd and below half the window.
   */
  method EcmultWnaf(wnaf: array<int>, len: nat, a: nat, w: nat) returns (size: nat)
    requires len <= 256 && wnaf.Length == len && a < ORDER && 2 <= w <= 31 && Fits(Magnitude(a), len)
    modifies wnaf
    ensures Value(wnaf[..], len) == if Bits(a, 255, 1) == 1 then a - ORDER else a
    ensures Digits(wnaf[..], w) && Sparse(wnaf[..], w)
    ensures Ends(wnaf[..], size) && forall b: nat | Magnitude(a) < Pow2(b) :: size <= b + 1
    ensures Count(wnaf[..], len) == size <==> Magnitude(a) == 0 || (Magnitude(a) % 2 == 1 && Magnitude(a) < Pow2(w - 1))
  {
    hide Pow2, Bits, Fits, Digits, Sparse, Converted, Magnitude;
    var s, sign := a, 1;
    for i := 0 to len
      invariant forall j | 0 <= j < i :: wnaf[j] == 0
    {
      wnaf[i] := 0;
    }
    if Bits(a, 255, 1) == 1 {
      s, sign := ORDER - a, -1;
    }
    ghost var d: seq<int> := seq(len, _ => 0);
    MagnitudeIs(a, s);
    Start(d, w, s);
    size := 0;
    var bit: nat, carry: nat := 0, 0;
    while bit < len
      invariant bit <= len == |d| && Converted(d, w, s, bit, carry)
      invariant forall i | 0 <= i < len :: wnaf[i] == sign * d[i]
      invariant size <= bit && (size > 0 ==> d[size - 1] != 0) && forall i | size <= i < len :: d[i] == 0
      decreases len - bit
    {
      if Bits(s, bit, 1) == carry {
        ConvertSkip(d, w, s, bit, carry);
        bit := bit + 1;
        continue;
      }
      var now := w;
      if now > len - bit {
        now := len - bit;
      }
      var word := Bits(s, bit, now) + carry;
      var next := word / Pow2(w - 1) % 2;
      var digit := word - next * Pow2(w);
      ConvertDigit(d, w, s, bit, carry, now, word, next);
      DigitNotZero(d, w, s, bit, carry, now, word, next);
      carry := next;
      wnaf[bit] := sign * digit;
      d := d[bit := digit];
      size := bit + 1;
      bit := bit + now;
    }
    Finished(d, w, s, carry);
    ValueSigned(d, wnaf[..], sign, len);
    SignedDigits(d, wnaf[..], sign, w);
    ghost var e := wnaf[..];
    assert Ends(d, size) && Ends(e, size);
    CountIff(e, w, size);
    ShortIff(d, w, s, size);
    SmallIff(s, w);
    forall b: nat | s < Pow2(b) ensures size <= b + 1 {
      SizeBound(d, w, size, b);
    }
  }
}
