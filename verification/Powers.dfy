/** Powers of two. */
module Powers {
  function Pow2(n: nat): (p: nat)
    ensures p > 0
  {
    if n == 0 then 1 else 2 * Pow2(n - 1)
  }

  lemma {:induction false} Pow2Sum(a: nat, b: nat)
    ensures Pow2(a + b) == Pow2(a) * Pow2(b)
  {
    if a > 0 {
      Pow2Sum(a - 1, b);
      assert Pow2(a) * Pow2(b) == 2 * (Pow2(a - 1) * Pow2(b));
    } else {
      assert Pow2(0) * Pow2(b) == Pow2(b);
    }
  }

  lemma {:induction false} Pow2Grows(a: nat, b: nat)
    requires a <= b
    ensures Pow2(a) <= Pow2(b)
  {
    if a < b {
      Pow2Grows(a, b - 1);
    }
  }

  lemma Pow2Double(n: nat)
    ensures Pow2(0) == 1 && (n > 0 ==> Pow2(n) == 2 * Pow2(n - 1))
  {}

  lemma Pow2Of15()
    ensures Pow2(15) == 32768
  {
    assert Pow2(0) == 1;
    assert Pow2(3) == 8;
    hide Pow2;
    Pow2Sum(3, 3);
    Pow2Sum(6, 6);
    Pow2Sum(12, 3);
  }

  lemma Pow2Of255()
    ensures Pow2(255) == 0x8000_0000_0000_0000_0000_0000_0000_0000_0000_0000_0000_0000_0000_0000_0000_0000
  {
    hide Pow2;
    Pow2Of15();
    Pow2Sum(15, 15);
    Pow2Sum(30, 30);
    Pow2Sum(60, 60);
    Pow2Sum(120, 120);
    Pow2Sum(240, 15);
  }
}
