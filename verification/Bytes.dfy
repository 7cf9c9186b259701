/** Bytes, and the minimal big-endian form of a length, as both RLP codecs write it. */
module Bytes {

  newtype Byte = b: int | 0 <= b < 256

  datatype Option<+T> = None | Some(value: T)

  const TWO63: nat := 0x8000_0000_0000_0000
  const TWO64: nat := 0x1_0000_0000_0000_0000

  /** The big-endian bytes of n without leading zeros (empty for 0), as big.Int.Bytes gives them. */
  function BigEndian(n: nat): (s: seq<Byte>)
  {
    if n == 0 then [] else BigEndian(n / 256) + [(n % 256) as Byte]
  }

  function FromBigEndian(s: seq<Byte>): (n: nat)
  {
    if s == [] then 0 else FromBigEndian(s[..|s| - 1]) * 256 + s[|s| - 1] as nat
  }

  lemma {:induction false} BigEndianRoundTrip(n: nat)
    ensures FromBigEndian(BigEndian(n)) == n
    ensures n == 0 <==> BigEndian(n) == []
    ensures n > 0 ==> BigEndian(n)[0] != 0
  {
    if n > 0 {
      BigEndianRoundTrip(n / 256);
      assert BigEndian(n)[..|BigEndian(n)| - 1] == BigEndian(n / 256);
    }
  }

  /** Minimal form is the only form without a leading zero. */
  lemma {:induction false} FromBigEndianRoundTrip(s: seq<Byte>)
    requires s == [] || s[0] != 0
    ensures BigEndian(FromBigEndian(s)) == s
    ensures s != [] ==> FromBigEndian(s) > 0
  {
    if |s| > 0 {
      var front, last := s[..|s| - 1], s[|s| - 1];
      FromBigEndianRoundTrip(front);
      var n := FromBigEndian(s);
      assert n / 256 == FromBigEndian(front) && n % 256 == last as int;
      assert s == front + [last];
    }
  }

  lemma OneByte(b: Byte)
    ensures FromBigEndian([b]) == b as nat
  {
    assert [b][..0] == [];
  }

  function Pow256(k: nat): (p: nat)
    ensures p > 0
  {
    if k == 0 then 1 else 256 * Pow256(k - 1)
  }

  lemma {:induction false} BigEndianBound(s: seq<Byte>)
    ensures FromBigEndian(s) < Pow256(|s|)
  {
    if s != [] {
      BigEndianBound(s[..|s| - 1]);
    }
  }

  lemma {:induction false} BigEndianSize(n: nat, k: nat)
    ensures |BigEndian(n)| <= k <==> n < Pow256(k)
  {
    if n > 0 && k > 0 {
      BigEndianSize(n / 256, k - 1);
    }
  }

  lemma BigEndianSize8(n: nat)
    ensures |BigEndian(n)| <= 8 <==> n < TWO64
  {
    BigEndianSize(n, 8);
    Pow256Of8();
  }

  lemma Pow256Of8()
    ensures Pow256(7) == 0x100_0000_0000_0000 && Pow256(8) == TWO64
  {
    assert Pow256(2) == 0x1_0000;
    assert Pow256(4) == 0x1_0000_0000;
    assert Pow256(6) == 0x1_0000_0000_0000;
  }

  /** Leading zeros do not change the value: the left padding of a fixed-width buffer. */
  lemma {:induction false} LeadingZero(s: seq<Byte>)
    ensures FromBigEndian([0] + s) == FromBigEndian(s)
  {
    if s == [] {
      assert FromBigEndian([0]) == FromBigEndian([0][..0]) * 256 + 0;
    } else {
      LeadingZero(s[..|s| - 1]);
      assert ([0] + s)[..|s|] == [0] + s[..|s| - 1];
    }
  }

  lemma {:induction false} ZeroFill(k: nat, b: seq<Byte>)
    ensures FromBigEndian(seq(k, _ => 0 as Byte) + b) == FromBigEndian(b)
  {
    if k == 0 {
      assert seq(k, _ => 0 as Byte) + b == b;
    } else {
      ZeroFill(k - 1, b);
      LeadingZero(seq(k - 1, _ => 0 as Byte) + b);
      assert seq(k, _ => 0 as Byte) + b == [0] + (seq(k - 1, _ => 0 as Byte) + b);
    }
  }

  /** s lies in data at index `at`. */
  ghost predicate DataAt(data: seq<Byte>, at: nat, s: seq<Byte>)
  {
    at + |s| <= |data| && forall i | 0 <= i < |s| :: s[i] == data[at + i]
  }

  lemma DataSplit(data: seq<Byte>, at: nat, s: seq<Byte>, t: seq<Byte>)
    requires DataAt(data, at, s + t)
    ensures DataAt(data, at, s) && DataAt(data, at + |s|, t)
  {
    forall i | 0 <= i < |s| ensures s[i] == data[at + i] {
      assert s[i] == (s + t)[i];
    }
    forall i | 0 <= i < |t| ensures t[i] == data[at + |s| + i] {
      assert t[i] == (s + t)[|s| + i];
    }
  }

  lemma Regroup<T>(a: seq<T>, b: seq<T>, c: seq<T>)
    ensures (a + b) + c == a + (b + c)
  {}
}
