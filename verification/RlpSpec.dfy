/** The recursive definition of RLP (Appendix B of the Yellow Paper). */
module RlpSpec {
  import opened Bytes

  datatype Item = Str(bytes: seq<Byte>) | List(items: seq<Item>)

  /** A tag byte plus a number, truncated to a byte. */
  function Tag(tag: Byte, n: nat): Byte
  {
    ((tag as nat + n) % 256) as Byte
  }

  /** A header: a small size is folded into the tag, a large one follows the tag in big-endian form. */
  function Header(smallTag: Byte, largeTag: Byte, size: nat): (h: seq<Byte>)
    ensures |h| > 0
  {
    if size < 56 then [Tag(smallTag, size)]
    else [Tag(largeTag, |BigEndian(size)|)] + BigEndian(size)
  }

  function EncodeString(b: seq<Byte>): (e: seq<Byte>)
    ensures |e| > 0
  {
    if |b| == 1 && b[0] < 0x80 then b else Header(0x80, 0xB7, |b|) + b
  }

  function Encode(x: Item): (e: seq<Byte>)
    ensures |e| > 0
    decreases x, 1
  {
    match x
    case Str(b) => EncodeString(b)
    case List(xs) => Header(0xC0, 0xF7, |EncodeAll(xs)|) + EncodeAll(xs)
  }

  function EncodeAll(xs: seq<Item>): (e: seq<Byte>)
    decreases xs, 0
  {
    if xs == [] then [] else Encode(xs[0]) + EncodeAll(xs[1..])
  }

  lemma {:induction false} EncodeAllConcat(xs: seq<Item>, ys: seq<Item>)
    ensures EncodeAll(xs + ys) == EncodeAll(xs) + EncodeAll(ys)
  {
    if xs == [] {
      assert xs + ys == ys;
    } else {
      assert (xs + ys)[1..] == xs[1..] + ys;
      EncodeAllConcat(xs[1..], ys);
    }
  }

  /** The first bytes of a string, by its size: itself, 0x80 up, or 0xB8 and 0xB9 with the size behind. */
  lemma StringForms(b: seq<Byte>)
    ensures var e := Encode(Str(b));
            && (|b| == 1 && b[0] < 0x80 ==> e == b)
            && (|b| < 56 && !(|b| == 1 && b[0] < 0x80) ==> e == [(0x80 + |b|) as Byte] + b)
            && (56 <= |b| < 256 ==> e == [0xB8, |b| as Byte] + b)
            && (256 <= |b| < 65536 ==> e == [0xB9, (|b| / 256) as Byte, (|b| % 256) as Byte] + b)
  {
    hide Header;
    HeaderForms(0x80, 0xB7, |b|);
  }

  /** The first bytes of a list, by the size of what it holds. */
  lemma ListForms(xs: seq<Item>)
    ensures var e, p := Encode(List(xs)), EncodeAll(xs);
            && (|p| < 56 ==> e == [(0xC0 + |p|) as Byte] + p)
            && (56 <= |p| < 256 ==> e == [0xF8, |p| as Byte] + p)
            && (256 <= |p| < 65536 ==> e == [0xF9, (|p| / 256) as Byte, (|p| % 256) as Byte] + p)
  {
    hide Header, EncodeAll;
    HeaderForms(0xC0, 0xF7, |EncodeAll(xs)|);
  }

  lemma HeaderForms(smallTag: Byte, largeTag: Byte, size: nat)
    requires smallTag <= 0xC0 && largeTag <= 0xF7
    ensures size < 56 ==> Header(smallTag, largeTag, size) == [smallTag + size as Byte]
    ensures 56 <= size < 256 ==> Header(smallTag, largeTag, size) == [largeTag + 1, size as Byte]
    ensures 256 <= size < 65536 ==> Header(smallTag, largeTag, size) == [largeTag + 2, (size / 256) as Byte, (size % 256) as Byte]
  {
    ShortBigEndian(size);
    hide BigEndian;
  }

  lemma ShortBigEndian(n: nat)
    ensures 0 < n < 256 ==> BigEndian(n) == [n as Byte]
    ensures 256 <= n < 65536 ==> BigEndian(n) == [(n / 256) as Byte, (n % 256) as Byte]
  {
    if 0 < n < 256 {
      assert BigEndian(n / 256) == [];
    } else if 256 <= n < 65536 {
      assert BigEndian(n / 256 / 256) == [];
      assert BigEndian(n / 256) == [(n / 256) as Byte];
    }
  }
}
