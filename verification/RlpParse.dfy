/**
 The language the streaming decoder accepts, as a pure parser over a window of bytes.
 A parse returns a wire tree: an item together with, for every single byte from 56 to 127,
 whether the input spelled it with a needless 0x81 prefix. Everything else has one spelling.
 */
module RlpParse {
  import opened Bytes
  import opened RlpSpec

  datatype Tree = Leaf(bytes: seq<Byte>, wide: bool) | Node(kids: seq<Tree>)

  /** Only a single byte in 56..127 may be spelled wide. */
  ghost predicate Legal(t: Tree)
    decreases t, 1
  {
    match t
    case Leaf(b, wide) => wide ==> |b| == 1 && 56 <= b[0] < 128
    case Node(ts) => LegalAll(ts)
  }

  ghost predicate LegalAll(ts: seq<Tree>)
    decreases ts, 0
  {
    ts == [] || (Legal(ts[0]) && LegalAll(ts[1..]))
  }

  /** The bytes of a wire tree. */
  function Wire(t: Tree): (s: seq<Byte>)
    ensures |s| > 0
    decreases t, 1
  {
    match t
    case Leaf(b, wide) => if wide then [0x81] + b else EncodeString(b)
    case Node(ts) => Header(0xC0, 0xF7, |WireAll(ts)|) + WireAll(ts)
  }

  function WireAll(ts: seq<Tree>): (s: seq<Byte>)
    decreases ts, 0
  {
    if ts == [] then [] else Wire(ts[0]) + WireAll(ts[1..])
  }

  /** The item a wire tree stands for. */
  function Erase(t: Tree): (x: Item)
    decreases t, 1
  {
    match t
    case Leaf(b, _) => Str(b)
    case Node(ts) => List(EraseAll(ts))
  }

  function EraseAll(ts: seq<Tree>): (xs: seq<Item>)
    ensures |xs| == |ts|
    decreases ts, 0
  {
    if ts == [] then [] else [Erase(ts[0])] + EraseAll(ts[1..])
  }

  /** The spelling the encoder uses. */
  function Plain(x: Item): (t: Tree)
    decreases x, 1
  {
    match x
    case Str(b) => Leaf(b, false)
    case List(xs) => Node(PlainAll(xs))
  }

  function PlainAll(xs: seq<Item>): (ts: seq<Tree>)
    decreases xs, 0
  {
    if xs == [] then [] else [Plain(xs[0])] + PlainAll(xs[1..])
  }

  lemma {:induction false} PlainIsEncode(x: Item)
    ensures Legal(Plain(x)) && Erase(Plain(x)) == x && Wire(Plain(x)) == Encode(x)
    decreases x, 1
  {
    if x.List? {
      PlainIsEncodeAll(x.items);
    }
  }

  lemma {:induction false} PlainIsEncodeAll(xs: seq<Item>)
    ensures LegalAll(PlainAll(xs)) && EraseAll(PlainAll(xs)) == xs && WireAll(PlainAll(xs)) == EncodeAll(xs)
    decreases xs, 0
  {
    if xs != [] {
      PlainIsEncode(xs[0]);
      PlainIsEncodeAll(xs[1..]);
      assert PlainAll(xs)[1..] == PlainAll(xs[1..]);
    }
  }

  // ---------- headers ----------

  datatype Kind = ByteKind | StringKind | ListKind

  /** A value header: its kind, the size of the content, and the number of header bytes. */
  datatype Head = Head(kind: Kind, size: nat, used: nat)

  /** readUint on n bytes: a number of more than one byte has no leading zero. */
  function ReadUint(w: seq<Byte>, n: nat): (r: Option<nat>)
  {
    if n > |w| then None
    else if n > 1 && w[0] == 0 then None
    else Some(FromBigEndian(w[..n]))
  }

  function ReadSize(w: seq<Byte>, n: nat): (r: Option<nat>)
  {
    var size := ReadUint(w, n);
    if size.Some? && size.value >= 56 then size else None
  }

  function ReadKind(w: seq<Byte>): (r: Option<Head>)
    ensures r.Some? ==> 0 < r.value.used <= |w|
    ensures r.Some? && r.value.kind.ByteKind? ==> w[0] < 0x80 && r.value.used == 1 && r.value.size == 0
  {
    if w == [] then None
    else
      var b := w[0] as nat;
      if b < 0x80 then Some(Head(ByteKind, 0, 1))
      else if b < 0xB8 then Some(Head(StringKind, b - 0x80, 1))
      else if b < 0xC0 then Sized(StringKind, w[1..], b - 0xB7)
      else if b < 0xF8 then Some(Head(ListKind, b - 0xC0, 1))
      else Sized(ListKind, w[1..], b - 0xF7)
  }

  function Sized(kind: Kind, w: seq<Byte>, n: nat): (r: Option<Head>)
    ensures r.Some? ==> r.value.used <= 1 + |w|
  {
    var size := ReadSize(w, n);
    if size.Some? then Some(Head(kind, size.value, 1 + n)) else None
  }

  /** The header bytes of a kind, as the encoder writes them. */
  function HeadBytes(kind: Kind, size: nat): (s: seq<Byte>)
  {
    if kind.ListKind? then Header(0xC0, 0xF7, size) else Header(0x80, 0xB7, size)
  }

  /** An accepted header is the canonical one of its kind and size. */
  lemma ReadKindIsCanonical(w: seq<Byte>)
    requires ReadKind(w).Some? && !ReadKind(w).value.kind.ByteKind?
    ensures var h := ReadKind(w).value;
            h.size < TWO64 && w[..h.used] == HeadBytes(h.kind, h.size)
  {
    hide BigEndian, FromBigEndian;
    var h := ReadKind(w).value;
    if h.used == 1 {
      assert w[..1] == [w[0]];
    } else {
      var digits := w[1..h.used];
      assert w[1..][..h.used - 1] == digits;
      assert digits[0] != 0 by {
        if |digits| == 1 {
          OneByte(digits[0]);
          assert digits == [digits[0]];
        }
      }
      FromBigEndianRoundTrip(digits);
      BigEndianSize8(h.size);
      assert w[..h.used] == [w[0]] + digits;
    }
  }

  /** Every canonical header is read back. */
  lemma ReadKindOfHead(kind: Kind, size: nat, rest: seq<Byte>)
    requires !kind.ByteKind? && size < TWO64
    ensures var hd := HeadBytes(kind, size);
            ReadKind(hd + rest) == Some(Head(kind, size, |hd|))
  {
    hide BigEndian, FromBigEndian;
    var hd := HeadBytes(kind, size);
    var w := hd + rest;
    assert w[0] == hd[0];
    if size >= 56 {
      LargeHead(kind, size, rest);
    }
  }

  lemma LargeHead(kind: Kind, size: nat, rest: seq<Byte>)
    requires !kind.ByteKind? && 56 <= size < TWO64
    ensures var hd := HeadBytes(kind, size);
            ReadKind(hd + rest) == Some(Head(kind, size, |hd|))
  {
    hide BigEndian, FromBigEndian, ReadSize;
    var hd, digits := HeadBytes(kind, size), BigEndian(size);
    var w := hd + rest;
    BigEndianRoundTrip(size);
    BigEndianSize8(size);
    assert hd == [hd[0]] + digits;
    assert w[1..] == digits + rest && w[0] == hd[0];
    assert hd[0] as nat == |digits| + if kind.ListKind? then 0xF7 else 0xB7;
    SizeBack(size, rest);
  }

  lemma SizeBack(size: nat, rest: seq<Byte>)
    requires 56 <= size < TWO64
    ensures ReadSize(BigEndian(size) + rest, |BigEndian(size)|) == Some(size)
  {
    hide BigEndian, FromBigEndian;
    var digits := BigEndian(size);
    BigEndianRoundTrip(size);
    BigEndianSize8(size);
    assert (digits + rest)[..|digits|] == digits;
  }

  // ---------- values ----------

  /** One value from the front of the window: its wire tree and the bytes it takes. */
  function Parse(w: seq<Byte>): (r: Option<(Tree, nat)>)
    ensures r.Some? ==> 0 < r.value.1 <= |w|
    decreases |w|, 0
  {
    var head := ReadKind(w);
    if head.None? then None
    else
      var Head(kind, size, used) := head.value;
      if kind.ByteKind? then Some((Leaf([w[0]], false), 1))
      else if used + size > |w| then None
      else
        var content := w[used..used + size];
        if kind.StringKind? then
          if size == 1 && content[0] < 56 then None
          else Some((Leaf(content, size == 1 && content[0] < 128), used + size))
        else
          var kids := ParseAll(content);
          if kids.Some? then Some((Node(kids.value), used + size)) else None
  }

  /** Values until the window is used up. */
  function ParseAll(w: seq<Byte>): (r: Option<seq<Tree>>)
    decreases |w|, 1
  {
    if w == [] then Some([])
    else
      var first := Parse(w);
      if first.None? then None
      else
        var rest := ParseAll(w[first.value.1..]);
        if rest.Some? then Some([first.value.0] + rest.value) else None
  }

  /** Strictness: what is accepted is exactly the spelling of a legal wire tree. */
  lemma {:induction false} ParseSound(w: seq<Byte>)
    requires Parse(w).Some?
    ensures var (t, n) := Parse(w).value; Legal(t) && Wire(t) == w[..n]
    decreases |w|, 0
  {
    hide ReadKind, BigEndian, FromBigEndian;
    var Head(kind, size, used) := ReadKind(w).value;
    if kind.ByteKind? {
      assert w[..1] == [w[0]];
    } else {
      ReadKindIsCanonical(w);
      var content := w[used..used + size];
      assert w[..used + size] == w[..used] + content;
      if kind.ListKind? {
        ParseAllSound(content);
      }
    }
  }

  lemma {:induction false} ParseAllSound(w: seq<Byte>)
    requires ParseAll(w).Some?
    ensures LegalAll(ParseAll(w).value) && WireAll(ParseAll(w).value) == w
    decreases |w|, 1
  {
    hide Parse, Wire, Legal;
    if w != [] {
      var (t, n) := Parse(w).value;
      ParseSound(w);
      ParseAllSound(w[n..]);
      var ts := ParseAll(w).value;
      assert ts[1..] == ParseAll(w[n..]).value;
      assert w == w[..n] + w[n..];
    }
  }

  lemma ParseHeaded(kind: Kind, content: seq<Byte>, rest: seq<Byte>)
    requires !kind.ByteKind? && |content| < TWO64
    ensures var hd := HeadBytes(kind, |content|);
            var w := (hd + content) + rest;
            && ReadKind(w) == Some(Head(kind, |content|, |hd|))
            && |hd| + |content| <= |w|
            && w[|hd|..|hd| + |content|] == content
  {
    var hd := HeadBytes(kind, |content|);
    ReadKindOfHead(kind, |content|, content + rest);
    assert (hd + content) + rest == hd + (content + rest);
  }

  lemma ReadKindOfByte(w: seq<Byte>)
    requires w != [] && w[0] < 0x80
    ensures ReadKind(w) == Some(Head(ByteKind, 0, 1))
  {}

  /** Completeness: the spelling of every legal wire tree is read back, whatever follows it. */
  lemma {:induction false} ParseComplete(t: Tree, rest: seq<Byte>)
    requires Legal(t) && |Wire(t)| < TWO64
    ensures Parse(Wire(t) + rest) == Some((t, |Wire(t)|))
    decreases t, 1
  {
    hide ReadKind, BigEndian, FromBigEndian;
    match t
    case Leaf(b, wide) =>
      LeafComplete(b, wide, rest);
    case Node(ts) =>
      ParseHeaded(ListKind, WireAll(ts), rest);
      ParseAllComplete(ts);
  }

  lemma LeafComplete(b: seq<Byte>, wide: bool, rest: seq<Byte>)
    requires Legal(Leaf(b, wide)) && |Wire(Leaf(b, wide))| < TWO64
    ensures Parse(Wire(Leaf(b, wide)) + rest) == Some((Leaf(b, wide), |Wire(Leaf(b, wide))|))
  {
    hide ReadKind, BigEndian, FromBigEndian, ParseAll;
    if wide || !(|b| == 1 && b[0] < 0x80) {
      assert Wire(Leaf(b, wide)) == HeadBytes(StringKind, |b|) + b;
      ParseHeaded(StringKind, b, rest);
    } else {
      ReadKindOfByte(b + rest);
      assert [(b + rest)[0]] == b;
    }
  }

  lemma {:induction false} ParseAllComplete(ts: seq<Tree>)
    requires LegalAll(ts) && |WireAll(ts)| < TWO64
    ensures ParseAll(WireAll(ts)) == Some(ts)
    decreases ts, 0
  {
    hide Parse, Wire, Legal;
    if ts != [] {
      ParseComplete(ts[0], WireAll(ts[1..]));
      ParseAllComplete(ts[1..]);
      assert WireAll(ts)[|Wire(ts[0])|..] == WireAll(ts[1..]);
      assert ts == [ts[0]] + ts[1..];
    }
  }

  /** Round trip: the encoding of any item, followed by anything, parses to that item alone. */
  lemma ParseEncode(x: Item, rest: seq<Byte>)
    requires |Encode(x)| < TWO64
    ensures Parse(Encode(x) + rest) == Some((Plain(x), |Encode(x)|))
    ensures Erase(Plain(x)) == x
  {
    PlainIsEncode(x);
    ParseComplete(Plain(x), rest);
  }

  ghost predicate Wide(t: Tree)
    decreases t, 1
  {
    match t
    case Leaf(_, wide) => wide
    case Node(ts) => WideAll(ts)
  }

  ghost predicate WideAll(ts: seq<Tree>)
    decreases ts, 0
  {
    ts != [] && (Wide(ts[0]) || WideAll(ts[1..]))
  }

  lemma {:induction false} NotWideIsPlain(t: Tree)
    requires Legal(t) && !Wide(t)
    ensures t == Plain(Erase(t))
    decreases t, 1
  {
    if t.Node? {
      NotWideIsPlainAll(t.kids);
    }
  }

  lemma {:induction false} NotWideIsPlainAll(ts: seq<Tree>)
    requires LegalAll(ts) && !WideAll(ts)
    ensures ts == PlainAll(EraseAll(ts))
    decreases ts, 0
  {
    if ts != [] {
      NotWideIsPlain(ts[0]);
      NotWideIsPlainAll(ts[1..]);
      assert EraseAll(ts)[1..] == EraseAll(ts[1..]);
    }
  }

  /** A wide spelling is strictly longer, so it is never the canonical one. */
  lemma {:induction false} WideIsLonger(t: Tree)
    requires Legal(t) && |Wire(t)| < TWO64
    ensures |Wire(t)| >= |Encode(Erase(t))|
    ensures Wide(t) ==> |Wire(t)| > |Encode(Erase(t))|
    decreases t, 1
  {
    if t.Node? {
      WideIsLongerAll(t.kids);
      HeaderMonotone(|EncodeAll(EraseAll(t.kids))|, |WireAll(t.kids)|);
    }
  }

  lemma {:induction false} WideIsLongerAll(ts: seq<Tree>)
    requires LegalAll(ts) && |WireAll(ts)| < TWO64
    ensures |WireAll(ts)| >= |EncodeAll(EraseAll(ts))|
    ensures WideAll(ts) ==> |WireAll(ts)| > |EncodeAll(EraseAll(ts))|
    decreases ts, 0
  {
    if ts != [] {
      WideIsLonger(ts[0]);
      WideIsLongerAll(ts[1..]);
      assert EraseAll(ts)[1..] == EraseAll(ts[1..]);
    }
  }

  lemma {:induction false} BigEndianMonotone(m: nat, n: nat)
    requires m <= n
    ensures |BigEndian(m)| <= |BigEndian(n)|
  {
    if m > 0 {
      BigEndianMonotone(m / 256, n / 256);
    }
  }

  lemma HeaderMonotone(m: nat, n: nat)
    requires m <= n
    ensures |Header(0xC0, 0xF7, m)| <= |Header(0xC0, 0xF7, n)|
  {
    BigEndianMonotone(m, n);
  }

  /** The accepted bytes are the canonical encoding of the result exactly when nothing in them is wide. */
  lemma CanonicalIffNotWide(w: seq<Byte>)
    requires Parse(w).Some? && |w| < TWO64
    ensures var (t, n) := Parse(w).value; w[..n] == Encode(Erase(t)) <==> !Wide(t)
  {
    var (t, n) := Parse(w).value;
    ParseSound(w);
    if Wide(t) {
      WideIsLonger(t);
    } else {
      NotWideIsPlain(t);
      PlainIsEncode(Erase(t));
    }
  }

  /** The standard forbids the wide spelling; this decoder takes 0x81 0x40 for the byte 0x40. */
  lemma WideExample()
    ensures Parse([0x81, 0x40]) == Some((Leaf([0x40], true), 2))
    ensures Encode(Str([0x40])) != [0x81, 0x40]
  {
    assert [0x81 as Byte, 0x40][1..2] == [0x40];
  }

  // ---------- integers ----------

  /** uint(64): a single nonzero byte, or a string of at most eight bytes without a leading zero and not below 56. */
  function ParseUint(w: seq<Byte>): (r: Option<(nat, nat)>)
  {
    var head := ReadKind(w);
    if head.None? then None
    else
      var Head(kind, size, used) := head.value;
      if kind.ByteKind? then
        if w[0] == 0 then None else Some((w[0] as nat, 1))
      else if kind.ListKind? || size > 8 then None
      else if size == 0 then Some((0, used))
      else
        var v := ReadUint(w[used..], size);
        if v.None? || v.value < 56 then None else Some((v.value, used + size))
  }

  lemma UintRoundTrip(v: nat, rest: seq<Byte>)
    requires v < TWO64
    ensures var e := EncodeString(BigEndian(v)); ParseUint(e + rest) == Some((v, |e|))
  {
    hide BigEndian, FromBigEndian;
    var b := BigEndian(v);
    var e := EncodeString(b);
    BigEndianRoundTrip(v);
    BigEndianSize8(v);
    if |b| == 1 {
      OneByte(b[0]);
      assert b == [b[0]];
    }
    if |b| != 1 || b[0] >= 0x80 {
      var hd := HeadBytes(StringKind, |b|);
      ParseHeaded(StringKind, b, rest);
      assert (e + rest)[|hd|..][..|b|] == b;
      if |b| > 1 {
        assert v >= 56 by { BigEndianSize(v, 1); }
      }
    }
  }

  /** Strictness for integers: the minimal form, or a wide single byte. */
  lemma UintSound(w: seq<Byte>)
    requires ParseUint(w).Some?
    ensures var (v, n) := ParseUint(w).value;
            n <= |w| && v < TWO64 &&
            (w[..n] == EncodeString(BigEndian(v)) || (56 <= v < 128 && w[..n] == [0x81, v as Byte]))
  {
    var (v, n) := ParseUint(w).value;
    var Head(kind, size, used) := ReadKind(w).value;
    if kind.ByteKind? {
      assert BigEndian(v) == BigEndian(0) + [w[0]];
      assert w[..1] == [w[0]];
    } else {
      ReadKindIsCanonical(w);
      if size == 0 {
        assert w[..used] == EncodeString([]);
      } else {
        var b := w[used..][..size];
        assert w[..n] == w[..used] + b;
        if size == 1 {
          OneByte(b[0]);
          assert b == [b[0]] && w[..used] == [0x81];
        }
        FromBigEndianRoundTrip(b);
        BigEndianSize8(v);
      }
    }
  }

  // ---------- raw values ----------

  /** Raw: content with a rebuilt header; a long string gets the tag base 0xB8 instead of 0xB7. */
  function RawOf(w: seq<Byte>): (r: Option<(seq<Byte>, nat)>)
  {
    var head := ReadKind(w);
    if head.None? then None
    else
      var Head(kind, size, used) := head.value;
      if kind.ByteKind? then Some(([w[0]], 1))
      else if used + size > |w| then None
      else Some((RawHeader(kind, size) + w[used..used + size], used + size))
  }

  function RawHeader(kind: Kind, size: nat): (s: seq<Byte>)
  {
    if kind.StringKind? then Header(0x80, 0xB8, size) else Header(0xC0, 0xF7, size)
  }

  /** Raw gives back the bytes it consumed exactly when the value is not a string of 56 bytes or more. */
  lemma RawExactIff(w: seq<Byte>)
    requires RawOf(w).Some?
    ensures var (b, n) := RawOf(w).value; var h := ReadKind(w).value;
            b == w[..n] <==> !(h.kind.StringKind? && h.size >= 56)
  {
    hide ReadKind, BigEndian, FromBigEndian;
    var (b, n) := RawOf(w).value;
    var Head(kind, size, used) := ReadKind(w).value;
    if kind.ByteKind? {
      assert w[..1] == [w[0]];
    } else {
      ReadKindIsCanonical(w);
      BigEndianSize8(size);
      assert w[..n] == w[..used] + w[used..n];
      if kind.StringKind? && size >= 56 {
        assert w[..used][0] == Tag(0xB7, |BigEndian(size)|);
        assert b[0] == Tag(0xB8, |BigEndian(size)|);
        assert w[..n][0] == w[..used][0];
      }
    }
  }

  /** Every string of 56 bytes comes back under another tag. */
  lemma RawExample(c: seq<Byte>)
    requires |c| == 56
    ensures RawOf([0xB8, 56] + c) == Some(([0xB9, 56] + c, 58))
  {
    var w := [0xB8 as Byte, 56] + c;
    assert BigEndian(56) == [56];
    assert FromBigEndian([56]) == 56 by {
      assert FromBigEndian([56]) == FromBigEndian([]) * 256 + 56;
    }
    assert w[1..2] == [56] && w[2..58] == c;
    assert w[1..][..1] == [56];
    assert ReadKind(w) == Some(Head(StringKind, 56, 2));
    assert RawHeader(StringKind, 56) == [0xB9, 56];
  }
}
