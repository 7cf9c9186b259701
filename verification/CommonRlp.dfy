/**
 The older RLP codec, used for trie nodes. It encodes like the recursive definition. Its decoder
 trusts its input: it walks positions without canonicality checks and panics past the end.
 */
module CommonRlp {
  import opened Bytes
  import opened RlpSpec

  /** Decode of one value at pos: the value and the position after it; None is the index panic. */
  function Decode(data: seq<Byte>, pos: nat): (r: Option<(Item, nat)>)
    ensures r.Some? ==> pos < r.value.1
    decreases |data| - pos, 1
  {
    if pos >= |data| then None
    else
      var c := data[pos] as nat;
      if c <= 0x7f then Some((Str([data[pos]]), pos + 1))
      else if c <= 0xb7 then Slice(data, pos + 1, c - 0x80)
      else if c <= 0xbf then
        var n := VarInt(data, pos + 1, c - 0xb7);
        if n.None? then None else Slice(data, pos + 1 + (c - 0xb7), n.value)
      else if c <= 0xf7 then DecodeItems(data, pos + 1, 0, c - 0xc0)
      else
        var n := VarInt(data, pos + 1, c - 0xf7);
        if n.None? then None else DecodeItems(data, pos + 1 + (c - 0xf7), 0, n.value)
  }

  function Slice(data: seq<Byte>, pos: nat, n: nat): (r: Option<(Item, nat)>)
    ensures r.Some? ==> r.value.1 == pos + n
  {
    if pos + n > |data| then None else Some((Str(data[pos..pos + n]), pos + n))
  }

  function VarInt(data: seq<Byte>, pos: nat, n: nat): (r: Option<nat>)
  {
    if pos + n > |data| then None else Some(FromBigEndian(data[pos..pos + n]))
  }

  /** The list loop: values are read until at least n bytes have gone by; i counts them. */
  function DecodeItems(data: seq<Byte>, pos: nat, i: nat, n: nat): (r: Option<(Item, nat)>)
    ensures r.Some? ==> r.value.0.List? && pos <= r.value.1
    decreases |data| - pos, if i < n then 2 else 0
  {
    if i >= n then Some((List([]), pos))
    else
      var first := Decode(data, pos);
      if first.None? then None
      else
        var (x, next) := first.value;
        var rest := DecodeItems(data, next, i + (next - pos), n);
        if rest.None? then None else Some((List([x] + rest.value.0.items), rest.value.1))
  }

  // ---------- round trip ----------

  lemma DecodeString(b: seq<Byte>, data: seq<Byte>, pos: nat)
    requires DataAt(data, pos, EncodeString(b)) && |b| < TWO64
    ensures Decode(data, pos) == Some((Str(b), pos + |EncodeString(b)|))
  {
    hide Header, VarInt;
    if |b| == 1 && b[0] < 0x80 {
      assert EncodeString(b)[0] == data[pos] && b == [data[pos]];
    } else {
      DecodeHeader(0x80, 0xB7, b, data, pos);
      assert data[pos + |Header(0x80, 0xB7, |b|)|..pos + |EncodeString(b)|] == b;
    }
  }

  lemma {:induction false} DecodeEncode(x: Item, data: seq<Byte>, pos: nat)
    requires DataAt(data, pos, Encode(x)) && |Encode(x)| < TWO64
    ensures Decode(data, pos) == Some((x, pos + |Encode(x)|))
    decreases x, 1
  {
    hide Header, VarInt;
    match x
    case Str(b) =>
      DecodeString(b, data, pos);
    case List(xs) =>
      var payload := EncodeAll(xs);
      DecodeHeader(0xC0, 0xF7, payload, data, pos);
      DecodeEncodeAll(xs, data, pos + |Header(0xC0, 0xF7, |payload|)|, 0, |payload|);
  }

  lemma {:induction false} DecodeEncodeAll(xs: seq<Item>, data: seq<Byte>, pos: nat, i: nat, n: nat)
    requires DataAt(data, pos, EncodeAll(xs)) && n == i + |EncodeAll(xs)| < TWO64
    ensures DecodeItems(data, pos, i, n) == Some((List(xs), pos + |EncodeAll(xs)|))
    decreases xs, 0
  {
    hide Encode, Decode, DataAt;
    if xs != [] {
      var first := Encode(xs[0]);
      DataSplit(data, pos, first, EncodeAll(xs[1..]));
      DecodeEncode(xs[0], data, pos);
      DecodeEncodeAll(xs[1..], data, pos + |first|, i + |first|, n);
      assert xs == [xs[0]] + xs[1..];
    }
  }

  /** The header read at pos announces exactly the content behind it. */
  lemma DecodeHeader(smallTag: Byte, largeTag: Byte, content: seq<Byte>, data: seq<Byte>, pos: nat)
    requires (smallTag == 0x80 && largeTag == 0xB7) || (smallTag == 0xC0 && largeTag == 0xF7)
    requires |content| < TWO64 && DataAt(data, pos, Header(smallTag, largeTag, |content|) + content)
    ensures var n := |content|; var hd := Header(smallTag, largeTag, n);
            && pos < |data| && DataAt(data, pos + |hd|, content)
            && (n < 56 ==> data[pos] as nat == smallTag as nat + n && |hd| == 1)
            && (n >= 56 ==>
                  var l := |hd| - 1;
                  0 < l <= 8 && data[pos] as nat == largeTag as nat + l && VarInt(data, pos + 1, l) == Some(n))
  {
    hide BigEndian, FromBigEndian;
    var n := |content|;
    var hd := Header(smallTag, largeTag, n);
    DataSplit(data, pos, hd, content);
    assert hd[0] == data[pos];
    if n >= 56 {
      var digits := BigEndian(n);
      BigEndianRoundTrip(n);
      BigEndianSize8(n);
      assert hd == [hd[0]] + digits;
      DataSplit(data, pos, [hd[0]], digits);
      assert data[pos + 1..pos + 1 + |digits|] == digits;
    }
  }

  // ---------- the loops ----------

  /** Encode: a nested list is encoded into a buffer of its own, then given its header. */
  method EncodeValue(x: Item) returns (buff: seq<Byte>)
    ensures buff == Encode(x)
    decreases x
  {
    match x
    case Str(t) =>
      if |t| == 1 && t[0] <= 0x7f {
        buff := t;
      } else if |t| < 56 {
        buff := [Tag(0x80, |t|)] + t;
      } else {
        buff := [Tag(0xb7, |BigEndian(|t|)|)] + BigEndian(|t|) + t;
      }
    case List(xs) =>
      var b := [];
      for i := 0 to |xs|
        invariant b == EncodeAll(xs[..i])
      {
        var e := EncodeValue(xs[i]);
        EncodeAllConcat(xs[..i], [xs[i]]);
        assert xs[..i + 1] == xs[..i] + [xs[i]] && [xs[i]][1..] == [];
        b := b + e;
      }
      assert xs[..|xs|] == xs;
      if |b| < 56 {
        buff := [Tag(0xc0, |b|)] + b;
      } else {
        buff := [Tag(0xf7, |BigEndian(|b|)|)] + BigEndian(|b|) + b;
      }
  }

  /** Decode: positions move forward through nested loops. */
  method DecodeValue(data: seq<Byte>, pos: nat) returns (r: Option<(Item, nat)>)
    ensures r == Decode(data, pos)
    decreases if pos < |data| then |data| - pos else 0, 1
  {
    if pos >= |data| {
      return None;
    }
    var c := data[pos] as nat;
    if c <= 0x7f {
      return Some((Str([data[pos]]), pos + 1));
    } else if c <= 0xb7 {
      return Slice(data, pos + 1, c - 0x80);
    } else if c <= 0xbf {
      var n := VarInt(data, pos + 1, c - 0xb7);
      return if n.None? then None else Slice(data, pos + 1 + (c - 0xb7), n.value);
    } else if c <= 0xf7 {
      r := ListLoop(data, pos + 1, c - 0xc0);
    } else {
      var n := VarInt(data, pos + 1, c - 0xf7);
      if n.None? {
        return None;
      }
      r := ListLoop(data, pos + 1 + (c - 0xf7), n.value);
    }
  }

  method ListLoop(data: seq<Byte>, start: nat, n: nat) returns (r: Option<(Item, nat)>)
    ensures r == DecodeItems(data, start, 0, n)
    decreases if start < |data| then |data| - start else 0, 2
  {
    var slice: seq<Item>, pos: nat, i: nat := [], start, 0;
    ghost var all := DecodeItems(data, start, 0, n);
    assert all.Some? ==> [] + all.value.0.items == all.value.0.items;
    while i < n
      invariant start <= pos
      invariant all ==
                var rest := DecodeItems(data, pos, i, n);
                if rest.None? then None else Some((List(slice + rest.value.0.items), rest.value.1))
      decreases if pos < |data| then |data| - pos else 0
    {
      var obj := DecodeValue(data, pos);
      if obj.None? {
        return None;
      }
      ghost var rest := DecodeItems(data, obj.value.1, i + (obj.value.1 - pos), n);
      assert rest.Some? ==> slice + ([obj.value.0] + rest.value.0.items) == (slice + [obj.value.0]) + rest.value.0.items;
      slice := slice + [obj.value.0];
      i := i + (obj.value.1 - pos);
      pos := obj.value.1;
    }
    assert slice + [] == slice;
    return Some((List(slice), pos));
  }
}
