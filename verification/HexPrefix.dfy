/** Keys: bytes to nibbles and back, and the compact (hex-prefix) form of Appendix C of the Yellow Paper. */
module HexPrefix {
  import opened Bytes
  import opened Trie

  function Unpack(b: seq<Byte>): (h: seq<Byte>)
    ensures |h| == 2 * |b| && Trie.Plain(h)
  {
    if b == [] then [] else [b[0] / 16, b[0] % 16] + Unpack(b[1..])
  }

  /** Two nibbles in one byte, truncated as a byte conversion truncates. */
  function Join(hi: Byte, lo: Byte): Byte
  {
    ((16 * hi as int + lo as int) % 256) as Byte
  }

  function Pack(h: seq<Byte>): (b: seq<Byte>)
    requires |h| % 2 == 0
    ensures |b| == |h| / 2
  {
    if h == [] then [] else [Join(h[0], h[1])] + Pack(h[2..])
  }

  /** Byte i of the packed form holds nibbles 2i and 2i + 1, the first one on top. */
  lemma {:induction false} PackAt(h: seq<Byte>, i: nat)
    requires |h| % 2 == 0 && 2 * i + 1 < |h|
    ensures Pack(h)[i] as int == (16 * h[2 * i] as int + h[2 * i + 1] as int) % 256
  {
    if i > 0 {
      PackAt(h[2..], i - 1);
    }
  }

  /** Nibbles 2i and 2i + 1 are the halves of byte i. */
  lemma {:induction false} UnpackAt(b: seq<Byte>, i: nat)
    requires i < |b|
    ensures Unpack(b)[2 * i] == b[i] / 16 && Unpack(b)[2 * i + 1] == b[i] % 16
  {
    if i > 0 {
      UnpackAt(b[1..], i - 1);
    }
  }

  lemma JoinSplit(hi: Byte, lo: Byte)
    requires hi < TERM && lo < TERM
    ensures Join(hi, lo) / 16 == hi && Join(hi, lo) % 16 == lo
  {}

  lemma {:induction false} UnpackPack(h: seq<Byte>)
    requires |h| % 2 == 0 && Trie.Plain(h)
    ensures Unpack(Pack(h)) == h
  {
    hide Join;
    if h != [] {
      UnpackPack(h[2..]);
      JoinSplit(h[0], h[1]);
      assert Pack(h)[1..] == Pack(h[2..]);
      assert h == [h[0], h[1]] + h[2..];
    }
  }

  lemma {:induction false} PackUnpack(b: seq<Byte>)
    ensures Pack(Unpack(b)) == b
  {
    if b != [] {
      PackUnpack(b[1..]);
      assert Unpack(b)[2..] == Unpack(b[1..]);
      assert Join(b[0] / 16, b[0] % 16) == b[0];
    }
  }

  /** CompactHexDecode: the trie key of a byte string. */
  function ToKey(b: seq<Byte>): (k: Key)
    ensures Terminated(k) && |k| == 2 * |b| + 1
  {
    Unpack(b) + [TERM]
  }

  lemma ToKeyInjective(a: seq<Byte>, b: seq<Byte>)
    requires ToKey(a) == ToKey(b)
    ensures a == b
  {
    assert Unpack(a) == ToKey(a)[..2 * |a|] && Unpack(b) == ToKey(b)[..2 * |b|];
    PackUnpack(a);
    PackUnpack(b);
  }

  method CompactHexDecode(str: seq<Byte>) returns (hexSlice: seq<Byte>)
    ensures hexSlice == ToKey(str)
    ensures forall i | 0 <= i < |str| :: hexSlice[2 * i] == str[i] / 16 && hexSlice[2 * i + 1] == str[i] % 16
  {
    forall i | 0 <= i < |str| ensures Unpack(str)[2 * i] == str[i] / 16 && Unpack(str)[2 * i + 1] == str[i] % 16 {
      UnpackAt(str, i);
    }
    hexSlice := [];
    for i := 0 to |str|
      invariant hexSlice + Unpack(str[i..]) == Unpack(str)
    {
      assert str[i..][1..] == str[i + 1..];
      var two := [str[i] / 16, str[i] % 16];
      assert hexSlice + (two + Unpack(str[i + 1..])) == (hexSlice + two) + Unpack(str[i + 1..]);
      hexSlice := hexSlice + two;
    }
    assert str[|str|..] == [];
    hexSlice := hexSlice + [TERM];
  }

  /** The nibbles of a key without its terminator. */
  function Body(k: Key): (b: Key)
    requires k != []
  {
    if k[|k| - 1] == TERM then k[..|k| - 1] else k
  }

  /** Flags first: 2 for a terminator, 1 for an odd number of nibbles; padded to a whole number of bytes. */
  function Flags(k: Key): (f: seq<Byte>)
    requires k != []
  {
    var flag: Byte := if k[|k| - 1] == TERM then 2 else 0;
    if |Body(k)| % 2 == 1 then [flag + 1] else [flag, 0]
  }

  function Compact(k: Key): (b: seq<Byte>)
    requires k != []
    ensures b != []
  {
    Pack(Flags(k) + Body(k))
  }

  function FromCompact(b: seq<Byte>): (k: Key)
    requires b != []
  {
    var base := Unpack(b);
    var whole := if base[0] >= 2 then base + [TERM] else base;
    if base[0] % 2 == 1 then whole[1..] else whole[2..]
  }

  /** A key survives its compact form, terminator, parity and all. */
  lemma CompactRoundTrip(k: Key)
    requires k != [] && (Terminated(k) || Trie.Plain(k))
    ensures FromCompact(Compact(k)) == k
  {
    hide Pack, Unpack;
    var f, body := Flags(k), Body(k);
    UnpackPack(f + body);
    assert (f + body)[|f|..] == body;
    assert ((f + body) + [TERM])[|f|..] == body + [TERM];
    if k[|k| - 1] == TERM {
      assert k == body + [TERM];
    }
  }

  /**
   The form Appendix C gives: the top of the first byte is 2 for a terminated key plus 1 for an odd number of
   nibbles, its bottom is the first nibble if the number is odd, and every further byte joins the next two.
   */
  ghost predicate IsCompact(k: Key, b: seq<Byte>)
    requires k != []
  {
    var t := if k[|k| - 1] == 16 then 1 else 0;
    var odd := (|k| - t) % 2;
    && |b| == (|k| - t) / 2 + 1
    && b[0] as int == (16 * (2 * t + odd) + if odd == 1 then k[0] as int else 0) % 256
    && forall i | 0 < i < |b| :: b[i] as int == (16 * k[odd + 2 * i - 2] as int + k[odd + 2 * i - 1] as int) % 256
  }

  lemma CompactForm(k: Key)
    requires k != []
    ensures IsCompact(k, Compact(k))
  {
    hide Pack;
    var h, b := Flags(k) + Body(k), Compact(k);
    PackAt(h, 0);
    forall i | 0 < i < |b| ensures b[i] as int == (16 * h[2 * i] as int + h[2 * i + 1] as int) % 256 {
      PackAt(h, i);
    }
  }

  method CompactEncode(hexSlice: Key) returns (buff: seq<Byte>)
    requires hexSlice != []
    ensures buff == Compact(hexSlice) && IsCompact(hexSlice, buff)
  {
    CompactForm(hexSlice);
    hide IsCompact;
    var terminator: Byte := 0;
    var body := hexSlice;
    if hexSlice[|hexSlice| - 1] == TERM {
      terminator := 1;
      body := hexSlice[..|hexSlice| - 1];
    }
    var oddlen := |body| % 2;
    var flags := 2 * terminator + oddlen as Byte;
    var h := if oddlen != 0 then [flags] + body else [flags, 0] + body;
    assert h == Flags(hexSlice) + Body(hexSlice);
    buff := PackLoop(h);
  }

  method PackLoop(h: seq<Byte>) returns (buff: seq<Byte>)
    requires |h| % 2 == 0
    ensures buff == Pack(h)
  {
    hide Join;
    buff := [];
    var i := 0;
    while i < |h|
      invariant 0 <= i <= |h| && i % 2 == 0
      invariant buff + Pack(h[i..]) == Pack(h)
    {
      assert h[i..][2..] == h[i + 2..];
      var b := Join(h[i], h[i + 1]);
      assert buff + ([b] + Pack(h[i + 2..])) == (buff + [b]) + Pack(h[i + 2..]);
      buff := buff + [b];
      i := i + 2;
    }
    assert h[i..] == [];
  }

  method CompactDecode(str: seq<Byte>) returns (base: Key)
    requires str != []
    ensures base == FromCompact(str)
  {
    base := CompactHexDecode(str);
    base := base[..|base| - 1];
    assert base == Unpack(str);
    var flag := base[0];
    if flag >= 2 {
      base := base + [TERM];
    }
    if flag % 2 == 1 {
      base := base[1..];
    } else {
      base := base[2..];
    }
  }

  /** The nibbles of a key; a terminator is no nibble. */
  function Nibbles(k: Key): (h: Key)
  {
    if k == [] then [] else (if k[0] < TERM then [k[0]] else []) + Nibbles(k[1..])
  }

  lemma {:induction false} PlainNibbles(k: Key)
    requires Trie.Plain(k)
    ensures Nibbles(k) == k
  {
    if k != [] {
      PlainNibbles(k[1..]);
    }
  }

  lemma NoNibbles()
    ensures Nibbles([]) == []
  {}

  lemma NibblesFrom(k: Key, i: nat, str: Key)
    requires i < |k|
    ensures str + Nibbles(k[i..]) == (if k[i] < TERM then str + [k[i]] else str) + Nibbles(k[i + 1..])
  {
    assert k[i..][1..] == k[i + 1..];
  }

  /** Back to bytes; an odd nibble at the end is dropped with the decoding error. */
  method DecodeCompact(key: Key) returns (b: seq<Byte>)
    ensures var h := Nibbles(key); b == Pack(h[..|h| / 2 * 2])
  {
    hide Pack, Nibbles;
    assert key[0..] == key && [] + Nibbles(key) == Nibbles(key);
    var str: Key := [];
    for i := 0 to |key|
      invariant str + Nibbles(key[i..]) == Nibbles(key)
    {
      NibblesFrom(key, i, str);
      if key[i] < TERM {
        str := str + [key[i]];
      }
    }
    assert key[|key|..] == [];
    NoNibbles();
    assert str + [] == str;
    assert str == Nibbles(key);
    b := PackLoop(str[..|str| / 2 * 2]);
  }
}
