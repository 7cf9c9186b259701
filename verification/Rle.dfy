/** The run-length codec of the database: runs of zeros and two frequent hashes become two bytes. */
module Rle {
  import opened Bytes

  const TOKEN: Byte := 0xFE
  const EMPTY_SHA_TOKEN: Byte := 0xFD
  const EMPTY_LIST_SHA_TOKEN: Byte := 0xFE
  const TOKEN_TOKEN: Byte := 0xFF

  /** The Keccak-256 hash of the empty string. */
  const EMPTY: seq<Byte> :=
    [0xC5, 0xD2, 0x46, 0x01, 0x86, 0xF7, 0x23, 0x3C, 0x92, 0x7E, 0x7D, 0xB2, 0xDC, 0xC7, 0x03, 0xC0,
     0xE5, 0x00, 0xB6, 0x53, 0xCA, 0x82, 0x27, 0x3B, 0x7B, 0xFA, 0xD8, 0x04, 0x5D, 0x85, 0xA4, 0x70]

  /** The Keccak-256 hash of the single byte 0x80. */
  const EMPTY_LIST: seq<Byte> :=
    [0x56, 0xE8, 0x1F, 0x17, 0x1B, 0xCC, 0x55, 0xA6, 0xFF, 0x83, 0x45, 0xE6, 0x92, 0xC0, 0xF8, 0x6E,
     0x5B, 0x48, 0xE0, 0x1B, 0x99, 0x6C, 0xAD, 0xC0, 0x01, 0x62, 0x2F, 0xB5, 0xE3, 0x63, 0xB4, 0x21]

  function Zeros(n: nat): (z: seq<Byte>)
    ensures |z| == n
  {
    seq(n, _ => 0)
  }

  /** Leading zeros, at most limit of them. */
  function Run(d: seq<Byte>, limit: nat): (n: nat)
    ensures n <= limit && n <= |d|
    ensures forall i | 0 <= i < n :: d[i] == 0
    ensures n < limit && n < |d| ==> d[n] != 0
  {
    if limit == 0 || d == [] || d[0] != 0 then 0 else 1 + Run(d[1..], limit - 1)
  }

  /** A chunk begins with two zeros. */
  predicate IsZeros(d: seq<Byte>)
  {
    |d| > 1 && d[0] == 0 && d[1] == 0
  }

  /** How many bytes the first chunk takes. */
  function Taken(d: seq<Byte>): (n: nat)
    requires d != []
    ensures 0 < n <= |d|
  {
    if d[0] == TOKEN then 1
    else if IsZeros(d) then Run(d, 255)
    else if |d| >= 32 && (d[..32] == EMPTY || d[..32] == EMPTY_LIST) then 32
    else 1
  }

  /** Adding two in a byte wraps around. */
  function Wrap(n: nat): (b: Byte)
  {
    (n % 256) as Byte
  }

  /** What the first chunk becomes. */
  function Code(d: seq<Byte>): (c: seq<Byte>)
    requires d != []
  {
    if d[0] == TOKEN then [TOKEN, TOKEN_TOKEN]
    else if IsZeros(d) then [TOKEN, Wrap(Run(d, 255) + 2)]
    else if |d| >= 32 && d[..32] == EMPTY then [TOKEN, EMPTY_SHA_TOKEN]
    else if |d| >= 32 && d[..32] == EMPTY_LIST then [TOKEN, EMPTY_LIST_SHA_TOKEN]
    else d[..1]
  }

  function Compressed(d: seq<Byte>): (c: seq<Byte>)
    decreases |d|
  {
    if d == [] then [] else Code(d) + Compressed(d[Taken(d)..])
  }

  /** What two bytes starting with the token stand for. */
  function Meaning(b: Byte): (d: seq<Byte>)
  {
    if b == EMPTY_SHA_TOKEN then EMPTY
    else if b == EMPTY_LIST_SHA_TOKEN then EMPTY_LIST
    else if b == TOKEN_TOKEN then [TOKEN]
    else Zeros((b as nat + 254) % 256)
  }

  /** None is the error for a token at the very end. */
  function Decompressed(c: seq<Byte>): (r: Option<seq<Byte>>)
    decreases |c|
  {
    if c == [] then Some([])
    else if c[0] != TOKEN then Prepend(c[..1], Decompressed(c[1..]))
    else if |c| < 2 then None
    else Prepend(Meaning(c[1]), Decompressed(c[2..]))
  }

  function Prepend(d: seq<Byte>, r: Option<seq<Byte>>): (s: Option<seq<Byte>>)
  {
    if r.None? then None else Some(d + r.value)
  }

  /** A run of zeros whose length collides with one of the three special codes. */
  predicate Unlucky(d: seq<Byte>)
  {
    d != [] && d[0] != TOKEN && IsZeros(d) && 251 <= Run(d, 255) <= 253
  }

  /** No chunk taken on the way is unlucky. */
  predicate Faithful(d: seq<Byte>)
    decreases |d|
  {
    d == [] || (!Unlucky(d) && Faithful(d[Taken(d)..]))
  }

  /** What the code of the first chunk decodes to. */
  function ChunkValue(d: seq<Byte>): (x: seq<Byte>)
    requires d != []
  {
    if |Code(d)| == 2 then Meaning(Code(d)[1]) else d[..1]
  }

  lemma ChunkDecodes(d: seq<Byte>, rest: seq<Byte>)
    requires d != []
    ensures Decompressed(Code(d) + rest) == Prepend(ChunkValue(d), Decompressed(rest))
  {
    hide Meaning, Run, IsZeros;
    var c := Code(d) + rest;
    if |Code(d)| == 2 {
      assert c[0] == TOKEN && c[1] == Code(d)[1] && c[2..] == rest;
    } else {
      assert c[..1] == d[..1] && c[1..] == rest;
    }
  }

  lemma ChunkValueIs(d: seq<Byte>)
    requires d != []
    ensures !Unlucky(d) ==> ChunkValue(d) == d[..Taken(d)]
    ensures Unlucky(d) ==> ChunkValue(d) != [] && ChunkValue(d)[0] != 0 && d[0] == 0
  {
    if d[0] != TOKEN && IsZeros(d) {
      ZeroChunk(d, Run(d, 255));
    }
  }

  /** A run of zeros: only three lengths do not come back. */
  lemma ZeroChunk(d: seq<Byte>, n: nat)
    requires d != [] && d[0] != TOKEN && IsZeros(d) && n == Run(d, 255)
    ensures ChunkValue(d) == Meaning(Wrap(n + 2))
    ensures n < 251 || n > 253 ==> Meaning(Wrap(n + 2)) == d[..n]
    ensures 251 <= n <= 253 ==> Meaning(Wrap(n + 2)) != [] && Meaning(Wrap(n + 2))[0] != 0
  {
    hide Run;
    assert d[..n] == Zeros(n);
    WrapBack(n);
  }

  lemma WrapBack(n: nat)
    requires n <= 255
    ensures n < 251 ==> Wrap(n + 2) as nat == n + 2 && Wrap(n + 2) < EMPTY_SHA_TOKEN
    ensures n == 251 ==> Wrap(n + 2) == EMPTY_SHA_TOKEN
    ensures n == 252 ==> Wrap(n + 2) == EMPTY_LIST_SHA_TOKEN
    ensures n == 253 ==> Wrap(n + 2) == TOKEN_TOKEN
    ensures n == 254 ==> Wrap(n + 2) == 0
    ensures n == 255 ==> Wrap(n + 2) == 1
  {}

  /** The round trip never errs, and returns the data exactly when no run of zeros is 251 to 253 long. */
  lemma {:induction false} RoundTrip(d: seq<Byte>)
    ensures Decompressed(Compressed(d)).Some?
    ensures Decompressed(Compressed(d)).value == d <==> Faithful(d)
    decreases |d|
  {
    hide Decompressed, ChunkValue, Code, Taken, Unlucky;
    if d == [] {
      EmptyDecodes();
    } else {
      var n, x := Taken(d), ChunkValue(d);
      var rest := d[n..];
      RoundTrip(rest);
      ChunkDecodes(d, Compressed(rest));
      ChunkValueIs(d);
      var back := Decompressed(Compressed(rest)).value;
      assert d == d[..n] + rest;
      if Unlucky(d) {
        assert (x + back)[0] != d[0];
      } else {
        assert (x + back)[n..] == back;
      }
    }
  }

  lemma EmptyDecodes()
    ensures Decompressed([]) == Some([])
  {}

  /** 251 zeros come back as a hash. */
  lemma UnluckyExample()
    ensures !Faithful(Zeros(251)) && Decompressed(Compressed(Zeros(251))) == Some(EMPTY)
  {
    var d := Zeros(251);
    assert Run(d, 255) == 251;
    assert Taken(d) == 251 && d[251..] == [];
    assert Code(d) == [TOKEN, EMPTY_SHA_TOKEN];
    ChunkDecodes(d, []);
    EmptyDecodes();
    assert Compressed(d) == Code(d) + [];
    assert EMPTY + [] == EMPTY;
  }

  // ---------- the loops ----------

  method CompressChunk(d: seq<Byte>) returns (ret: seq<Byte>, n: nat)
    requires d != []
    ensures ret == Code(d) && n == Taken(d)
  {
    if d[0] == TOKEN {
      return [TOKEN, TOKEN_TOKEN], 1;
    }
    if |d| > 1 && d[0] == 0 && d[1] == 0 {
      var j := 0;
      while j <= 254 && j < |d|
        invariant 0 <= j <= 255 && j <= |d| && Run(d, 255) == j + Run(d[j..], 255 - j)
      {
        if d[j] != 0 {
          break;
        }
        assert d[j..][1..] == d[j + 1..];
        j := j + 1;
      }
      return [TOKEN, Wrap(j + 2)], j;
    }
    if |d| >= 32 {
      if d[..32] == EMPTY {
        return [TOKEN, EMPTY_SHA_TOKEN], 32;
      } else if d[..32] == EMPTY_LIST {
        return [TOKEN, EMPTY_LIST_SHA_TOKEN], 32;
      }
    }
    return d[..1], 1;
  }

  method Compress(d: seq<Byte>) returns (buf: seq<Byte>)
    ensures buf == Compressed(d)
  {
    hide Code, Taken;
    buf := [];
    var i := 0;
    while i < |d|
      invariant 0 <= i <= |d| && buf + Compressed(d[i..]) == Compressed(d)
      decreases |d| - i
    {
      var b, n := CompressChunk(d[i..]);
      assert d[i..][n..] == d[i + n..];
      assert buf + (b + Compressed(d[i + n..])) == (buf + b) + Compressed(d[i + n..]);
      buf := buf + b;
      i := i + n;
    }
    assert d[i..] == [];
  }

  method Decompress(c: seq<Byte>) returns (r: Option<seq<Byte>>)
    ensures r == Decompressed(c)
  {
    hide Meaning;
    var buf := [];
    var i := 0;
    NothingBefore(Decompressed(c));
    assert c[0..] == c;
    while i < |c|
      invariant 0 <= i <= |c| && Prepend(buf, Decompressed(c[i..])) == Decompressed(c)
    {
      var step := 1;
      var x := c[i..i + 1];
      if c[i] == TOKEN {
        if i + 1 >= |c| {
          return None;
        }
        x := Meaning(c[i + 1]);
        step := 2;
      }
      assert c[i..][step..] == c[i + step..] && c[i..][..1] == c[i..i + 1];
      Joined(buf, x, Decompressed(c[i + step..]));
      buf := buf + x;
      i := i + step;
    }
    assert c[i..] == [];
    assert buf + [] == buf;
    r := Some(buf);
  }

  lemma NothingBefore(r: Option<seq<Byte>>)
    ensures Prepend([], r) == r
  {
    if r.Some? {
      assert [] + r.value == r.value;
    }
  }

  lemma Joined(a: seq<Byte>, b: seq<Byte>, r: Option<seq<Byte>>)
    ensures Prepend(a, Prepend(b, r)) == Prepend(a + b, r)
  {
    if r.Some? {
      assert a + (b + r.value) == (a + b) + r.value;
    }
  }
}
