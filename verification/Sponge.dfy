/**
 The Keccak sponge. Bytes are absorbed lane by lane where they are aligned and shifted into place where
 they are not; both agree with absorbing one byte at a time, whatever the writes they come in. The
 permutation is any function on states.
 */
module Sponge {
  import opened Division
  import opened LaneBits

  type Lanes = a: seq<bv64> | |a| == 25 witness seq(25, _ => 0)

  type Permutation = Lanes -> Lanes

  function ZeroLanes(): (a: Lanes)
  {
    seq(25, _ => 0)
  }

  function XorLane(a: Lanes, lane: nat, x: bv64): (r: Lanes)
    requires lane < 25
  {
    a[lane := Xor(a[lane], x)]
  }

  // ---------- the reference: one byte at a time ----------

  function AbsorbByte(f: Permutation, rate: nat, a: Lanes, at: nat, b: bv8): (r: Lanes)
    requires 0 < rate <= 200
  {
    var offset := at % rate;
    var x := XorLane(a, offset / 8, Up(Wide(b), offset % 8));
    if (at + 1) % rate == 0 then f(x) else x
  }

  /** The state after a whole message. */
  function Absorb(f: Permutation, rate: nat, m: seq<bv8>): (a: Lanes)
    requires 0 < rate <= 200
  {
    if m == [] then ZeroLanes()
    else AbsorbByte(f, rate, Absorb(f, rate, m[..|m| - 1]), |m| - 1, m[|m| - 1])
  }

  /** More bytes absorbed into a state that has taken some already. */
  function AbsorbMore(f: Permutation, rate: nat, a: Lanes, at: nat, p: seq<bv8>): (r: Lanes)
    requires 0 < rate <= 200
    decreases |p|
  {
    if p == [] then a else AbsorbMore(f, rate, AbsorbByte(f, rate, a, at, p[0]), at + 1, p[1..])
  }

  lemma {:induction false} AbsorbSplit(f: Permutation, rate: nat, m: seq<bv8>, p: seq<bv8>)
    requires 0 < rate <= 200
    ensures Absorb(f, rate, m + p) == AbsorbMore(f, rate, Absorb(f, rate, m), |m|, p)
    decreases |p|
  {
    hide AbsorbByte;
    if p == [] {
      assert m + p == m;
    } else {
      var n := m + [p[0]];
      assert n[..|n| - 1] == m;
      AbsorbSplit(f, rate, n, p[1..]);
      assert n + p[1..] == m + p;
    }
  }

  lemma {:induction false} AbsorbMoreSplit(f: Permutation, rate: nat, a: Lanes, at: nat, p: seq<bv8>, q: seq<bv8>)
    requires 0 < rate <= 200
    ensures AbsorbMore(f, rate, a, at, p + q) == AbsorbMore(f, rate, AbsorbMore(f, rate, a, at, p), at + |p|, q)
    decreases |p|
  {
    hide AbsorbByte;
    if p == [] {
      assert p + q == q;
    } else {
      AbsorbMoreSplit(f, rate, AbsorbByte(f, rate, a, at, p[0]), at + 1, p[1..], q);
      assert (p + q)[1..] == p[1..] + q;
    }
  }

  // ---------- bytes in a lane ----------

  /** Little-endian value of up to eight bytes. */
  function LittleEndian(p: seq<bv8>): (t: bv64)
    requires |p| <= 8
  {
    if p == [] then 0 else Gather(LittleEndian(p[1..]), p[0])
  }

  lemma OneByte(b: bv8)
    ensures LittleEndian([b]) == Wide(b)
  {
    hide Gather, Wide;
    assert [b][1..] == [];
    GatherOne(b);
  }

  lemma XorTwice(a: Lanes, lane: nat, x: bv64, y: bv64)
    requires lane < 25
    ensures XorLane(XorLane(a, lane, x), lane, y) == XorLane(a, lane, Xor(x, y))
  {
    hide Xor;
    XorAssoc(a[lane], x, y);
  }

  /** The permutation follows when a block is full. */
  function Settle(f: Permutation, rate: nat, a: Lanes, at: nat): (r: Lanes)
    requires 0 < rate <= 200
  {
    if at % rate == 0 then f(a) else a
  }

  lemma NextOffset(at: nat, rate: nat)
    requires rate > 0 && at % rate + 1 < rate
    ensures (at + 1) % rate == at % rate + 1
  {
    assert at == rate * (at / rate) + at % rate;
    Euclid(at + 1, rate, at / rate, at % rate + 1);
  }

  lemma StaysInLane(offset: nat, rate: nat)
    requires offset < rate && rate % 8 == 0 && offset % 8 < 7
    ensures offset + 1 < rate && (offset + 1) / 8 == offset / 8 && (offset + 1) % 8 == offset % 8 + 1
  {}

  /** Bytes that stay within one lane are absorbed by one exclusive or, at any position. */
  lemma {:induction false} WithinLane(f: Permutation, rate: nat, a: Lanes, at: nat, p: seq<bv8>)
    requires 0 < rate <= 200 && rate % 8 == 0 && p != [] && at % rate % 8 + |p| <= 8
    ensures var offset := at % rate;
            AbsorbMore(f, rate, a, at, p) ==
            Settle(f, rate, XorLane(a, offset / 8, Up(LittleEndian(p), offset % 8)), at + |p|)
    decreases |p|
  {
    hide Up, Gather, Xor, Wide, XorLane;
    var offset := at % rate;
    var lane, k := offset / 8, offset % 8;
    var x := XorLane(a, lane, Up(Wide(p[0]), k));
    if |p| == 1 {
      OneByte(p[0]);
      assert p == [p[0]];
      assert p[1..] == [];
    } else {
      StaysInLane(offset, rate);
      NextOffset(at, rate);
      var t := LittleEndian(p[1..]);
      WithinLane(f, rate, x, at + 1, p[1..]);
      XorTwice(a, lane, Up(Wide(p[0]), k), Up(t, k + 1));
      GatherSplit(t, p[0], k);
    }
  }

  /** From one lane boundary of a block to another. */
  lemma LaneOffset(at: nat, rate: nat, first: nat, lane: nat)
    requires rate > 0 && rate % 8 == 0 && at % rate == 8 * first && first <= lane < rate / 8
    ensures (at + 8 * (lane - first)) % rate == 8 * lane
  {
    assert at == rate * (at / rate) + at % rate;
    Euclid(at + 8 * (lane - first), rate, at / rate, 8 * lane);
  }

  lemma FullBlock(at: nat, rate: nat, first: nat)
    requires rate > 0 && rate % 8 == 0 && at % rate == 8 * first
    ensures (at + 8 * (rate / 8 - first)) % rate == 0
  {
    var q := at / rate;
    assert at == rate * q + at % rate;
    assert rate * q + rate == rate * (q + 1);
    Euclid(at + 8 * (rate / 8 - first), rate, q + 1, 0);
  }

  lemma LaneEnds(at: nat, rate: nat, first: nat, last: nat)
    requires rate > 0 && rate % 8 == 0 && at % rate == 8 * first && first <= last && 8 * last <= rate
    ensures (at + 8 * (last - first)) % rate == if 8 * last == rate then 0 else 8 * last
    ensures (at + 8 * (last - first)) % rate % 8 == 0
  {
    if last < rate / 8 {
      LaneOffset(at, rate, first, last);
    } else {
      FullBlock(at, rate, first);
    }
  }

  /** A short tail at a lane boundary never fills the block. */
  lemma ShortTail(at: nat, rate: nat, n: nat)
    requires rate > 0 && rate % 8 == 0 && at % rate % 8 == 0 && 0 < n < 8
    ensures (at + n) % rate == at % rate + n
  {
    assert at == rate * (at / rate) + at % rate;
    assert at % rate + n < rate;
    Euclid(at + n, rate, at / rate, at % rate + n);
  }

  /** Filling the current lane ends at a lane boundary. */
  lemma FilledLane(at: nat, rate: nat, n: nat)
    requires rate > 0 && rate % 8 == 0 && at % rate % 8 + n == 8
    ensures (at + n) % rate % 8 == 0
  {
    FilledAt(at, rate, at / rate, at % rate, n);
  }

  lemma FilledAt(at: nat, rate: nat, q: nat, offset: nat, n: nat)
    requires rate % 8 == 0 && at == rate * q + offset && offset < rate && offset % 8 + n == 8
    ensures (at + n) % rate % 8 == 0
  {
    LaneEnd(offset, rate, n);
    Wrapped(at + n, rate, q, offset + n);
  }

  lemma LaneEnd(offset: nat, rate: nat, n: nat)
    requires offset < rate && rate % 8 == 0 && offset % 8 + n == 8
    ensures (offset + n) % 8 == 0 && offset + n <= rate
  {}

  class Digest {
    const f: Permutation
    const outputSize: nat
    const rate: nat
    var a: Lanes
    var absorbed: nat
    /** Everything written since the digest was made or reset. */
    ghost var message: seq<bv8>

    /** The state is that of absorbing the message one byte at a time. */
    ghost predicate Valid()
      reads this
    {
      && 0 < rate <= 200 && rate % 8 == 0
      && absorbed == |message| && a == Absorb(f, rate, message)
    }

    constructor (f: Permutation, outputSize: nat, capacity: nat)
      requires capacity < 200 && capacity % 8 == 0
      ensures Valid() && message == [] && this.f == f && this.outputSize == outputSize && rate == 200 - capacity
    {
      this.f, this.outputSize, rate := f, outputSize, 200 - capacity;
      a, absorbed, message := ZeroLanes(), 0, [];
    }

    method Reset()
      requires Valid()
      modifies this
      ensures Valid() && message == []
    {
      absorbed := 0;
      a := ZeroLanes();
      message := [];
    }

    /** unalignedAbsorb: the bytes are gathered from the last to the first and shifted into place. */
    method UnalignedAbsorb(p: seq<bv8>)
      requires 0 < rate <= 200 && rate % 8 == 0 && absorbed % rate % 8 + |p| <= 8
      modifies `a, `absorbed
      ensures var offset := old(absorbed) % rate; a == XorLane(old(a), offset / 8, Up(LittleEndian(p), offset % 8))
      ensures absorbed == old(absorbed) + |p|
    {
      hide Gather, XorLane;
      var t: bv64 := 0;
      var i := |p|;
      assert p[i..] == [];
      while i > 0
        invariant 0 <= i <= |p| && t == LittleEndian(p[i..])
      {
        i := i - 1;
        assert p[i..][1..] == p[i + 1..];
        t := Gather(t, p[i]);
      }
      assert p[0..] == p;
      var offset := absorbed % rate;
      t := Up(t, offset % 8);
      a := XorLane(a, offset / 8, t);
      absorbed := absorbed + |p|;
    }

    /** A piece absorbed in any way that agrees with the reference extends the message. */
    ghost method Extend(piece: seq<bv8>, before: Lanes)
      requires 0 < rate <= 200 && rate % 8 == 0 && absorbed == |message| + |piece|
      requires before == Absorb(f, rate, message) && a == AbsorbMore(f, rate, before, |message|, piece)
      modifies `message
      ensures Valid() && message == old(message) + piece
    {
      AbsorbSplit(f, rate, message, piece);
      message := message + piece;
    }

    /** The first lane, when it is not aligned or the write is short. */
    method AbsorbHead(p: seq<bv8>) returns (rest: seq<bv8>)
      requires Valid() && p != []
      modifies this
      ensures Valid() && old(message) + p == message + rest && |rest| < |p|
      ensures rest != [] ==> absorbed % rate % 8 == 0
    {
      hide Absorb, AbsorbMore, XorLane, Up;
      var offset := absorbed % rate;
      var n := if 8 - offset % 8 < |p| then 8 - offset % 8 else |p|;
      ghost var before, at := a, absorbed;
      WithinLane(f, rate, a, absorbed, p[..n]);
      UnalignedAbsorb(p[..n]);
      if absorbed % rate == 0 {
        a := f(a);
      }
      Extend(p[..n], before);
      rest := p[n..];
      assert p == p[..n] + p[n..];
      assert old(message) + (p[..n] + p[n..]) == (old(message) + p[..n]) + p[n..];
      if rest != [] {
        FilledLane(at, rate, n);
      }
    }

    /** Whole lanes up to the end of the input or of the block. */
    method AbsorbLanes(p: seq<bv8>, offset: nat) returns (rest: seq<bv8>)
      requires Valid() && |p| > 7 && offset == absorbed % rate && offset % 8 == 0
      modifies this
      ensures Valid() && old(message) + p == message + rest && |rest| < |p|
      ensures absorbed % rate % 8 == 0 && (|rest| > 7 ==> absorbed % rate == 0)
    {
      hide Absorb, AbsorbMore, Taken;
      var firstLane, lastLane := LaneSpan(offset, |p|);
      ghost var before, at, done := a, absorbed, [];
      rest, done := XorLanes(p, firstLane, lastLane);
      absorbed := absorbed + (lastLane - firstLane) * 8;
      TakenSettles(f, rate, before, at, done, a);
      if absorbed % rate == 0 {
        a := f(a);
      }
      Extend(done, before);
      assert old(message) + (done + rest) == (old(message) + done) + rest;
      LaneEnds(at, rate, firstLane, lastLane);
    }

    /** The lanes the next bytes go to: up to the end of the input or of the block. */
    method LaneSpan(offset: nat, size: nat) returns (firstLane: nat, lastLane: nat)
      requires 0 < rate <= 200 && rate % 8 == 0 && offset < rate && offset % 8 == 0 && size > 7
      ensures 8 * firstLane == offset && firstLane < lastLane && 8 * lastLane <= rate && 8 * (lastLane - firstLane) <= size
      ensures size - 8 * (lastLane - firstLane) > 7 ==> 8 * lastLane == rate
    {
      firstLane := offset / 8;
      lastLane := if rate / 8 < firstLane + size / 8 then rate / 8 else firstLane + size / 8;
    }

    /** The inner loop: eight bytes into each lane. */
    method XorLanes(p: seq<bv8>, firstLane: nat, lastLane: nat) returns (rest: seq<bv8>, ghost done: seq<bv8>)
      requires 0 < rate <= 200 && rate % 8 == 0 && absorbed % rate == 8 * firstLane
      requires firstLane <= lastLane && 8 * lastLane <= rate && 8 * (lastLane - firstLane) <= |p|
      modifies `a
      ensures p == done + rest && |done| == 8 * (lastLane - firstLane) && Taken(f, rate, old(a), absorbed, done, a)
    {
      hide XorLane, LittleEndian, Taken;
      rest, done := p, [];
      TakenNone(f, rate, a, absorbed);
      for lane := firstLane to lastLane
        invariant p == done + rest && |done| == 8 * (lane - firstLane) && Taken(f, rate, old(a), absorbed, done, a)
      {
        var chunk := rest[..8];
        LaneStep(f, rate, old(a), absorbed, firstLane, lane, done, a, chunk);
        assert rest == chunk + rest[8..];
        assert done + (chunk + rest[8..]) == (done + chunk) + rest[8..];
        a := XorLane(a, lane, LittleEndian(chunk));
        rest := rest[8..];
        done := done + chunk;
      }
    }

    /** Write: whatever the alignment, the message grows by exactly the bytes written. */
    method Write(p: seq<bv8>) returns (n: nat)
      requires Valid()
      modifies this
      ensures Valid() && message == old(message) + p && n == |p|
    {
      hide Absorb;
      n := |p|;
      var offset, rest := absorbed % rate, p;
      if (offset % 8 != 0 || |rest| < 8) && |rest| > 0 {
        rest := AbsorbHead(rest);
        offset := absorbed % rate;
      }
      while |rest| > 7
        invariant Valid() && old(message) + p == message + rest
        invariant rest != [] ==> absorbed % rate % 8 == 0
        invariant |rest| > 7 ==> offset == absorbed % rate
        decreases |rest|
      {
        ghost var m := message;
        rest := AbsorbLanes(rest, offset);
        offset := 0;
      }
      if |rest| > 0 {
        ghost var before, at := a, absorbed;
        ShortTail(at, rate, |rest|);
        WithinLane(f, rate, a, absorbed, rest);
        UnalignedAbsorb(rest);
        Extend(rest, before);
      } else {
        assert message + rest == message;
      }
    }

    /** What the digest of a message is: the output squeezed after absorbing it with its padding. */
    ghost function Digested(): (p: seq<bv8>)
      reads this
      requires 0 < rate <= 200 && rate % 8 == 0
    {
      Stream(f, rate, Absorb(f, rate, message + Padding(|message|, rate)), outputSize)
    }

    /** Sum works on a copy: the digest of all that was written, and writing can go on. */
    method Sum(input: seq<bv8>) returns (p: seq<bv8>)
      requires Valid()
      ensures p == input + Digested()
    {
      hide Absorb, AbsorbMore, XorLane, Stream;
      var dup := a;
      var offset := absorbed % rate;
      dup := XorLane(dup, offset / 8, Up(1, offset % 8));
      dup := XorLane(dup, rate / 8 - 1, 0x8000_0000_0000_0000);
      dup := f(dup);
      PaddingAbsorbed(f, rate, a, absorbed);
      AbsorbSplit(f, rate, message, Padding(|message|, rate));
      var out := Squeeze(f, rate, dup, outputSize);
      p := input + out;
    }
  }

  /** a has taken the bytes done since before, except that the permutation after them is still due. */
  ghost predicate Taken(f: Permutation, rate: nat, before: Lanes, at: nat, done: seq<bv8>, a: Lanes)
    requires 0 < rate <= 200
  {
    if done == [] then a == before else AbsorbMore(f, rate, before, at, done) == Settle(f, rate, a, at + |done|)
  }

  lemma TakenNone(f: Permutation, rate: nat, a: Lanes, at: nat)
    requires 0 < rate <= 200
    ensures Taken(f, rate, a, at, [], a)
  {}

  lemma TakenSettles(f: Permutation, rate: nat, before: Lanes, at: nat, done: seq<bv8>, a: Lanes)
    requires 0 < rate <= 200 && Taken(f, rate, before, at, done, a) && done != []
    ensures AbsorbMore(f, rate, before, at, done) == if (at + |done|) % rate == 0 then f(a) else a
  {
    hide AbsorbMore;
  }

  /** One whole lane more. */
  lemma LaneStep(f: Permutation, rate: nat, before: Lanes, at: nat, first: nat, lane: nat, done: seq<bv8>, a: Lanes,
                 chunk: seq<bv8>)
    requires 0 < rate <= 200 && rate % 8 == 0 && at % rate == 8 * first && first <= lane < rate / 8
    requires |done| == 8 * (lane - first) && |chunk| == 8 && Taken(f, rate, before, at, done, a)
    ensures Taken(f, rate, before, at, done + chunk, XorLane(a, lane, LittleEndian(chunk)))
  {
    hide AbsorbMore, AbsorbByte, XorLane, Up, LittleEndian, Settle, Taken;
    var here := at + |done|;
    LaneOffset(at, rate, first, lane);
    LaneStart(lane);
    MidBlock(f, rate, before, at, first, lane, done, a);
    AbsorbMoreSplit(f, rate, before, at, done, chunk);
    WithinLane(f, rate, a, here, chunk);
    UpNone(LittleEndian(chunk));
    TakenMore(f, rate, before, at, done + chunk, XorLane(a, lane, LittleEndian(chunk)));
  }

  lemma LaneStart(lane: nat)
    ensures 8 * lane / 8 == lane && 8 * lane % 8 == 0
  {}

  lemma TakenMore(f: Permutation, rate: nat, before: Lanes, at: nat, done: seq<bv8>, a: Lanes)
    requires 0 < rate <= 200 && done != [] && AbsorbMore(f, rate, before, at, done) == Settle(f, rate, a, at + |done|)
    ensures Taken(f, rate, before, at, done, a)
  {
    hide AbsorbMore, Settle;
  }

  lemma MidBlock(f: Permutation, rate: nat, before: Lanes, at: nat, first: nat, lane: nat, done: seq<bv8>, a: Lanes)
    requires 0 < rate <= 200 && rate % 8 == 0 && at % rate == 8 * first && first <= lane < rate / 8
    requires |done| == 8 * (lane - first) && Taken(f, rate, before, at, done, a)
    ensures AbsorbMore(f, rate, before, at, done) == a
  {
    hide AbsorbMore;
    LaneOffset(at, rate, first, lane);
    NothingMore(f, rate, before, at);
  }

  lemma NothingMore(f: Permutation, rate: nat, a: Lanes, at: nat)
    requires 0 < rate <= 200
    ensures AbsorbMore(f, rate, a, at, []) == a
  {}

  lemma UpNone(x: bv64)
    ensures Up(x, 0) == x
  {}

  // ---------- padding ----------

  function Zeros(n: nat): (z: seq<bv8>)
    ensures |z| == n
  {
    seq(n, _ => 0)
  }

  /** pad10*1 (section 5.1 of FIPS 202): a one, zeros and a one up to the end of the block, lowest bit first. */
  function Padding(at: nat, rate: nat): (p: seq<bv8>)
    requires rate > 0
  {
    var q := rate - at % rate;
    if q == 1 then [0x81] else [0x01] + Zeros(q - 2) + [0x80]
  }

  lemma {:induction false} AbsorbZeros(f: Permutation, rate: nat, a: Lanes, at: nat, n: nat)
    requires 0 < rate <= 200 && at % rate + n < rate
    ensures AbsorbMore(f, rate, a, at, Zeros(n)) == a
    decreases n
  {
    hide Xor, Wide, Up;
    if n > 0 {
      var offset := at % rate;
      UpZero(offset % 8);
      XorZero(a[offset / 8]);
      NextOffset(at, rate);
      assert Zeros(n)[1..] == Zeros(n - 1);
      assert a[offset / 8 := a[offset / 8]] == a;
      AbsorbZeros(f, rate, a, at + 1, n - 1);
    } else {
      assert Zeros(0) == [];
    }
  }

  /** The state after pad: two bits set, the opening one after the message, the closing one at the end of the block. */
  function Padded(a: Lanes, at: nat, rate: nat): (r: Lanes)
    requires 0 < rate <= 200 && rate % 8 == 0
  {
    var offset := at % rate;
    var x := XorLane(a, offset / 8, Up(1, offset % 8));
    XorLane(x, rate / 8 - 1, 0x8000_0000_0000_0000)
  }

  lemma AbsorbOne(f: Permutation, rate: nat, a: Lanes, at: nat, b: bv8)
    requires 0 < rate <= 200
    ensures AbsorbMore(f, rate, a, at, [b]) == AbsorbByte(f, rate, a, at, b)
  {
    hide AbsorbByte;
    assert [b][1..] == [];
  }

  lemma WideOne()
    ensures Wide(0x01) == 1
  {}

  /** The position of the last byte of the block. */
  lemma BlockEnd(at: nat, rate: nat, n: nat)
    requires rate > 0 && rate % 8 == 0 && at % rate + n + 1 == rate
    ensures (at + n) % rate == rate - 1 && (at + n + 1) % rate == 0
    ensures (rate - 1) / 8 == rate / 8 - 1 && (rate - 1) % 8 == 7
  {
    LastByte(rate);
    LastOffset(at, rate, n);
  }

  lemma LastByte(rate: nat)
    requires rate > 0 && rate % 8 == 0
    ensures (rate - 1) / 8 == rate / 8 - 1 && (rate - 1) % 8 == 7
  {}

  lemma LastOffset(at: nat, rate: nat, n: nat)
    requires rate > 0 && at % rate + n + 1 == rate
    ensures (at + n) % rate == rate - 1 && (at + n + 1) % rate == 0
  {
    var q := at / rate;
    assert at == rate * q + at % rate;
    Wrapped(at + n, rate, q, rate - 1);
    Wrapped(at + n + 1, rate, q, rate);
  }

  /** Setting the two bits and permuting is absorbing the padding. */
  lemma PaddingAbsorbed(f: Permutation, rate: nat, a: Lanes, at: nat)
    requires 0 < rate <= 200 && rate % 8 == 0
    ensures AbsorbMore(f, rate, a, at, Padding(at, rate)) == f(Padded(a, at, rate))
  {
    hide Up, Xor, Wide, XorLane, AbsorbMore;
    var offset := at % rate;
    var q := rate - offset;
    WideOne();
    CloseBit();
    if q == 1 {
      BlockEnd(at, rate, 0);
      AbsorbOne(f, rate, a, at, 0x81);
      BothBits(7);
      XorTwice(a, offset / 8, Up(1, 7), 0x8000_0000_0000_0000);
    } else {
      LongPadding(f, rate, a, at);
    }
  }

  lemma LongPadding(f: Permutation, rate: nat, a: Lanes, at: nat)
    requires 0 < rate <= 200 && rate % 8 == 0 && at % rate + 1 < rate
    ensures AbsorbMore(f, rate, a, at, Padding(at, rate)) == f(Padded(a, at, rate))
  {
    hide Up, Xor, Wide, XorLane, AbsorbMore;
    var offset := at % rate;
    var n := rate - offset - 2;
    var x := XorLane(a, offset / 8, Up(1, offset % 8));
    WideOne();
    CloseBit();
    NextOffset(at, rate);
    AbsorbOne(f, rate, a, at, 0x01);
    AbsorbZeros(f, rate, x, at + 1, n);
    BlockEnd(at, rate, n + 1);
    AbsorbOne(f, rate, x, at + 1 + n, 0x80);
    AbsorbMoreSplit(f, rate, a, at, [0x01], Zeros(n));
    AbsorbMoreSplit(f, rate, a, at, [0x01] + Zeros(n), [0x80]);
  }

  // ---------- squeezing ----------

  function ByteAt(x: bv64, k: nat): (b: bv8)
    requires k < 8
  {
    ((x >> (8 * k)) & 0xFF) as bv8
  }

  /** A lane as eight bytes, lowest first. */
  function LaneBytes(x: bv64): (p: seq<bv8>)
    ensures |p| == 8
  {
    seq(8, k requires 0 <= k < 8 => ByteAt(x, k))
  }

  /** The first n lanes of a state as bytes. */
  function StateBytes(a: Lanes, n: nat): (p: seq<bv8>)
    requires n <= 25
    ensures |p| == 8 * n
  {
    if n == 0 then [] else StateBytes(a, n - 1) + LaneBytes(a[n - 1])
  }

  /** n bytes of output: a block from each state, the permutation between them. */
  function Stream(f: Permutation, rate: nat, a: Lanes, n: nat): (p: seq<bv8>)
    requires 0 < rate <= 200 && rate % 8 == 0
    ensures |p| == n
    decreases n
  {
    var block := StateBytes(a, rate / 8);
    if n <= rate then block[..n] else block + Stream(f, rate, f(a), n - rate)
  }

  lemma {:induction false} StreamPrefix(f: Permutation, rate: nat, a: Lanes, n: nat, k: nat)
    requires 0 < rate <= 200 && rate % 8 == 0 && k <= n
    ensures Stream(f, rate, a, n)[..k] == Stream(f, rate, a, k)
    decreases n
  {
    hide StateBytes;
    var block := StateBytes(a, rate / 8);
    if n > rate {
      if k > rate {
        StreamPrefix(f, rate, f(a), n - rate, k - rate);
        assert (block + Stream(f, rate, f(a), n - rate))[..k] == block + Stream(f, rate, f(a), n - rate)[..k - rate];
      } else {
        assert (block + Stream(f, rate, f(a), n - rate))[..k] == block[..k];
      }
    } else {
      assert block[..n][..k] == block[..k];
    }
  }

  lemma {:induction false} StatePrefix(a: Lanes, i: nat, n: nat)
    requires i <= n <= 25
    ensures StateBytes(a, n)[..8 * i] == StateBytes(a, i)
  {
    hide LaneBytes;
    if i < n {
      StatePrefix(a, i, n - 1);
    } else {
      assert StateBytes(a, n)[..8 * n] == StateBytes(a, n);
    }
  }

  /** squeeze: lanes are written whole, the output is cut to size. */
  method Squeeze(f: Permutation, rate: nat, start: Lanes, size: nat) returns (p: seq<bv8>)
    requires 0 < rate <= 200 && rate % 8 == 0
    ensures p == Stream(f, rate, start, size)
  {
    hide StateBytes, LaneBytes, Stream;
    var needed := RoundUp(size);
    var a, out := start, [];
    while |out| < needed
      invariant |out| <= needed && (needed - |out|) % 8 == 0
      invariant out + Stream(f, rate, a, needed - |out|) == Stream(f, rate, start, needed)
      decreases needed - |out|
    {
      var room := needed - |out|;
      var block := SqueezeBlock(rate, a, room);
      StreamStep(f, rate, a, room, block, out);
      out := out + block;
      if |out| < needed {
        a := f(a);
      }
    }
    StreamNone(f, rate, a);
    assert out + [] == out;
    StreamPrefix(f, rate, start, needed, size);
    p := out[..size];
  }

  /** Room for whole lanes. */
  function RoundUp(size: nat): (n: nat)
    ensures size <= n && n % 8 == 0
  {
    size + (8 - size % 8) % 8
  }

  /** One block, or as much of it as is wanted. */
  method SqueezeBlock(rate: nat, a: Lanes, room: nat) returns (out: seq<bv8>)
    requires 0 < rate <= 200 && rate % 8 == 0 && room % 8 == 0
    ensures (room - |out|) % 8 == 0
    ensures var n := if room < rate then room else rate; |out| == n && out == StateBytes(a, rate / 8)[..n]
  {
    hide LaneBytes;
    out := [];
    var i := 0;
    while i < rate && |out| < room
      invariant 0 <= i <= rate && i % 8 == 0 && i <= room && out == StateBytes(a, i / 8)
    {
      out := out + LaneBytes(a[i / 8]);
      i := i + 8;
    }
    StatePrefix(a, i / 8, rate / 8);
  }

  lemma StreamStep(f: Permutation, rate: nat, a: Lanes, n: nat, block: seq<bv8>, out: seq<bv8>)
    requires 0 < rate <= 200 && rate % 8 == 0
    requires var k := if n < rate then n else rate; |block| == k && block == StateBytes(a, rate / 8)[..k]
    ensures |block| == n ==> out + Stream(f, rate, a, n) == (out + block) + Stream(f, rate, a, 0)
    ensures |block| < n ==> out + Stream(f, rate, a, n) == (out + block) + Stream(f, rate, f(a), n - |block|)
  {
    StreamIs(f, rate, a, n, block);
    StreamNone(f, rate, a);
    hide Stream, StateBytes;
    if |block| < n {
      var rest := Stream(f, rate, f(a), n - |block|);
      assert out + (block + rest) == (out + block) + rest;
    } else {
      assert (out + block) + [] == out + block;
    }
  }

  lemma StreamIs(f: Permutation, rate: nat, a: Lanes, n: nat, block: seq<bv8>)
    requires 0 < rate <= 200 && rate % 8 == 0
    requires var k := if n < rate then n else rate; |block| == k && block == StateBytes(a, rate / 8)[..k]
    ensures |block| == n ==> Stream(f, rate, a, n) == block
    ensures |block| < n ==> Stream(f, rate, a, n) == block + Stream(f, rate, f(a), n - |block|)
  {
    hide StateBytes;
  }

  lemma StreamNone(f: Permutation, rate: nat, a: Lanes)
    requires 0 < rate <= 200 && rate % 8 == 0
    ensures Stream(f, rate, a, 0) == []
  {}
}
