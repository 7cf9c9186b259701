/**
 The streaming RLP decoder: a reader position, an optional input limit, the header of the value
 ahead, and a stack of open lists. Every method is proved against the pure parser on the window
 of bytes that the innermost list, the limit and the input still allow.
 */
module RlpDecode {
  import opened Bytes
  import opened RlpSpec
  import opened RlpParse
  import opened RlpPanic

  datatype Error =
    | EOL | EOF | UnexpectedEOF
    | ExpectedString | ExpectedList | CanonInt | CanonSize | ElemTooLarge | ValueTooLarge
    | NotInList | NotAtEOL | UintOverflow
    | Panic  // no error: the run time stops the program

  /** An error that neither ends a list nor the program. */
  ghost predicate Ordinary(err: Option<Error>)
  {
    err != Some(EOL) && err != Some(Panic)
  }

  /** An open list: bytes of it already read, and its size. */
  datatype ListPos = ListPos(pos: nat, size: nat)

  /** Where a stream stands in its input. */
  datatype Cursor = Cursor(pos: nat, remaining: nat, stack: seq<ListPos>)

  // ---------- accounting ----------

  ghost predicate Nested(stack: seq<ListPos>)
  {
    && (forall i | 0 <= i < |stack| :: stack[i].pos <= stack[i].size < TWO64)
    && (forall i | 0 < i < |stack| :: stack[i].size <= stack[i - 1].size - stack[i - 1].pos)
  }

  function Min(a: nat, b: nat): nat
  {
    if a <= b then a else b
  }

  function Top(stack: seq<ListPos>): ListPos
    requires stack != []
  {
    stack[|stack| - 1]
  }

  /** What the innermost list and the limit still allow; the subtraction never wraps. */
  function Budget(c: Cursor, limited: bool, avail: nat): (n: nat)
    requires Nested(c.stack)
    ensures n <= avail
  {
    var n := if limited then Min(c.remaining, avail) else avail;
    if c.stack == [] then n else Min(Top(c.stack).size - Top(c.stack).pos, n)
  }

  /** The bytes the stream may still read in the current list. */
  function Window(data: seq<Byte>, limited: bool, c: Cursor): (w: seq<Byte>)
    requires c.pos <= |data| && Nested(c.stack)
  {
    data[c.pos..c.pos + Budget(c, limited, |data| - c.pos)]
  }

  function Advance(stack: seq<ListPos>, n: nat): (s: seq<ListPos>)
    ensures |s| == |stack|
  {
    if stack == [] then [] else stack[|stack| - 1 := Top(stack).(pos := Top(stack).pos + n)]
  }

  /** The cursor after n bytes were read. */
  function Skip(c: Cursor, limited: bool, n: nat): (c': Cursor)
    requires limited ==> n <= c.remaining
    ensures c'.pos == c.pos + n && c'.remaining == c.remaining - (if limited then n else 0)
  {
    Cursor(c.pos + n, if limited then c.remaining - n else c.remaining, Advance(c.stack, n))
  }

  /** The next n bytes are in the window when neither a list nor the input ends before them. */
  lemma WindowHas(data: seq<Byte>, limited: bool, c: Cursor, n: nat)
    requires c.pos <= |data| && Nested(c.stack)
    ensures n <= |Window(data, limited, c)| <==> n <= Budget(c, limited, n) && n <= |data| - c.pos
    ensures n <= |Window(data, limited, c)| ==> Window(data, limited, c)[..n] == data[c.pos..c.pos + n]
  {}

  lemma PushNested(stack: seq<ListPos>, size: nat)
    requires Nested(stack) && size < TWO64 && (stack != [] ==> size <= Top(stack).size - Top(stack).pos)
    ensures Nested(stack + [ListPos(0, size)])
  {}

  lemma TopNested(stack: seq<ListPos>)
    requires Nested(stack) && stack != []
    ensures Top(stack).pos <= Top(stack).size < TWO64
  {}

  lemma AdvanceNested(stack: seq<ListPos>, n: nat)
    requires Nested(stack) && (stack != [] ==> n <= Top(stack).size - Top(stack).pos)
    ensures Nested(Advance(stack, n))
  {}

  lemma WindowSkip(data: seq<Byte>, limited: bool, c: Cursor, n: nat)
    requires c.pos <= |data| && Nested(c.stack) && n <= |Window(data, limited, c)|
    ensures limited ==> n <= c.remaining
    ensures Skip(c, limited, n).pos <= |data| && Nested(Skip(c, limited, n).stack)
    ensures Window(data, limited, Skip(c, limited, n)) == Window(data, limited, c)[n..]
  {
    hide Budget, Nested, Skip;
    var avail := |data| - c.pos;
    BudgetSkip(c, limited, avail, n);
    var b := Budget(c, limited, avail);
    assert data[c.pos + n..c.pos + b] == data[c.pos..c.pos + b][n..];
  }

  lemma BudgetSkip(c: Cursor, limited: bool, avail: nat, n: nat)
    requires Nested(c.stack) && n <= Budget(c, limited, avail)
    ensures (limited ==> n <= c.remaining) && Nested(Skip(c, limited, n).stack)
    ensures Budget(Skip(c, limited, n), limited, avail - n) == Budget(c, limited, avail) - n
  {
    AdvanceNested(c.stack, n);
    TopAdvance(c.stack, n);
    hide Nested, Advance;
  }

  lemma TopAdvance(stack: seq<ListPos>, n: nat)
    ensures stack != [] ==> Top(Advance(stack, n)) == Top(stack).(pos := Top(stack).pos + n)
    ensures stack == [] <==> Advance(stack, n) == []
  {}

  /** Bytes read are charged to the innermost list. */
  lemma SkipStack(c: Cursor, limited: bool, n: nat)
    requires limited ==> n <= c.remaining
    ensures var s := Skip(c, limited, n).stack;
            (s == [] <==> c.stack == []) && (s != [] ==> Top(s).pos >= n && s[0].size == c.stack[0].size)
  {}

  lemma SkipNone(c: Cursor, limited: bool)
    ensures Skip(c, limited, 0) == c
  {}

  lemma SkipSkip(c: Cursor, limited: bool, m: nat, n: nat)
    requires limited ==> m + n <= c.remaining
    ensures Skip(Skip(c, limited, m), limited, n) == Skip(c, limited, m + n)
  {}

  ghost predicate AtEnd(stack: seq<ListPos>)
  {
    stack != [] && Top(stack).pos == Top(stack).size
  }

  /** The size check Kind makes: against the enclosing list, or at top level against the limit. */
  ghost predicate Fits(c: Cursor, limited: bool, size: nat)
    requires Nested(c.stack)
  {
    && (c.stack != [] ==> size <= Top(c.stack).size - Top(c.stack).pos)
    && (c.stack == [] && limited ==> size <= c.remaining)
  }

  /** How many bytes a value may take, header included, as far as Kind checks it. */
  function Allowed(c: Cursor, limited: bool): (n: Option<nat>)
    requires Nested(c.stack)
  {
    if c.stack != [] then Some(Top(c.stack).size - Top(c.stack).pos) else if limited then Some(c.remaining) else None
  }

  lemma FitsIsWithin(c: Cursor, limited: bool, used: nat, size: nat)
    requires Nested(c.stack) && (limited ==> used <= c.remaining) && Nested(Skip(c, limited, used).stack)
    ensures Fits(Skip(c, limited, used), limited, size) <==> Within(used + size, Allowed(c, limited))
  {
    TopAdvance(c.stack, used);
    hide Nested, Advance;
  }

  lemma {:induction false} TopWithin(stack: seq<ListPos>, n: nat)
    requires Nested(stack) && n < |stack|
    ensures stack[n].size <= stack[0].size
  {
    if n > 0 {
      TopWithin(stack, n - 1);
    }
  }

  function Push(c: Cursor, size: nat): Cursor
  {
    c.(stack := c.stack + [ListPos(0, size)])
  }

  lemma FitsUnfold(c: Cursor, limited: bool, size: nat)
    requires Nested(c.stack) && Fits(c, limited, size)
    ensures c.stack != [] ==> size <= Top(c.stack).size - Top(c.stack).pos
    ensures c.stack == [] && limited ==> size <= c.remaining
  {}

  lemma BudgetPush(c: Cursor, limited: bool, size: nat, avail: nat)
    requires Nested(c.stack) && Nested(Push(c, size).stack) && Fits(c, limited, size)
    ensures Budget(Push(c, size), limited, avail) == Min(size, Budget(c, limited, avail))
  {
    hide Nested;
    assert Top(Push(c, size).stack) == ListPos(0, size);
  }

  /** Inside a list the window is its content, cut short if the input is. */
  lemma WindowPush(data: seq<Byte>, limited: bool, c: Cursor, size: nat)
    requires c.pos <= |data| && Nested(c.stack) && Fits(c, limited, size) && size < TWO64
    ensures Nested(Push(c, size).stack)
    ensures Window(data, limited, Push(c, size)) ==
            var w := Window(data, limited, c); w[..Min(size, |w|)]
  {
    hide Nested, Budget, Fits;
    FitsUnfold(c, limited, size);
    PushNested(c.stack, size);
    var avail := |data| - c.pos;
    BudgetPush(c, limited, size, avail);
    var b := Budget(c, limited, avail);
    assert data[c.pos..c.pos + b][..Min(size, b)] == data[c.pos..c.pos + Min(size, b)];
  }

  /** After `done` bytes of a list it is at its end just when all of it was read; closing it then
      charges all of it to the list around it. */
  lemma PopSkip(c: Cursor, limited: bool, size: nat, done: nat)
    requires limited ==> done <= c.remaining
    ensures var inner := Skip(Push(c, size), limited, done);
            && (AtEnd(inner.stack) <==> done == size)
            && Top(inner.stack) == ListPos(done, size) && inner.stack != []
            && (done == size ==> inner.(stack := Advance(inner.stack[..|inner.stack| - 1], size)) == Skip(c, limited, size))
  {
    var inner := Skip(Push(c, size), limited, done);
    assert inner.stack[..|inner.stack| - 1] == c.stack;
  }

  /** How Kind's verdict decides a parse: the header, its fit, and the content the window still holds. */
  lemma HeadAndParse(data: seq<Byte>, limited: bool, c: Cursor)
    requires c.pos <= |data| && Nested(c.stack)
    ensures AtEnd(c.stack) ==> Window(data, limited, c) == []
    ensures var w := Window(data, limited, c); w != [] ==> c.pos < |data| && w[0] == data[c.pos]
    ensures var w := Window(data, limited, c);
            ReadKind(w).Some? ==>
              var h := ReadKind(w).value;
              && (limited ==> h.used <= c.remaining)
              && Skip(c, limited, h.used).pos <= |data| && Nested(Skip(c, limited, h.used).stack)
              && Window(data, limited, Skip(c, limited, h.used)) == w[h.used..]
              && (!Fits(Skip(c, limited, h.used), limited, h.size) ==> h.used + h.size > |w|)
  {
    hide ReadKind;
    var w := Window(data, limited, c);
    if ReadKind(w).Some? {
      WindowSkip(data, limited, c, ReadKind(w).value.used);
    }
  }

  lemma ParseAllUnfold(w: seq<Byte>)
    ensures w == [] ==> ParseAll(w) == Some([])
    ensures w != [] && Parse(w).None? ==> ParseAll(w).None?
    ensures Parse(w).Some? ==>
              var (t, m) := Parse(w).value; var rest := ParseAll(w[m..]);
              ParseAll(w) == if rest.Some? then Some([t] + rest.value) else None
  {
    hide Parse;
  }

  /** One more value of a list content, from index `done` on. */
  lemma ParseAllStep(content: seq<Byte>, done: nat, kids: seq<Tree>)
    requires done <= |content|
    requires ParseAll(content).Some? <==> ParseAll(content[done..]).Some?
    requires ParseAll(content).Some? ==> ParseAll(content).value == kids + ParseAll(content[done..]).value
    ensures done == |content| ==> ParseAll(content) == Some(kids)
    ensures done < |content| && Parse(content[done..]).None? ==> ParseAll(content).None?
    ensures Parse(content[done..]).Some? ==>
              var (t, m) := Parse(content[done..]).value;
              && (ParseAll(content).Some? <==> ParseAll(content[done + m..]).Some?)
              && (ParseAll(content).Some? ==> ParseAll(content).value == (kids + [t]) + ParseAll(content[done + m..]).value)
  {
    hide Parse, ParseAll;
    var left := content[done..];
    ParseAllUnfold(left);
    if Parse(left).Some? {
      var (t, m) := Parse(left).value;
      var rest := ParseAll(content[done + m..]);
      assert left[m..] == content[done + m..];
      if rest.Some? {
        assert kids + ([t] + rest.value) == (kids + [t]) + rest.value;
      }
    } else if left == [] {
      assert kids + [] == kids;
    }
  }

  lemma {:induction false} EraseAllSnoc(ts: seq<Tree>, t: Tree)
    ensures EraseAll(ts + [t]) == EraseAll(ts) + [Erase(t)]
  {
    if ts == [] {
      assert (ts + [t])[1..] == [];
    } else {
      assert (ts + [t])[1..] == ts[1..] + [t];
      EraseAllSnoc(ts[1..], t);
    }
  }

  // ---------- a header that was read before ----------

  /** The string of a header already read, and the bytes it takes from the window behind it. */
  function HeldString(kind: Kind, size: nat, byteval: Byte, w: seq<Byte>): (r: Option<(seq<Byte>, nat)>)
  {
    if kind.ByteKind? then Some(([byteval], 0))
    else if kind.ListKind? || size > |w| || (size == 1 && w[0] < 56) then None
    else Some((w[..size], size))
  }

  function HeldUint(kind: Kind, size: nat, byteval: Byte, w: seq<Byte>): (r: Option<(nat, nat)>)
  {
    if kind.ByteKind? then if byteval == 0 then None else Some((byteval as nat, 0))
    else if kind.ListKind? || size > 8 then None
    else
      var v := ReadUint(w, size);
      if v.None? || (size > 0 && v.value < 56) then None else Some((v.value, size))
  }

  function HeldRaw(kind: Kind, size: nat, byteval: Byte, w: seq<Byte>): (r: Option<(seq<Byte>, nat)>)
  {
    if kind.ByteKind? then Some(([byteval], 0))
    else if size > |w| then None
    else Some((RawHeader(kind, size) + w[..size], size))
  }

  function HeldItem(kind: Kind, size: nat, byteval: Byte, w: seq<Byte>): (r: Option<(Item, nat)>)
  {
    if kind.ListKind? then
      if size > |w| || ParseAll(w[..size]).None? then None else Some((Item.List(EraseAll(ParseAll(w[..size]).value)), size))
    else
      var b := HeldString(kind, size, byteval, w);
      if b.None? then None else Some((Str(b.value.0), b.value.1))
  }

  /** Reading the header first changes nothing: behind it is what the parser finds from the start. */
  lemma HeldIsParsed(w: seq<Byte>)
    requires ReadKind(w).Some?
    ensures var Head(kind, size, used) := ReadKind(w).value;
            var p, q := Parse(w), HeldItem(kind, size, w[0], w[used..]);
            q == if p.Some? then Some((Erase(p.value.0), p.value.1 - used)) else None
  {
    hide ReadKind, ParseAll, Erase, EraseAll, Parse, HeldItem;
    var Head(kind, size, used) := ReadKind(w).value;
    var rest := w[used..];
    ParseByHead(w);
    ItemByHead(kind, size, w[0], rest);
    if kind.ByteKind? {
      EraseUnfold(Leaf([w[0]], false));
    } else if size <= |rest| {
      var content := w[used..used + size];
      assert rest[..size] == content;
      if kind.StringKind? {
        EraseUnfold(Leaf(content, size == 1 && content[0] < 128));
      } else if ParseAll(content).Some? {
        EraseUnfold(Node(ParseAll(content).value));
      }
    }
  }

  lemma ParseByHead(w: seq<Byte>)
    requires ReadKind(w).Some?
    ensures var Head(kind, size, used) := ReadKind(w).value;
            && (kind.ByteKind? ==> Parse(w) == Some((Leaf([w[0]], false), 1)) && used == 1)
            && (!kind.ByteKind? && used + size > |w| ==> Parse(w).None?)
            && (!kind.ByteKind? && used + size <= |w| ==>
                  var content := w[used..used + size];
                  && (kind.StringKind? ==>
                        Parse(w) == if size == 1 && content[0] < 56 then None
                                    else Some((Leaf(content, size == 1 && content[0] < 128), used + size)))
                  && (kind.ListKind? ==>
                        var kids := ParseAll(content);
                        Parse(w) == if kids.Some? then Some((Node(kids.value), used + size)) else None))
  {
    hide ReadKind, ParseAll;
  }

  lemma ItemByHead(kind: Kind, size: nat, byteval: Byte, w: seq<Byte>)
    ensures var q := HeldItem(kind, size, byteval, w);
            && (kind.ByteKind? ==> q == Some((Str([byteval]), 0)))
            && (!kind.ByteKind? && size > |w| ==> q.None?)
            && (kind.StringKind? && size <= |w| ==> q == if size == 1 && w[0] < 56 then None else Some((Str(w[..size]), size)))
            && (kind.ListKind? && size <= |w| ==>
                  var kids := ParseAll(w[..size]);
                  q == if kids.Some? then Some((Item.List(EraseAll(kids.value)), size)) else None)
  {
    hide ParseAll, EraseAll;
  }

  lemma EraseUnfold(t: Tree)
    ensures Erase(t) == if t.Leaf? then Str(t.bytes) else Item.List(EraseAll(t.kids))
  {}

  lemma HeldIsString(w: seq<Byte>)
    requires ReadKind(w).Some?
    ensures var Head(kind, size, used) := ReadKind(w).value;
            var p, q := Parse(w), HeldString(kind, size, w[0], w[used..]);
            q == if p.Some? && p.value.0.Leaf? then Some((p.value.0.bytes, p.value.1 - used)) else None
  {
    hide ReadKind, ParseAll, Parse;
    var Head(kind, size, used) := ReadKind(w).value;
    ParseByHead(w);
    if !kind.ByteKind? && used + size <= |w| {
      assert w[used..][..size] == w[used..used + size];
    }
  }

  /** The byte held in a tag matters for that kind only. */
  lemma ByteOnly(kind: Kind, size: nat, b: Byte, c: Byte, w: seq<Byte>)
    requires kind.ByteKind? ==> b == c
    ensures HeldItem(kind, size, b, w) == HeldItem(kind, size, c, w) && HeldString(kind, size, b, w) == HeldString(kind, size, c, w)
    ensures HeldRaw(kind, size, b, w) == HeldRaw(kind, size, c, w) && HeldUint(kind, size, b, w) == HeldUint(kind, size, c, w)
  {}

  lemma HeldIsUint(w: seq<Byte>)
    requires ReadKind(w).Some?
    ensures var Head(kind, size, used) := ReadKind(w).value;
            var p, q := ParseUint(w), HeldUint(kind, size, w[0], w[used..]);
            q == if p.Some? then Some((p.value.0, p.value.1 - used)) else None
  {
    var Head(kind, size, used) := ReadKind(w).value;
    hide ReadKind;
    assert ReadUint(w[used..], 0) == Some(0);
  }

  lemma HeldIsRaw(w: seq<Byte>)
    requires ReadKind(w).Some?
    ensures var Head(kind, size, used) := ReadKind(w).value;
            var p, q := RawOf(w), HeldRaw(kind, size, w[0], w[used..]);
            q == if p.Some? then Some((p.value.0, p.value.1 - used)) else None
  {
    var Head(kind, size, used) := ReadKind(w).value;
    hide ReadKind, RawHeader;
    var rest := w[used..];
    if size <= |rest| {
      assert rest[..size] == w[used..used + size];
    }
  }

  /** Raw's buffer can be made and cut after the header exactly when header and content together fit a slice. */
  lemma MakeIff(size: nat, max: SliceLen)
    requires size < TWO64
    ensures var start := HeadSize(size); var length := (start + size) % TWO64;
            length > max || start > length <==> start + size > max
  {
    hide HeadSize;
    HeadSizeBound(size);
    WrapsIff(size);
  }

  lemma HugeInUnfold(w: seq<Byte>, left: nat, max: nat)
    requires |w| <= left
    ensures left == 0 ==> !HugeIn(w, left, max)
    ensures left > 0 && Huge(w, Some(left), max) ==> HugeIn(w, left, max)
    ensures left > 0 && !Huge(w, Some(left), max) ==>
              HugeIn(w, left, max) == (Parse(w).Some? && HugeIn(w[Parse(w).value.1..], left - Parse(w).value.1, max))
  {
    hide Parse, Huge;
  }

  /** The part of the window a list takes. */
  lemma HeldHugeList(w: seq<Byte>, n: nat, content: seq<Byte>, max: nat)
    requires content == w[..Min(n, |w|)]
    ensures HeldHuge(ListKind, n, w, max) == HugeIn(content, n, max) && (|content| == n <==> n <= |w|)
  {
    hide HugeIn;
    assert (if n < |w| then w[..n] else w) == content;
  }

  lemma AllowedIn(c: Cursor, limited: bool, done: nat, n: nat)
    requires Nested(c.stack) && c.stack != [] && Top(c.stack) == ListPos(done, n)
    ensures Allowed(c, limited) == Some(n - done)
  {}

  /** What is known of a list of n bytes after done of them: the values kids were read, and the rest decides. */
  ghost predicate Reading(content: seq<Byte>, done: nat, n: nat, kids: seq<Tree>, xs: seq<Item>, max: nat)
  {
    && done <= |content| <= n && xs == EraseAll(kids)
    && (HugeIn(content, n, max) <==> HugeIn(content[done..], n - done, max))
    && (ParseAll(content).Some? <==> ParseAll(content[done..]).Some?)
    && (ParseAll(content).Some? ==> ParseAll(content).value == kids + ParseAll(content[done..]).value)
  }

  lemma ReadingStart(content: seq<Byte>, n: nat, max: nat)
    requires |content| <= n
    ensures Reading(content, 0, n, [], [], max)
  {
    hide ParseAll, HugeIn;
    assert content[0..] == content;
    if ParseAll(content).Some? {
      assert [] + ParseAll(content).value == ParseAll(content).value;
    }
  }

  lemma ReadingStep(content: seq<Byte>, done: nat, n: nat, kids: seq<Tree>, xs: seq<Item>, max: nat)
    requires Reading(content, done, n, kids, xs, max) && n > 0
    ensures done <= |content| <= n
    ensures done < n && Huge(content[done..], Some(n - done), max) ==> HugeIn(content, n, max)
    ensures !(done < n && Huge(content[done..], Some(n - done), max)) && Parse(content[done..]).None? ==>
              !HugeIn(content, n, max) && (done < n ==> ParseAll(content).None? || |content| < n)
    ensures !(done < n && Huge(content[done..], Some(n - done), max)) && Parse(content[done..]).Some? ==>
              var (t, m) := Parse(content[done..]).value; Reading(content, done + m, n, kids + [t], xs + [Erase(t)], max)
  {
    hide Parse, ParseAll, Huge, HugeIn, EraseAll, Erase;
    var w := content[done..];
    ParseAllStep(content, done, kids);
    HugeInUnfold(w, n - done, max);
    if Parse(w).Some? {
      var (t, m) := Parse(w).value;
      EraseAllSnoc(kids, t);
      assert w[m..] == content[done + m..];
    }
  }

  /** At the end of the list, or of what there is of it. */
  lemma ReadingEnd(content: seq<Byte>, done: nat, n: nat, kids: seq<Tree>, xs: seq<Item>, max: nat)
    requires Reading(content, done, n, kids, xs, max)
    ensures done == n ==> !HugeIn(content, n, max) && |content| == n
    ensures done == n ==> ParseAll(content).Some? && xs == EraseAll(ParseAll(content).value)
  {
    hide Parse, ParseAll, Huge, HugeIn, EraseAll;
    ParseAllStep(content, done, kids);
    HugeInUnfold(content[done..], n - done, max);
  }

  class Stream {
    const data: seq<Byte>         // everything the reader will ever give
    const limited: bool
    const limit: nat              // the input limit, when there is one
    const maxSlice: SliceLen      // the longest slice that can be made
    var pos: nat                  // bytes taken from the reader
    var remaining: nat            // bytes left of the limit
    var kind: Option<Kind>        // kind of the value ahead; None asks for a new header
    var size: nat
    var byteval: Byte
    var kinderr: Option<Error>
    var stack: seq<ListPos>

    /** Holds after any sequence of calls. */
    ghost predicate Valid()
      reads this
    {
      && pos <= |data|
      && Nested(stack)
      && (limited ==> pos + remaining <= limit)
      && (kind.Some? && kinderr.None? && stack != [] ==> size <= Top(stack).size - Top(stack).pos)
      && (kind.Some? && kinderr.None? && stack == [] && limited ==> size <= remaining)
      && (kind.Some? && kinderr.None? ==> size < TWO64 && (kind.value.ByteKind? ==> size == 0))
      && (kind.Some? && kinderr.None? && !kind.value.ByteKind? ==> HeadSize(size) <= if stack == [] then pos else Top(stack).pos)
      && (limited && stack != [] ==> stack[0].size <= limit)
      && kinderr != Some(Panic)
    }

    /** With a limit that fits a slice, no value does not. */
    lemma LimitExcludes()
      requires Valid() && limited && limit <= maxSlice
      ensures Allowed(Cur(), limited).Some? && Allowed(Cur(), limited).value <= maxSlice
      ensures kind.Some? && kinderr.None? && !kind.value.ByteKind? ==> HeadSize(size) + size <= maxSlice
      ensures kind.Some? && kinderr.None? ==> !HeldHuge(kind.value, size, Win(), maxSlice)
    {
      hide Window, HugeIn, HeadSize;
      if stack != [] {
        TopWithin(stack, |stack| - 1);
      }
      if kind.Some? && kinderr.None? && kind.value.ListKind? {
        var w := Win();
        NoneHugeIn(if size < |w| then w[..size] else w, size, maxSlice);
      }
    }

    ghost function Cur(): (c: Cursor)
      reads this
    {
      Cursor(pos, remaining, stack)
    }

    ghost function Win(): (w: seq<Byte>)
      reads this
      requires pos <= |data| && Nested(stack)
    {
      Window(data, limited, Cur())
    }

    constructor (input: seq<Byte>, inputLimit: Option<nat>, maxSlice: SliceLen)
      requires inputLimit.Some? ==> inputLimit.value < TWO64
      ensures Valid() && kind.None? && stack == [] && data == input && pos == 0 && this.maxSlice == maxSlice
      ensures limited == inputLimit.Some? && (limited ==> remaining == limit == inputLimit.value)
    {
      data, pos, stack, kind, size, byteval, kinderr := input, 0, [], None, 0, 0, None;
      limited, limit := inputLimit.Some?, if inputLimit.Some? then inputLimit.value else 0;
      remaining := if inputLimit.Some? then inputLimit.value else 0;
      this.maxSlice := maxSlice;
    }

    method WillRead(n: nat) returns (err: Option<Error>)
      requires Valid()
      modifies this`kind, this`stack, this`remaining
      ensures Valid() && kind.None?
      ensures Ordinary(err)
      ensures err.None? <==> n <= Budget(old(Cur()), limited, n)
      ensures err.None? ==> limited ==> n <= old(remaining)
      ensures err.None? ==> stack == Advance(old(stack), n)
      ensures err.None? ==> remaining == if limited then old(remaining) - n else old(remaining)
    {
      hide Nested;
      kind := None;
      if |stack| > 0 {
        var tos := stack[|stack| - 1];
        TopNested(stack);
        if n > tos.size - tos.pos {
          return Some(ElemTooLarge);
        }
        AdvanceNested(stack, n);
        stack := stack[|stack| - 1 := tos.(pos := tos.pos + n)];
      }
      if limited {
        if n > remaining {
          return Some(ValueTooLarge);
        }
        remaining := remaining - n;
      }
      return None;
    }

    method ReadFull(n: nat) returns (b: seq<Byte>, err: Option<Error>)
      requires Valid()
      modifies this`kind, this`stack, this`remaining, this`pos
      ensures Valid() && kind.None?
      ensures Ordinary(err)
      ensures err.None? <==> n <= |old(Win())|
      ensures err.None? ==> b == old(Win())[..n] && (limited ==> n <= old(remaining))
      ensures err.None? ==> Cur() == Skip(old(Cur()), limited, n)
    {
      hide Window, Budget, Nested;
      WindowHas(data, limited, Cur(), n);
      err := WillRead(n);
      if err.Some? {
        return [], err;
      }
      if n <= |data| - pos {
        b := data[pos..pos + n];
        pos := pos + n;
      } else {
        pos := |data|;
        return [], Some(UnexpectedEOF);
      }
    }

    method ReadByte() returns (b: Byte, err: Option<Error>)
      requires Valid()
      modifies this`kind, this`stack, this`remaining, this`pos
      ensures Valid() && kind.None?
      ensures Ordinary(err)
      ensures err.None? <==> 1 <= |old(Win())|
      ensures err.None? ==> b == old(Win())[0] && (limited ==> 1 <= old(remaining))
      ensures err.None? ==> Cur() == Skip(old(Cur()), limited, 1)
    {
      var bs, e := ReadFull(1);
      return if e.None? then bs[0] else 0, e;
    }

    /** Reads an integer of n bytes through the eight-byte buffer, zero-filled on the left. */
    method ReadUintBytes(n: nat) returns (v: nat, err: Option<Error>)
      requires Valid() && n <= 8
      modifies this`kind, this`stack, this`remaining, this`pos
      ensures Valid() && kind.None?
      ensures Ordinary(err)
      ensures err.None? <==> ReadUint(old(Win()), n).Some?
      ensures err.None? ==> v == ReadUint(old(Win()), n).value && (limited ==> n <= old(remaining))
      ensures err.None? ==> Cur() == Skip(old(Cur()), limited, n)
    {
      hide Window, Budget;
      if n == 0 {
        kind := None;
        return 0, None;
      }
      if n == 1 {
        var b, e := ReadByte();
        if e.None? {
          OneByte(b);
          assert old(Win())[..1] == [b];
        }
        return b as nat, e;
      }
      var b, e := ReadFull(n);
      if e.Some? {
        return 0, e;
      }
      if b[0] == 0 {
        return 0, Some(CanonSize);
      }
      var uintbuf := seq(8 - n, _ => 0 as Byte) + b;
      ZeroFill(8 - n, b);
      return FromBigEndian(uintbuf), None;
    }

    /** readKind: the header ahead. */
    method ReadHead() returns (k: Kind, n: nat, err: Option<Error>)
      requires Valid()
      modifies this`kind, this`stack, this`remaining, this`pos, this`byteval
      ensures Valid() && kind.None?
      ensures Ordinary(err)
      ensures err.None? <==> ReadKind(old(Win())).Some?
      ensures err.None? ==>
                var h := ReadKind(old(Win())).value;
                && k == h.kind && n == h.size < TWO64 && (limited ==> h.used <= old(remaining))
                && Cur() == Skip(old(Cur()), limited, h.used)
                && (k.ByteKind? ==> byteval == old(Win())[0])
    {
      hide Budget, Window, Advance, Nested, Skip, FromBigEndian, BigEndian;
      ghost var w, c := Win(), Cur();
      var tag, e := ReadByte();
      if e.Some? {
        err := e;
        if |stack| == 0 && (e.value == UnexpectedEOF || e.value == ValueTooLarge) {
          err := Some(EOF);
        }
        return ByteKind, 0, err;
      }
      byteval := 0;
      var b := tag as nat;
      WindowSkip(data, limited, c, 1);
      if b < 0x80 {
        byteval := tag;
        return ByteKind, 0, None;
      } else if b < 0xB8 {
        return StringKind, b - 0x80, None;
      } else if b < 0xC0 {
        k := StringKind;
        n, err := ReadUintBytes(b - 0xB7);
      } else if b < 0xF8 {
        return ListKind, b - 0xC0, None;
      } else {
        k := ListKind;
        n, err := ReadUintBytes(b - 0xF7);
      }
      if err.None? && n < 56 {
        err := Some(CanonSize);
      }
      if err.None? {
        ReadKindIsCanonical(w);
        SkipSkip(c, limited, 1, ReadKind(w).value.used - 1);
      }
    }

    /** Kind when no header is held: reads one and checks that its value fits. */
    method FreshKind()
      requires Valid() && kind.None? && !AtEnd(stack)
      modifies this
      ensures Valid() && kind.Some? && Ordinary(kinderr)
      ensures kinderr.None? ==> HeadRead(old(Cur()), ReadKind(old(Win())))
      ensures kinderr.Some? ==> NoHead(old(Cur()), ReadKind(old(Win())))
    {
      hide Window, Budget, ReadKind, Advance, Nested, Skip;
      ghost var c := Cur();
      HeadAndParse(data, limited, c);
      ghost var w := Win();
      var k, n, err := ReadHead();
      if err.None? && !k.ByteKind? {
        HeadSizeIs(w);
        SkipStack(c, limited, HeadSize(n));
      }
      kind, size, kinderr := Some(k), n, err;
      if kinderr.None? {
        if |stack| == 0 {
          if limited && size > remaining {
            kinderr := Some(ValueTooLarge);
          }
        } else if size > stack[|stack| - 1].size - stack[|stack| - 1].pos {
          kinderr := Some(ElemTooLarge);
        }
      }
    }

    /** Kind: the header ahead, read once and then remembered; an error is remembered too. */
    method NextKind() returns (k: Kind, n: nat, err: Option<Error>)
      requires Valid()
      modifies this
      ensures Valid()
      ensures old(kind).Some? ==>
                Cur() == old(Cur()) && kind == old(kind) && size == old(size) && byteval == old(byteval) && err == old(kinderr)
      ensures old(kind).None? && AtEnd(old(stack)) ==>
                err == Some(EOL) && kind.None? && Cur() == old(Cur())
      ensures old(kind).None? && !AtEnd(old(stack)) ==>
                && Ordinary(err) && kind.Some?
                && (err.None? ==> HeadRead(old(Cur()), ReadKind(old(Win()))))
                && (err.Some? ==> NoHead(old(Cur()), ReadKind(old(Win()))))
      ensures err.None? ==> kind == Some(k) && size == n && kinderr.None?
      ensures err != Some(Panic)
    {
      hide Window, Budget, ReadKind, Nested, Skip;
      if kind.None? {
        kinderr := None;
        if |stack| > 0 && stack[|stack| - 1].pos == stack[|stack| - 1].size {
          return ByteKind, 0, Some(EOL);
        }
        FreshKind();
      }
      return kind.value, size, kinderr;
    }

    /** The string whose header was read: one byte held in its tag, or the content. */
    method StringAhead() returns (b: seq<Byte>, err: Option<Error>)
      requires Valid() && kind.Some? && kinderr.None?
      modifies this
      ensures Valid() && err != Some(EOL)
      ensures err == Some(Panic) <==> old(kind).value.StringKind? && old(size) > maxSlice
      ensures var p := HeldString(old(kind).value, old(size), old(byteval), old(Win()));
              && (err.None? <==> p.Some? && err != Some(Panic))
              && (err.None? ==> b == p.value.0 && (limited ==> p.value.1 <= old(remaining))
                                && Cur() == Skip(old(Cur()), limited, p.value.1) && kind.None?)
    {
      hide Window, Budget, Nested, Advance, HeadSize;
      SkipNone(Cur(), limited);
      match kind.value
      case ByteKind =>
        kind := None;
        return [byteval], None;
      case StringKind =>
        var n := size;
        if n > maxSlice {
          return [], Some(Panic);
        }
        b, err := ReadFull(n);
        if err.None? && n == 1 && b[0] < 56 {
          return [], Some(CanonSize);
        }
      case ListKind =>
        return [], Some(ExpectedString);
    }

    /** Bytes: from a fresh header it succeeds exactly where the parser finds a string that fits a slice, and reads just that. */
    method Bytes() returns (b: seq<Byte>, err: Option<Error>)
      requires Valid()
      modifies this
      ensures Valid()
      ensures old(kind).Some? ==>
                var p := HeldString(old(kind).value, old(size), old(byteval), old(Win()));
                && (old(kinderr).Some? ==> err == old(kinderr) && Cur() == old(Cur()))
                && (err == Some(Panic) <==> old(kinderr).None? && old(kind).value.StringKind? && old(size) > maxSlice)
                && (err.None? <==> old(kinderr).None? && p.Some? && err != Some(Panic))
                && (err.None? ==> b == p.value.0 && (limited ==> p.value.1 <= old(remaining))
                                  && Cur() == Skip(old(Cur()), limited, p.value.1) && kind.None?)
      ensures old(kind).None? ==>
                var p := Parse(old(Win()));
                && (err == Some(Panic) <==> HugeString(old(Win()), Allowed(old(Cur()), limited), maxSlice))
                && (err.None? <==> p.Some? && p.value.0.Leaf? && err != Some(Panic))
                && (err.None? ==> b == p.value.0.bytes && (limited ==> p.value.1 <= old(remaining))
                                  && Cur() == Skip(old(Cur()), limited, p.value.1) && kind.None?)
                && (err == Some(EOL) <==> AtEnd(old(stack)))
      ensures limited && limit <= maxSlice ==> err != Some(Panic)
    {
      hide Window, Budget, Nested, Advance, Skip, HeadSize, HeldHuge, HeldString, HeldItem, HeldRaw, HeldUint, ReadKind,
           Parse, ParseUint, RawOf, HugeString, HugeRaw, Huge, AtEnd, Stream.HeadRead, Stream.NoHead, Allowed, Fits;
      ghost var c, w, rearmed := Cur(), Win(), kind.None?;
      var k, n, e := NextKind();
      if rearmed && e.Some? {
        NothingAhead(c);
      }
      if e.Some? {
        return [], e;
      }
      ghost var p := HeldString(k, n, byteval, Win());
      if rearmed {
        HeadAhead(c);
      }
      if limited && limit <= maxSlice {
        LimitExcludes();
      }
      b, err := StringAhead();
      if rearmed && err.None? {
        SkipSkip(c, limited, ReadKind(w).value.used, p.value.1);
      }
    }

    /** List: opens the list ahead. */
    method OpenList() returns (n: nat, err: Option<Error>)
      requires Valid()
      modifies this
      ensures Valid() && err != Some(Panic)
      ensures old(kind).Some? ==> (err.None? <==> old(kinderr).None? && old(kind).value.ListKind?)
      ensures old(kind).Some? && err.Some? ==> Cur() == old(Cur()) && kind == old(kind)
      ensures old(kind).Some? && old(kinderr).None? && old(kind).value.ListKind? ==>
                err.None? && n == old(size) && Cur() == Push(old(Cur()), n) && kind.None?
      ensures old(kind).None? && err.None? ==>
                var h := ReadKind(old(Win()));
                && h.Some? && h.value.kind.ListKind? && n == h.value.size && (limited ==> h.value.used <= old(remaining))
                && Cur() == Push(Skip(old(Cur()), limited, h.value.used), n) && kind.None?
      ensures old(kind).None? && err.Some? ==>
                var h := ReadKind(old(Win()));
                AtEnd(old(stack)) || NoHead(old(Cur()), h) || !h.value.kind.ListKind?
      ensures old(kind).None? && AtEnd(old(stack)) ==> err == Some(EOL)
    {
      hide Window, Budget, ReadKind, Skip, Advance, Nested;
      var k, m, e := NextKind();
      if e.Some? {
        return 0, e;
      }
      if !k.ListKind? {
        return 0, Some(ExpectedList);
      }
      PushNested(stack, m);
      stack := stack + [ListPos(0, m)];
      kind, size := None, 0;
      return m, None;
    }

    /** ListEnd: only at the very end of the innermost list; charges the list to its parent. */
    method ListEnd() returns (err: Option<Error>)
      requires Valid()
      modifies this
      ensures Valid()
      ensures err.None? <==> AtEnd(old(stack))
      ensures err.None? ==>
                && Cur() == old(Cur()).(stack := Advance(old(stack)[..|old(stack)| - 1], Top(old(stack)).size))
                && kind.None?
      ensures err.Some? ==> Cur() == old(Cur()) && kind == old(kind) && err != Some(EOL)
    {
      if |stack| == 0 {
        return Some(NotInList);
      }
      var tos := stack[|stack| - 1];
      if tos.pos != tos.size {
        return Some(NotAtEOL);
      }
      stack := stack[..|stack| - 1];
      if |stack| > 0 {
        var up := stack[|stack| - 1];
        stack := stack[|stack| - 1 := up.(pos := up.pos + tos.size)];
      }
      kind, size := None, 0;
      return None;
    }

    /** Uint: exactly the integers the parser of integers accepts. */
    method Uint() returns (v: nat, err: Option<Error>)
      requires Valid()
      modifies this
      ensures Valid() && err != Some(Panic)
      ensures old(kind).Some? ==>
                var p := HeldUint(old(kind).value, old(size), old(byteval), old(Win()));
                && (old(kinderr).Some? ==> err == old(kinderr) && Cur() == old(Cur()))
                && (err.None? <==> old(kinderr).None? && p.Some?)
                && (err.None? ==> v == p.value.0 && (limited ==> p.value.1 <= old(remaining))
                                  && Cur() == Skip(old(Cur()), limited, p.value.1) && kind.None?)
      ensures old(kind).None? ==>
                var p := ParseUint(old(Win()));
                && (err.None? <==> p.Some?)
                && (err.None? ==> v == p.value.0 && (limited ==> p.value.1 <= old(remaining))
                                  && Cur() == Skip(old(Cur()), limited, p.value.1) && kind.None?)
    {
      hide Window, Budget, Nested, Advance, Skip, HeadSize, HeldUint, ReadKind, ParseUint, AtEnd, Stream.HeadRead, Stream.NoHead,
           Allowed, Fits;
      ghost var c, w, rearmed := Cur(), Win(), kind.None?;
      var k, n, e := NextKind();
      if rearmed && e.Some? {
        NothingAhead(c);
      }
      if e.Some? {
        return 0, e;
      }
      ghost var p := HeldUint(k, n, byteval, Win());
      if rearmed {
        HeadAhead(c);
      }
      v, err := UintAhead();
      if rearmed && err.None? {
        SkipSkip(c, limited, ReadKind(w).value.used, p.value.1);
      }
    }

    /** The integer whose header was read. */
    method UintAhead() returns (v: nat, err: Option<Error>)
      requires Valid() && kind.Some? && kinderr.None?
      modifies this
      ensures Valid() && Ordinary(err)
      ensures var p := HeldUint(old(kind).value, old(size), old(byteval), old(Win()));
              && (err.None? <==> p.Some?)
              && (err.None? ==> v == p.value.0 && (limited ==> p.value.1 <= old(remaining))
                                && Cur() == Skip(old(Cur()), limited, p.value.1) && kind.None?)
    {
      hide Window, Budget, Nested, Advance, HeadSize, ReadUint;
      SkipNone(Cur(), limited);
      var n := size;
      match kind.value
      case ByteKind =>
        if byteval == 0 {
          return 0, Some(CanonInt);
        }
        kind := None;
        return byteval as nat, None;
      case StringKind =>
        if n > 8 {
          return 0, Some(UintOverflow);
        }
        v, err := ReadUintBytes(n);
        if err.Some? {
          return 0, if err.value == CanonSize then Some(CanonInt) else err;
        }
        if n > 0 && v < 56 {
          return 0, Some(CanonSize);
        }
      case ListKind =>
        return 0, Some(ExpectedString);
    }

    /** Raw: the value ahead, unparsed, under a rebuilt header. */
    method Raw() returns (b: seq<Byte>, err: Option<Error>)
      requires Valid()
      modifies this
      ensures Valid()
      ensures old(kind).Some? ==>
                var p := HeldRaw(old(kind).value, old(size), old(byteval), old(Win()));
                && (old(kinderr).Some? ==> err == old(kinderr) && Cur() == old(Cur()))
                && (err == Some(Panic) <==>
                      old(kinderr).None? && !old(kind).value.ByteKind? && HeadSize(old(size)) + old(size) > maxSlice)
                && (err.None? <==> old(kinderr).None? && p.Some? && err != Some(Panic))
                && (err.None? ==> b == p.value.0 && (limited ==> p.value.1 <= old(remaining))
                                  && Cur() == Skip(old(Cur()), limited, p.value.1) && kind.None?)
      ensures old(kind).None? ==>
                var p := RawOf(old(Win()));
                && (err == Some(Panic) <==> HugeRaw(old(Win()), Allowed(old(Cur()), limited), maxSlice))
                && (err.None? <==> p.Some? && err != Some(Panic))
                && (err.None? ==> b == p.value.0 && (limited ==> p.value.1 <= old(remaining))
                                  && Cur() == Skip(old(Cur()), limited, p.value.1) && kind.None?)
      ensures limited && limit <= maxSlice ==> err != Some(Panic)
    {
      hide Window, Budget, Nested, Advance, Skip, HeadSize, HeldHuge, HeldString, HeldItem, HeldRaw, HeldUint, ReadKind,
           Parse, ParseUint, RawOf, HugeString, HugeRaw, Huge, AtEnd, Stream.HeadRead, Stream.NoHead, Allowed, Fits;
      ghost var c, w, rearmed := Cur(), Win(), kind.None?;
      var k, n, e := NextKind();
      if rearmed && e.Some? {
        NothingAhead(c);
      }
      if e.Some? {
        return [], e;
      }
      ghost var p := HeldRaw(k, n, byteval, Win());
      if rearmed {
        HeadAhead(c);
      }
      if limited && limit <= maxSlice {
        LimitExcludes();
      }
      b, err := RawAhead();
      if rearmed && err.None? {
        SkipSkip(c, limited, ReadKind(w).value.used, p.value.1);
      }
    }

    /** The raw value whose header was read. The length of the buffer is a 64-bit sum. */
    method RawAhead() returns (b: seq<Byte>, err: Option<Error>)
      requires Valid() && kind.Some? && kinderr.None?
      modifies this
      ensures Valid() && err != Some(EOL)
      ensures err == Some(Panic) <==> !old(kind).value.ByteKind? && HeadSize(old(size)) + old(size) > maxSlice
      ensures var p := HeldRaw(old(kind).value, old(size), old(byteval), old(Win()));
              && (err.None? <==> p.Some? && err != Some(Panic))
              && (err.None? ==> b == p.value.0 && (limited ==> p.value.1 <= old(remaining))
                                && Cur() == Skip(old(Cur()), limited, p.value.1) && kind.None?)
    {
      hide Window, Budget, Nested, Advance, Header, HeadSize;
      SkipNone(Cur(), limited);
      var k, n := kind.value, size;
      if k.ByteKind? {
        kind := None;
        return [byteval], None;
      }
      var start := HeadSize(n);
      var length := (start + n) % TWO64;
      MakeIff(n, maxSlice);
      if length > maxSlice || start > length {
        return [], Some(Panic);
      }
      var content;
      content, err := ReadFull(n);
      if err.Some? {
        return [], err;
      }
      if k.StringKind? {
        b := Header(0x80, 0xB8, n) + content;
      } else {
        b := Header(0xC0, 0xF7, n) + content;
      }
    }

    /** decodeInterface: one value, list or string, exactly as the parser reads it from the window. */
    method Decode() returns (x: Item, err: Option<Error>)
      requires Valid()
      modifies this
      ensures Valid()
      ensures old(kind).Some? ==>
                var p := HeldItem(old(kind).value, old(size), old(byteval), old(Win()));
                && (old(kinderr).Some? ==> err == old(kinderr) && Cur() == old(Cur()))
                && (err == Some(Panic) <==> old(kinderr).None? && HeldHuge(old(kind).value, old(size), old(Win()), maxSlice))
                && (err.None? <==> old(kinderr).None? && p.Some? && err != Some(Panic))
                && (err.None? ==> x == p.value.0 && (limited ==> p.value.1 <= old(remaining))
                                  && Cur() == Skip(old(Cur()), limited, p.value.1) && kind.None?)
      ensures old(kind).None? ==>
                var p := Parse(old(Win()));
                && (err == Some(Panic) <==> Huge(old(Win()), Allowed(old(Cur()), limited), maxSlice))
                && (err.None? <==> p.Some? && err != Some(Panic))
                && (err.None? ==> x == Erase(p.value.0) && (limited ==> p.value.1 <= old(remaining))
                                  && Cur() == Skip(old(Cur()), limited, p.value.1) && kind.None?)
                && (err == Some(EOL) <==> AtEnd(old(stack)))
                && (err == Some(EOL) ==> Cur() == old(Cur()) && kind.None?)
      ensures limited && limit <= maxSlice ==> err != Some(Panic)
      decreases |data| - pos, if kind.None? then 0 else 4
    {
      hide Window, Budget, Nested, Advance, Skip, HeadSize, HeldHuge, HeldString, HeldItem, HeldRaw, HeldUint, ReadKind,
           Parse, ParseUint, RawOf, HugeString, HugeRaw, Huge, AtEnd, Stream.HeadRead, Stream.NoHead, Allowed, Fits;
      ghost var c, w, rearmed := Cur(), Win(), kind.None?;
      var k, n, e := NextKind();
      if rearmed && e.Some? {
        NothingAhead(c);
      }
      if e.Some? {
        return Str([]), e;
      }
      ghost var p := HeldItem(k, n, byteval, Win());
      if rearmed {
        HeadAhead(c);
      }
      if limited && limit <= maxSlice {
        LimitExcludes();
      }
      x, err := ItemAhead();
      if rearmed && err.None? {
        SkipSkip(c, limited, ReadKind(w).value.used, p.value.1);
      }
    }

    /** The value whose header was read. */
    method ItemAhead() returns (x: Item, err: Option<Error>)
      requires Valid() && kind.Some? && kinderr.None?
      modifies this
      ensures Valid() && err != Some(EOL)
      ensures err == Some(Panic) <==> HeldHuge(old(kind).value, old(size), old(Win()), maxSlice)
      ensures var p := HeldItem(old(kind).value, old(size), old(byteval), old(Win()));
              && (err.None? <==> p.Some? && err != Some(Panic))
              && (err.None? ==> x == p.value.0 && (limited ==> p.value.1 <= old(remaining))
                                && Cur() == Skip(old(Cur()), limited, p.value.1) && kind.None?)
      decreases |data| - pos, 3
    {
      hide Window, Budget, ReadKind, ParseAll, Nested, Advance, Skip, HeadSize, HugeIn, EraseAll;
      if kind.value.ListKind? {
        var xs;
        xs, err := DecodeList();
        x := Item.List(xs);
      } else {
        var b;
        b, err := StringAhead();
        x := Str(b);
      }
    }

    /** decodeListSlice over decodeInterface: opens the list, reads values until EOL, closes it. */
    method DecodeList() returns (xs: seq<Item>, err: Option<Error>)
      requires Valid() && kind == Some(ListKind) && kinderr.None?
      modifies this
      ensures Valid() && err != Some(EOL)
      ensures var w, n := old(Win()), old(size);
              && (err == Some(Panic) <==> HeldHuge(ListKind, n, w, maxSlice))
              && (err.None? <==> n <= |w| && ParseAll(w[..n]).Some? && err != Some(Panic))
              && (err.None? ==> xs == EraseAll(ParseAll(w[..n]).value) && (limited ==> n <= old(remaining))
                                && Cur() == Skip(old(Cur()), limited, n) && kind.None?)
      decreases |data| - pos, 2
    {
      hide Window, Budget, ReadKind, Nested, Advance, Skip, Parse, ParseAll, Stream.NoHead, EraseAll, HeadSize, Top, Huge, HugeIn,
           HeldHuge, Reading;
      ghost var c, w := Cur(), Win();
      WindowPush(data, limited, c, size);
      var n, e := OpenList();
      ghost var content := Win();
      HeldHugeList(w, n, content, maxSlice);
      xs := [];
      ghost var done, kids := 0, [];
      SkipNone(Cur(), limited);
      ReadingStart(content, n, maxSlice);
      while n > 0
        invariant Valid() && kind.None? && (n == 0 ==> done == 0) && InList(c, n, content, done)
        invariant Reading(content, done, n, kids, xs, maxSlice)
        decreases |data| - pos
      {
        var x;
        ghost var t, m;
        x, err, t, m := Element(c, n, content, done, kids, xs);
        if err == Some(EOL) {
          break;
        }
        if err.Some? {
          return [], err;
        }
        xs, kids, done := xs + [x], kids + [t], done + m;
      }
      ReadingEnd(content, done, n, kids, xs, maxSlice);
      PopSkip(c, limited, n, done);
      err := ListEnd();
    }

    /** The stream stands behind done bytes of a list of n bytes that was opened at c. */
    ghost predicate InList(c: Cursor, n: nat, content: seq<Byte>, done: nat)
      reads this
    {
      && pos <= |data| && Nested(stack) && (limited ==> done <= c.remaining) && Cur() == Skip(Push(c, n), limited, done)
      && done <= |content| && Win() == content[done..]
    }

    /** One more value of a list. */
    method Element(ghost c: Cursor, ghost n: nat, ghost content: seq<Byte>, ghost done: nat, ghost kids: seq<Tree>,
                   ghost xs: seq<Item>)
      returns (x: Item, err: Option<Error>, ghost t: Tree, ghost m: nat)
      requires Valid() && kind.None? && n > 0 && InList(c, n, content, done) && Reading(content, done, n, kids, xs, maxSlice)
      modifies this
      ensures Valid() && (err == Some(EOL) <==> AtEnd(old(stack)))
      ensures err == Some(EOL) ==> kind.None? && InList(c, n, content, done)
      ensures err.None? ==> kind.None? && m > 0 && pos == old(pos) + m && InList(c, n, content, done + m)
      ensures err.None? ==> Reading(content, done + m, n, kids + [t], xs + [x], maxSlice)
      ensures err.Some? && err != Some(EOL) ==>
                && (err == Some(Panic) <==> HugeIn(content, n, maxSlice))
                && (err != Some(Panic) ==> ParseAll(content).None? || |content| < n)
      decreases |data| - pos, 1
    {
      hide Window, Budget, ReadKind, Nested, Advance, Skip, Parse, ParseAll, EraseAll, HeadSize, Huge, HugeIn, Reading, Allowed;
      ghost var inner := Push(c, n);
      ReadingStep(content, done, n, kids, xs, maxSlice);
      PopSkip(c, limited, n, done);
      AllowedIn(Cur(), limited, done, n);
      SkipNone(inner, limited);
      t, m := Leaf([], false), 0;
      x, err := Decode();
      if err.None? {
        t, m := Parse(content[done..]).value.0, Parse(content[done..]).value.1;
        SkipSkip(inner, limited, done, m);
        assert content[done..][m..] == content[done + m..];
        WindowSkip(data, limited, Skip(inner, limited, done), m);
      }
    }

    /** Without a header that fits there is nothing to read. */
    lemma NothingAhead(c: Cursor)
      requires c.pos <= |data| && Nested(c.stack)
      requires AtEnd(c.stack) || NoHead(c, ReadKind(Window(data, limited, c)))
      ensures var w, left := Window(data, limited, c), Allowed(c, limited);
              && Parse(w).None? && ParseUint(w).None? && RawOf(w).None?
              && !HugeString(w, left, maxSlice) && !HugeRaw(w, left, maxSlice) && !Huge(w, left, maxSlice)
    {
      hide Window, Budget, Nested, Advance, Skip, HeadSize, HeldHuge, ParseAll;
      var w := Window(data, limited, c);
      HeadAndParse(data, limited, c);
      if ReadKind(w).Some? {
        hide ReadKind;
        FitsIsWithin(c, limited, ReadKind(w).value.used, ReadKind(w).value.size);
      }
    }

    /** The header was read from cursor c: what is ahead now is what was ahead then. */
    lemma HeadAhead(c: Cursor)
      requires Valid() && c.pos <= |data| && Nested(c.stack) && HeadRead(c, ReadKind(Window(data, limited, c)))
      ensures var w, left := Window(data, limited, c), Allowed(c, limited);
              && ReadKind(w).Some?
              && var h := ReadKind(w).value;
              && (limited ==> h.used <= c.remaining) && Cur() == Skip(c, limited, h.used) && h.used > 0
              && AheadNow(w, left, h.used)
    {
      hide Window, Budget, Nested, Advance, Skip, HeadSize, HeldHuge, HeldItem, HeldRaw, HeldString, HeldUint, ReadKind,
           Parse, ParseUint, RawOf;
      var w := Window(data, limited, c);
      var h := ReadKind(w).value;
      HeadAndParse(data, limited, c);
      FitsIsWithin(c, limited, h.used, h.size);
      HeadAheadIs(w, Allowed(c, limited), h.used);
    }

    /** What a window holds, header included, and what is ahead once its header is read. */
    ghost predicate AheadNow(w: seq<Byte>, left: Option<nat>, used: nat)
      reads this
      requires pos <= |data| && Nested(stack) && kind.Some?
    {
      var k, rest := kind.value, Win();
      && (var p, q := Parse(w), HeldItem(k, size, byteval, rest);
          q == if p.Some? then Some((Erase(p.value.0), p.value.1 - used)) else None)
      && (var p, q := Parse(w), HeldString(k, size, byteval, rest);
          q == if p.Some? && p.value.0.Leaf? then Some((p.value.0.bytes, p.value.1 - used)) else None)
      && (var p, q := RawOf(w), HeldRaw(k, size, byteval, rest);
          q == if p.Some? then Some((p.value.0, p.value.1 - used)) else None)
      && (var p, q := ParseUint(w), HeldUint(k, size, byteval, rest);
          q == if p.Some? then Some((p.value.0, p.value.1 - used)) else None)
      && (HugeString(w, left, maxSlice) <==> k.StringKind? && size > maxSlice)
      && (HugeRaw(w, left, maxSlice) <==> !k.ByteKind? && HeadSize(size) + size > maxSlice)
      && (Huge(w, left, maxSlice) <==> HeldHuge(k, size, rest, maxSlice))
    }

    lemma HeadAheadIs(w: seq<Byte>, left: Option<nat>, used: nat)
      requires pos <= |data| && Nested(stack) && kind.Some? && ReadKind(w) == Some(Head(kind.value, size, used))
      requires Win() == w[used..] && (kind.value.ByteKind? ==> byteval == w[0]) && Within(used + size, left)
      ensures AheadNow(w, left, used)
    {
      hide Nested, HeadSize, ReadKind, Parse, ParseUint, RawOf, HeldItem, HeldUint, Window;
      HeldIsParsed(w);
      HeldIsRaw(w);
      HeldIsString(w);
      HeldIsUint(w);
      ByteOnly(kind.value, size, byteval, w[0], w[used..]);
    }

    /** The header h was read from cursor c and fits. */
    ghost predicate HeadRead(c: Cursor, h: Option<Head>)
      reads this
    {
      && h.Some? && kind == Some(h.value.kind) && size == h.value.size
      && (limited ==> h.value.used <= c.remaining)
      && Cur() == Skip(c, limited, h.value.used)
      && Nested(stack) && Fits(Cur(), limited, h.value.size)
      && (kind.value.ByteKind? ==> c.pos < |data| && byteval == data[c.pos])
    }

    /** There is no header ahead, or it announces more than may follow. */
    ghost predicate NoHead(c: Cursor, h: Option<Head>)
      reads this
    {
      h.Some? ==>
        && (limited ==> h.value.used <= c.remaining)
        && Nested(Skip(c, limited, h.value.used).stack)
        && !Fits(Skip(c, limited, h.value.used), limited, h.value.size)
    }
  }

  /**
   Through the stream: any item, encoded and followed by anything, comes back exactly when all its strings fit
   a slice, and else the program stops. The reader stands exactly at what follows, and no list is left open.
   The limit, if any, may be any that covers the item.
   */
  method DecodeEncoded(x: Item, rest: seq<Byte>, inputLimit: Option<nat>, maxSlice: SliceLen)
    returns (y: Item, left: seq<Byte>, open: nat, err: Option<Error>)
    requires |Encode(x)| < TWO64
    requires inputLimit.Some? ==> |Encode(x)| <= inputLimit.value < TWO64
    ensures err == if ShortItem(x, maxSlice) then None else Some(Panic)
    ensures err.None? ==> y == x && left == rest && open == 0
  {
    var input := Encode(x) + rest;
    var s := new Stream(input, inputLimit, maxSlice);
    ghost var w := s.Win();
    assert w == Encode(x) + w[|Encode(x)|..];
    ParseEncode(x, w[|Encode(x)|..]);
    HugeIff(w, Allowed(s.Cur(), s.limited), maxSlice);
    ShortErase(Parse(w).value.0, maxSlice);
    y, err := s.Decode();
    left, open := input[s.pos..], |s.stack|;
  }

  /** Nine bytes on a stream without a limit stop the program. */
  method HugeHeader(rest: seq<Byte>, maxSlice: SliceLen) returns (bytes: Option<Error>, raw: Option<Error>)
    ensures bytes == Some(Panic) && raw == Some(Panic)
  {
    var b;
    LongestHead(rest);
    var s := new Stream(LONGEST + rest, None, maxSlice);
    assert s.Win() == LONGEST + rest;
    b, bytes := s.Bytes();
    s := new Stream(LONGEST + rest, None, maxSlice);
    assert s.Win() == LONGEST + rest;
    b, raw := s.Raw();
  }
}
