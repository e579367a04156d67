/** The chunked byte buffer (src/bytearray.cpp) as a value: what each operation does, from any cursor.

    `data` is the content of all chunks in list order, `cur` the index of the chunk the cursor points
    to (0 while there is none).  Bytes of a new chunk are whatever the allocator left there. */
module ByteArrays {
  type byte = x: int | 0 <= x < 256

  datatype Bytes = Bytes(base: nat, nodes: nat, data: seq<byte>, size: nat, offset: nat, cur: nat)

  /** NullDeref: the walk follows a null link, where the behaviour of the program is undefined. */
  datatype Result = Ok(bytes: seq<byte>, after: Bytes) | OutOfRange | NullDeref

  predicate Wf(b: Bytes) {
    && 1 <= b.base && |b.data| == b.nodes * b.base
    && b.offset <= b.size <= |b.data|
    && (if b.nodes == 0 then b.cur == 0 else b.cur < b.nodes)
  }

  /** Where the cursor belongs: on the chunk of the last byte before the offset. */
  function Home(offset: nat, base: nat): nat
    requires 1 <= base
  {
    if offset == 0 then 0 else (offset - 1) / base
  }

  predicate InPlace(b: Bytes) {
    Wf(b) && b.cur == Home(b.offset, b.base)
  }

  function Empty(base: nat): Bytes {
    Bytes(base, 0, [], 0, 0, 0)
  }

  // ---------------------------------------------------------------- operations

  /** The number of chunks after addCapacityTo(need): at least one, and enough. */
  function NodesFor(b: Bytes, need: nat): (n: nat)
    requires 1 <= b.base
    ensures n >= b.nodes && n >= 1
  {
    var enough := (need + b.base - 1) / b.base;
    var least := if b.nodes == 0 then 1 else b.nodes;
    if enough > least then enough else least
  }

  function Shortfall(b: Bytes, need: nat): nat
    requires 1 <= b.base
  {
    (NodesFor(b, need) - b.nodes) * b.base
  }

  function AddCapacityTo(b: Bytes, need: nat, junk: seq<byte>): Bytes
    requires 1 <= b.base && |junk| == Shortfall(b, need)
  {
    b.(nodes := NodesFor(b, need), data := b.data + junk)
  }

  /** The flat position the copy loop starts at: the next chunk if the offset is on a boundary and there
      is one, else the cursor's. */
  function Start(b: Bytes, offset: nat): nat
    requires 1 <= b.base
  {
    var step := offset % b.base == 0 && offset > 0 && b.cur + 1 < b.nodes;
    (if step then b.cur + 1 else b.cur) * b.base + offset % b.base
  }

  function Splice(data: seq<byte>, p: nat, buf: seq<byte>): seq<byte>
    requires p + |buf| <= |data|
  {
    data[..p] + buf + data[p + |buf|..]
  }

  function Write(b: Bytes, buf: seq<byte>, junk: seq<byte>): Result
    requires Wf(b) && |junk| == if buf == [] then 0 else Shortfall(b, b.size + |buf|)
  {
    if buf == [] then Ok([], b)
    else
      var grown := AddCapacityTo(b, b.size + |buf|, junk);
      var p := Start(grown, b.offset);
      if p + |buf| > |grown.data| then NullDeref
      else
        Ok([], Bytes(b.base, grown.nodes, Splice(grown.data, p, buf), b.size + |buf|, b.offset + |buf|,
                     Home(p + |buf|, b.base)))
  }

  function Read(b: Bytes, n: nat): Result
    requires Wf(b)
  {
    if n > b.size - b.offset then OutOfRange
    else if b.nodes == 0 then NullDeref
    else
      var p := Start(b, b.offset);
      if p + n > |b.data| then NullDeref
      else
        Ok(b.data[p..p + n], b.(offset := b.offset + n, cur := if n == 0 then p / b.base else Home(p + n, b.base)))
  }

  /** read at an offset: the same walk, from the cursor, leaving the cursor alone. */
  function Peek(b: Bytes, n: nat, offset: nat): Result
    requires Wf(b)
  {
    if n > b.size - b.offset then OutOfRange
    else if b.nodes == 0 then NullDeref
    else
      var p := Start(b, offset);
      if p + n > |b.data| then NullDeref else Ok(b.data[p..p + n], b)
  }

  function ToString(b: Bytes): Result
    requires Wf(b)
  {
    if b.size == b.offset then Ok([], b) else Peek(b, b.size - b.offset, b.offset)
  }

  /** The quotient is truncated before ceil sees it. */
  function SetOffset(b: Bytes, offset: nat): Result
    requires Wf(b)
  {
    if offset > |b.data| then OutOfRange
    else
      var nodeCnt := offset / b.base;
      Ok([], b.(size := if offset > b.size then offset else b.size,
                cur := if nodeCnt == 0 then 0 else nodeCnt - 1,
                offset := offset))
  }

  lemma SetOffsetIs(b: Bytes, offset: nat)
    requires Wf(b)
    ensures b.base >= 1
    ensures SetOffset(b, offset) ==
            if offset > |b.data| then OutOfRange
            else Ok([], Bytes(b.base, b.nodes, b.data, if offset > b.size then offset else b.size, offset,
                              if offset / b.base == 0 then 0 else offset / b.base - 1))
  {
  }

  // ---------------------------------------------------------------- arithmetic of chunks

  lemma MulLe(a: int, b: int, base: nat)
    requires a <= b
    ensures a * base <= b * base
  {
    assert (b - a) * base >= 0;
  }

  lemma DivIs(x: int, q: int, base: nat)
    requires 1 <= base && q * base <= x < (q + 1) * base
    ensures x / base == q && x % base == x - q * base
  {
    var d := x / base;
    var e := q - d;
    assert x == d * base + x % base;
    assert q * base == d * base + e * base;
    assert (q + 1) * base == d * base + e * base + base;
    if e >= 1 { MulLe(1, e, base); }
    if e <= -1 { MulLe(e, -1, base); }
  }

  lemma DivLess(x: nat, n: nat, base: nat)
    requires 1 <= base && x < n * base
    ensures x / base < n
  {
    var d := x / base;
    assert x == d * base + x % base;
    assert d >= n ==> n * base <= d * base;
  }

  lemma Enough(b: Bytes, need: nat)
    requires 1 <= b.base
    ensures need <= NodesFor(b, need) * b.base
    ensures NodesFor(b, need) > b.nodes && NodesFor(b, need) > 1 ==> (NodesFor(b, need) - 1) * b.base < need
    ensures b.nodes * b.base + Shortfall(b, need) == NodesFor(b, need) * b.base
  {
    var e := (need + b.base - 1) / b.base;
    assert need + b.base - 1 == e * b.base + (need + b.base - 1) % b.base;
    var n := NodesFor(b, need);
    assert e * b.base <= n * b.base;
    assert n * b.base == b.nodes * b.base + (n - b.nodes) * b.base;
  }

  /** The chunk where the cursor belongs, from quotient and remainder of the offset. */
  lemma HomeIs(offset: nat, base: nat)
    requires base >= 1
    ensures var q := offset / base;
            && offset == q * base + offset % base
            && (offset > 0 && offset % base == 0 ==> q >= 1 && Home(offset, base) == q - 1)
            && (offset % base != 0 ==> Home(offset, base) == q)
            && (offset < base <==> q == 0)
  {
    var q := offset / base;
    assert offset == q * base + offset % base;
    assert (q - 1) * base == q * base - base;
    assert (q + 1) * base == q * base + base;
    if offset < base { DivIs(offset, 0, base); }
    if offset > 0 && offset % base == 0 { DivIs(offset - 1, q - 1, base); }
    if offset % base != 0 { DivIs(offset - 1, q, base); }
  }

  /** From where it belongs, the cursor leads the loop to the offset itself. */
  lemma StartInPlace(b: Bytes)
    requires Wf(b) && b.nodes > 0 && b.cur == Home(b.offset, b.base)
    requires b.offset < |b.data| || b.offset % b.base != 0 || b.offset == 0
    ensures Start(b, b.offset) == b.offset
  {
    hide Home;
    HomeIs(b.offset, b.base);
    HomeAtZero(b.base);
    if b.offset < |b.data| { DivLess(b.offset, b.nodes, b.base); }
  }

  lemma HomeAtZero(base: nat)
    requires base >= 1
    ensures Home(0, base) == 0
  {
  }

  /** The walk always starts inside the chunk list. */
  lemma StartInside(b: Bytes, offset: nat)
    requires Wf(b) && b.nodes > 0
    ensures Start(b, offset) < |b.data|
    ensures Start(b, offset) % b.base == offset % b.base
  {
    var i := if offset % b.base == 0 && offset > 0 && b.cur + 1 < b.nodes then b.cur + 1 else b.cur;
    MulLe(i + 1, b.nodes, b.base);
    assert (i + 1) * b.base == i * b.base + b.base;
    DivIs(i * b.base + offset % b.base, i, b.base);
  }

  // ---------------------------------------------------------------- each operation

  /** The invariant under every operation from any cursor, in place or not. */
  lemma WriteKeepsWf(b: Bytes, buf: seq<byte>, junk: seq<byte>)
    requires Wf(b) && |junk| == if buf == [] then 0 else Shortfall(b, b.size + |buf|)
    ensures Write(b, buf, junk).Ok? ==> Wf(Write(b, buf, junk).after)
    ensures !Write(b, buf, junk).OutOfRange?
  {
    if buf != [] {
      Enough(b, b.size + |buf|);
      var grown := AddCapacityTo(b, b.size + |buf|, junk);
      var p := Start(grown, b.offset);
      if p + |buf| <= |grown.data| {
        DivLess(p + |buf| - 1, grown.nodes, b.base);
      }
    }
  }

  lemma ReadKeepsWf(b: Bytes, n: nat)
    requires Wf(b)
    ensures Read(b, n).Ok? ==> Wf(Read(b, n).after)
  {
    if Read(b, n).Ok? {
      var p := Start(b, b.offset);
      StartInside(b, b.offset);
      DivLess(if n == 0 then p else p + n - 1, b.nodes, b.base);
    }
  }

  /** From a cursor in place, write never follows a null link, replaces exactly the n bytes at the offset,
      touches no other, and puts the cursor where it belongs. */
  lemma WriteInPlace(b: Bytes, buf: seq<byte>, junk: seq<byte>)
    requires InPlace(b) && |junk| == if buf == [] then 0 else Shortfall(b, b.size + |buf|)
    ensures var r := Write(b, buf, junk);
            && r.Ok? && InPlace(r.after)
            && r.after.data == b.data[..b.offset] + buf + (b.data + junk)[b.offset + |buf|..]
            && r.after.offset == b.offset + |buf| && r.after.size == b.size + |buf|
  {
    WriteKeepsWf(b, buf, junk);
    if buf != [] {
      Enough(b, b.size + |buf|);
      var grown := AddCapacityTo(b, b.size + |buf|, junk);
      StartInPlace(grown);
      assert grown.data[..b.offset] == b.data[..b.offset];
    } else {
      assert b.data == b.data[..b.offset] + [] + (b.data + [])[b.offset..];
      assert junk == [];
    }
  }

  /** A read of at least one byte from a cursor in place returns exactly the bytes at the offset and puts
      the cursor where it belongs. */
  lemma ReadInPlace(b: Bytes, n: nat)
    requires InPlace(b) && n > 0
    ensures var r := Read(b, n);
            if b.offset + n > b.size then r == OutOfRange
            else r.Ok? && r.bytes == b.data[b.offset..b.offset + n] && InPlace(r.after)
                 && r.after == b.(offset := b.offset + n, cur := Home(b.offset + n, b.base))
  {
    ReadKeepsWf(b, n);
    if b.offset + n <= b.size {
      StartInPlace(b);
    }
  }

  /** On a boundary the walk starts in the next chunk, if there is one. */
  lemma StartOnBoundary(b: Bytes)
    requires InPlace(b) && b.nodes > 0 && b.offset > 0 && b.offset % b.base == 0
    ensures var q := b.offset / b.base;
            && q >= 1 && b.cur == q - 1 && Home(b.offset, b.base) == q - 1 && (b.offset < |b.data| <==> q < b.nodes)
            && Start(b, b.offset) / b.base == if q < b.nodes then q else q - 1
  {
    hide Home;
    HomeIs(b.offset, b.base);
    var q := b.offset / b.base;
    assert q * b.base + b.base == (q + 1) * b.base;
    if q < b.nodes { MulLe(q + 1, b.nodes, b.base); } else { MulLe(b.nodes, q, b.base); }
    var i := if q < b.nodes then q else q - 1;
    assert (i + 1) * b.base == i * b.base + b.base;
    DivIs(Start(b, b.offset), i, b.base);
  }

  /** Elsewhere it starts at the offset, in the cursor's chunk. */
  lemma StartElsewhere(b: Bytes)
    requires InPlace(b) && b.nodes > 0 && (b.offset == 0 || b.offset % b.base != 0)
    ensures Start(b, b.offset) == b.offset && b.offset / b.base == b.cur
  {
    StartInPlace(b);
    HomeIs(b.offset, b.base);
    HomeAtZero(b.base);
  }

  /** A read of nothing leaves the cursor in place exactly when the offset is not on a boundary with a
      chunk behind it; there it moves the cursor one chunk too far. */
  lemma EmptyReadIff(b: Bytes)
    requires InPlace(b) && b.nodes > 0
    ensures var r := Read(b, 0);
            && r.Ok? && r.bytes == [] && r.after == b.(cur := r.after.cur) && Wf(r.after)
            && (InPlace(r.after) <==> !(b.offset > 0 && b.offset % b.base == 0 && b.offset < |b.data|))
            && (!InPlace(r.after) ==> r.after.cur == b.cur + 1)
  {
    hide Start, Home;
    ReadKeepsWf(b, 0);
    StartInside(b, b.offset);
    if b.offset > 0 && b.offset % b.base == 0 {
      StartOnBoundary(b);
    } else {
      StartElsewhere(b);
    }
  }

  /** While no chunk is allocated, a read of nothing follows a null link, and any other throws. */
  lemma NothingAllocated(b: Bytes, n: nat, offset: nat)
    requires Wf(b) && b.nodes == 0
    ensures Read(b, n) == Peek(b, n, offset) == if n == 0 then NullDeref else OutOfRange
    ensures ToString(b) == Ok([], b)
  {
  }

  /** What the misplaced cursor does: unless the chunk it went to is the last, the next read returns the
      bytes one chunk further on, or runs off the list. */
  lemma AfterEmptyRead(b: Bytes, n: nat)
    requires InPlace(b) && n > 0 && b.offset + n <= b.size
    requires b.offset > 0 && b.offset % b.base == 0 && b.offset + b.base < |b.data|
    ensures Read(b, 0).Ok? && Wf(Read(b, 0).after)
    ensures var r := Read(Read(b, 0).after, n);
            if b.offset + b.base + n > |b.data| then r == NullDeref
            else r.Ok? && r.bytes == b.data[b.offset + b.base..b.offset + b.base + n]
  {
    EmptyReadIff(b);
    var q := b.offset / b.base;
    assert b.offset == q * b.base;
    assert (q - 1) * b.base == q * b.base - b.base;
    DivIs(b.offset - 1, q - 1, b.base);
    assert (q + 1) * b.base == b.offset + b.base;
    assert q + 1 < b.nodes by {
      assert q + 1 >= b.nodes ==> (q + 1) * b.base >= b.nodes * b.base;
    }
    var moved := Read(b, 0).after;
    assert Start(moved, b.offset) == b.offset + b.base;
  }

  /** setOffset puts the cursor in place exactly below one chunk or on a boundary. */
  lemma SetOffsetIff(b: Bytes, offset: nat)
    requires Wf(b)
    ensures var r := SetOffset(b, offset);
            if offset > |b.data| then r == OutOfRange
            else r.Ok? && Wf(r.after) && r.after.data == b.data && r.after.offset == offset
                 && r.after.size == (if offset > b.size then offset else b.size)
                 && (InPlace(r.after) <==> offset < b.base || offset % b.base == 0)
  {
    if offset <= |b.data| {
      var q := offset / b.base;
      assert offset == q * b.base + offset % b.base;
      assert b.nodes == 0 ==> |b.data| == 0;
      assert (b.nodes + 1) * b.base == b.nodes * b.base + b.base;
      if q > b.nodes { MulLe(b.nodes + 1, q, b.base); }
      SeekHome(offset, b.base);
    }
  }

  /** Where setOffset lands, against where the cursor belongs. */
  lemma SeekHome(offset: nat, base: nat)
    requires base >= 1
    ensures (if offset / base == 0 then 0 else offset / base - 1) == Home(offset, base) <==> offset < base || offset % base == 0
  {
    hide Home;
    HomeIs(offset, base);
    HomeAtZero(base);
  }

  /** Elsewhere it lands one chunk short, and the next read returns the bytes of the chunk before. */
  lemma AfterSetOffset(b: Bytes, offset: nat, n: nat)
    requires Wf(b) && n > 0 && offset + n <= b.size
    requires offset > b.base && offset % b.base != 0
    ensures SetOffset(b, offset).Ok? && Wf(SetOffset(b, offset).after)
    ensures var r := Read(SetOffset(b, offset).after, n);
            r.Ok? && r.bytes == b.data[offset - b.base..offset - b.base + n]
  {
    hide Home;
    SetOffsetIff(b, offset);
    var q := offset / b.base;
    assert offset == q * b.base + offset % b.base;
    assert q >= 1 by {
      assert q == 0 ==> offset < b.base;
    }
    assert (q - 1) * b.base == q * b.base - b.base;
    assert Start(SetOffset(b, offset).after, offset) == offset - b.base;
  }

  /** m_size is the extent of what was written exactly as long as writes append. */
  lemma SizeIsExtentIff(b: Bytes, buf: seq<byte>, junk: seq<byte>)
    requires InPlace(b) && buf != [] && |junk| == Shortfall(b, b.size + |buf|)
    ensures var r := Write(b, buf, junk);
            && r.Ok?
            && r.after.size - (if b.offset + |buf| > b.size then b.offset + |buf| else b.size)
               == (if b.offset + |buf| > b.size then b.size - b.offset else |buf|)
            && (r.after.size == r.after.offset <==> b.offset == b.size)
  {
    WriteInPlace(b, buf, junk);
  }

  /** toString is the rest of the array. */
  lemma ToStringIsRest(b: Bytes)
    requires InPlace(b)
    ensures ToString(b).Ok? && ToString(b).after == b && ToString(b).bytes == b.data[b.offset..b.size]
  {
    if b.size > b.offset {
      StartInPlace(b);
    }
  }
}
