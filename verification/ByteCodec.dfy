/** Typed values over the byte buffer (src/bytearray.cpp, src/endian.h). */
module ByteCodec {
  import opened ByteArrays

  // ---------------------------------------------------------------- digits and byte order

  function Pow256(w: nat): (p: nat)
    ensures p >= 1
  {
    if w == 0 then 1 else 256 * Pow256(w - 1)
  }

  /** Least significant byte first. */
  function Little(v: nat, w: nat): (s: seq<byte>)
    ensures |s| == w
  {
    if w == 0 then [] else [v % 256] + Little(v / 256, w - 1)
  }

  function FromLittle(s: seq<byte>): nat {
    if s == [] then 0 else s[0] + 256 * FromLittle(s[1..])
  }

  function Reversed(s: seq<byte>): (r: seq<byte>)
    ensures |r| == |s|
    ensures forall i :: 0 <= i < |s| ==> r[i] == s[|s| - 1 - i]
  {
    if s == [] then [] else Reversed(s[1..]) + [s[0]]
  }

  datatype Endian = LittleEndian | BigEndian

  /** How a machine of that byte order lays out an integer of w bytes, and reads it back. */
  function Layout(v: nat, w: nat, host: Endian): (s: seq<byte>)
    ensures |s| == w
  {
    if host.LittleEndian? then Little(v, w) else Reversed(Little(v, w))
  }

  function FromLayout(s: seq<byte>, host: Endian): nat {
    FromLittle(if host.LittleEndian? then s else Reversed(s))
  }

  /** bswap_16, bswap_32, bswap_64. */
  function Byteswap(v: nat, w: nat): nat {
    FromLittle(Reversed(Little(v, w)))
  }

  lemma {:induction false} LittleInverts(v: nat, w: nat)
    requires v < Pow256(w)
    ensures FromLittle(Little(v, w)) == v
  {
    if w > 0 {
      LittleInverts(v / 256, w - 1);
      assert Little(v, w)[1..] == Little(v / 256, w - 1);
    }
  }

  lemma {:induction false} FromLittleInverts(s: seq<byte>)
    ensures FromLittle(s) < Pow256(|s|)
    ensures Little(FromLittle(s), |s|) == s
  {
    if s != [] {
      FromLittleInverts(s[1..]);
      assert FromLittle(s) % 256 == s[0] && FromLittle(s) / 256 == FromLittle(s[1..]);
    }
  }

  lemma ReversedTwice(s: seq<byte>)
    ensures Reversed(Reversed(s)) == s
  {
  }

  /** byteswap undoes itself, on every value of its width. */
  lemma ByteswapTwice(v: nat, w: nat)
    requires v < Pow256(w)
    ensures Byteswap(v, w) < Pow256(w) && Byteswap(Byteswap(v, w), w) == v
  {
    FromLittleInverts(Reversed(Little(v, w)));
    ReversedTwice(Little(v, w));
    LittleInverts(v, w);
  }

  lemma LayoutInverts(v: nat, w: nat, host: Endian)
    requires v < Pow256(w)
    ensures FromLayout(Layout(v, w, host), host) == v
  {
    LittleInverts(v, w);
    ReversedTwice(Little(v, w));
  }

  /** What writeUintN hands to write: swapped when the setting is not the machine's. */
  function EncodeUint(v: nat, w: nat, endian: Endian, host: Endian): (s: seq<byte>)
    ensures |s| == w
  {
    Layout(if endian != host then Byteswap(v, w) else v, w, host)
  }

  /** What readUintN makes of the bytes read. */
  function DecodeUint(s: seq<byte>, endian: Endian, host: Endian): nat {
    var v := FromLayout(s, host);
    if endian != host then Byteswap(v, |s|) else v
  }

  /** The bytes depend on the setting only, not on the machine: least significant first for
      LittleEndian, most significant first for BigEndian. */
  lemma EncodeIsPortable(v: nat, w: nat, endian: Endian, host: Endian)
    ensures EncodeUint(v, w, endian, host) == if endian.LittleEndian? then Little(v, w) else Reversed(Little(v, w))
  {
    FromLittleInverts(Reversed(Little(v, w)));
    ReversedTwice(Little(v, w));
  }

  lemma {:induction false} LittleAt(v: nat, w: nat, k: nat)
    requires k < w
    ensures Little(v, w)[k] == v / Pow256(k) % 256
    decreases w
  {
    if k > 0 {
      LittleAt(v / 256, w - 1, k - 1);
      DivTwice(v, Pow256(k - 1));
    }
  }

  lemma DivTwice(v: nat, p: nat)
    requires p >= 1
    ensures v / 256 / p == v / (256 * p)
  {
    var q, r := v / 256 / p, v / 256 % p;
    assert v == 256 * (q * p + r) + v % 256;
    assert v == q * (256 * p) + (256 * r + v % 256);
    DivIs(v, q, 256 * p);
  }

  lemma PowersAre()
    ensures Pow256(0) == 1 && Pow256(1) == 0x100 && Pow256(2) == 0x1_0000 && Pow256(3) == 0x100_0000 && Pow256(4) == 0x1_0000_0000
    ensures Pow256(8) == 0x1_0000_0000_0000_0000
  {
    assert Pow256(6) == 0x1_0000_0000_0000;
  }

  /** Byte by byte: big-endian puts the most significant byte first, little-endian the least, on any machine. */
  lemma BytesAre(v: nat, w: nat, endian: Endian, host: Endian, k: nat)
    requires k < w
    ensures EncodeUint(v, w, endian, host)[k] == v / Pow256(if endian.BigEndian? then w - 1 - k else k) % 256
  {
    EncodeIsPortable(v, w, endian, host);
    LittleAt(v, w, if endian.BigEndian? then w - 1 - k else k);
  }

  lemma DecodeEncode(v: nat, w: nat, endian: Endian, host: Endian)
    requires v < Pow256(w)
    ensures DecodeUint(EncodeUint(v, w, endian, host), endian, host) == v
  {
    if endian != host {
      ByteswapTwice(v, w);
      LayoutInverts(Byteswap(v, w), w, host);
    } else {
      LayoutInverts(v, w, host);
    }
  }

  // ---------------------------------------------------------------- values

  datatype Value =
    | Uint(w: nat, n: nat)
    | Int(w: nat, i: int)
    | Str(w: nat, s: seq<byte>)  // with a length prefix of w bytes

  predicate IsWidth(w: nat) {
    w == 1 || w == 2 || w == 4 || w == 8
  }

  /** The argument types of the writers.  Strings have prefixes of 2, 4 or 8 bytes; the "Vint" form is
      the 8-byte one. */
  predicate Typed(v: Value) {
    IsWidth(v.w) &&
    match v
    case Uint(w, n) => n < Pow256(w)
    case Int(w, i) => -(Pow256(w) as int) <= 2 * i < Pow256(w)
    case Str(w, s) => w != 1
  }

  predicate Fits(v: Value) {
    v.Str? ==> |v.s| < Pow256(v.w)
  }

  /** Two's complement. */
  function ToUnsigned(i: int, w: nat): nat {
    i % Pow256(w)
  }

  function ToSigned(n: nat, w: nat): int {
    if 2 * n < Pow256(w) then n else n - Pow256(w)
  }

  /** A negative number is written as the unsigned one 256^w above it. */
  lemma TwosComplement(i: int, w: nat)
    requires -(Pow256(w) as int) <= 2 * i < Pow256(w)
    ensures ToUnsigned(i, w) == if i >= 0 then i else i + Pow256(w)
  {
    hide Pow256;
    if i < 0 { NegativeMod(i, Pow256(w)); } else { Small(i, Pow256(w)); }
  }

  lemma NegativeMod(i: int, p: int)
    requires 0 < p && -p <= i < 0
    ensures i % p == i + p
  {
  }

  lemma SignedInverts(i: int, w: nat)
    requires -(Pow256(w) as int) <= 2 * i < Pow256(w)
    ensures ToUnsigned(i, w) < Pow256(w) && ToSigned(ToUnsigned(i, w), w) == i
  {
    DivIs(i, if i < 0 then -1 else 0, Pow256(w));
  }

  /** The one or two calls of write a writer makes.  The length is truncated to the prefix. */
  function Prefix(v: Value, endian: Endian, host: Endian): (s: seq<byte>)
    ensures |s| == v.w
  {
    match v
    case Uint(w, n) => EncodeUint(n, w, endian, host)
    case Int(w, i) => EncodeUint(ToUnsigned(i, w), w, endian, host)
    case Str(w, s) => EncodeUint(|s| % Pow256(w), w, endian, host)
  }

  function Body(v: Value): seq<byte> {
    if v.Str? then v.s else []
  }

  function Encode(v: Value, endian: Endian, host: Endian): seq<byte> {
    Prefix(v, endian, host) + Body(v)
  }

  function EncodeAll(vs: seq<Value>, endian: Endian, host: Endian): seq<byte> {
    if vs == [] then [] else EncodeAll(vs[..|vs| - 1], endian, host) + Encode(vs[|vs| - 1], endian, host)
  }

  // ---------------------------------------------------------------- writing values

  /** What new memory holds is an arbitrary function of the position. */
  function Junk(at: nat, n: nat, memory: nat -> byte): (s: seq<byte>)
    ensures |s| == n
  {
    seq(n, i requires 0 <= i < n => memory(at + i))
  }

  function Put(b: Bytes, buf: seq<byte>, memory: nat -> byte): Result
    requires Wf(b)
  {
    Write(b, buf, Junk(|b.data|, if buf == [] then 0 else Shortfall(b, b.size + |buf|), memory))
  }

  /** The array holds `text` and its offset is at the end of it; no chunk was allocated early. */
  predicate Holds(b: Bytes, base: nat, text: seq<byte>) {
    && InPlace(b) && b.base == base
    && b.size == b.offset == |text| && b.data[..b.size] == text
    && |b.data| < b.size + b.base
  }

  lemma PutInPlace(b: Bytes, base: nat, text: seq<byte>, buf: seq<byte>, memory: nat -> byte)
    requires Holds(b, base, text)
    ensures Wf(b) && Put(b, buf, memory).Ok? && Holds(Put(b, buf, memory).after, base, text + buf)
  {
    var junk := Junk(|b.data|, if buf == [] then 0 else Shortfall(b, b.size + |buf|), memory);
    WriteInPlace(b, buf, junk);
    if buf != [] {
      Enough(b, b.size + |buf|);
      TightNodes(b, b.size + |buf|);
      assert Put(b, buf, memory).after.nodes == NodesFor(b, b.size + |buf|);
    }
  }

  lemma TightNodes(b: Bytes, need: nat)
    requires Wf(b) && need >= 1 && |b.data| < need + b.base
    ensures NodesFor(b, need) * b.base < need + b.base
  {
    var e := (need + b.base - 1) / b.base;
    assert need + b.base - 1 == e * b.base + (need + b.base - 1) % b.base;
    assert e >= 1 by {
      if e <= 0 { MulLe(e, 0, b.base); }
    }
  }

  function WriteValue(b: Bytes, v: Value, endian: Endian, host: Endian, memory: nat -> byte): Result
    requires Wf(b)
  {
    var r := Put(b, Prefix(v, endian, host), memory);
    if r.Ok? && v.Str? && Wf(r.after) then Put(r.after, v.s, memory) else r
  }

  lemma WriteValueIs(b: Bytes, base: nat, text: seq<byte>, v: Value, endian: Endian, host: Endian, memory: nat -> byte)
    requires Holds(b, base, text)
    ensures Wf(b) && WriteValue(b, v, endian, host, memory).Ok?
    ensures Holds(WriteValue(b, v, endian, host, memory).after, base, text + Encode(v, endian, host))
  {
    hide Put, Prefix;
    PutInPlace(b, base, text, Prefix(v, endian, host), memory);
    assert text + (Prefix(v, endian, host) + Body(v)) == text + Prefix(v, endian, host) + Body(v);
    if v.Str? {
      PutInPlace(Put(b, Prefix(v, endian, host), memory).after, base, text + Prefix(v, endian, host), v.s, memory);
    }
  }

  /** Writing a list of values from an empty array. */
  function WriteAll(base: nat, vs: seq<Value>, endian: Endian, host: Endian, memory: nat -> byte): Result {
    if vs == [] then Ok([], Empty(base))
    else
      var r := WriteAll(base, vs[..|vs| - 1], endian, host, memory);
      if r.Ok? && Wf(r.after) then WriteValue(r.after, vs[|vs| - 1], endian, host, memory) else r
  }

  /** The array holds the encodings one after the other. */
  lemma {:induction false} WriteAllIs(base: nat, vs: seq<Value>, endian: Endian, host: Endian, memory: nat -> byte)
    requires base >= 1
    ensures var r := WriteAll(base, vs, endian, host, memory);
            r.Ok? && Holds(r.after, base, EncodeAll(vs, endian, host))
  {
    hide WriteValue, Encode;
    if vs != [] {
      WriteAllIs(base, vs[..|vs| - 1], endian, host, memory);
      WriteValueIs(WriteAll(base, vs[..|vs| - 1], endian, host, memory).after, base,
                   EncodeAll(vs[..|vs| - 1], endian, host), vs[|vs| - 1], endian, host, memory);
    }
  }

  // ---------------------------------------------------------------- reading values

  datatype Got = Got(v: Value, after: Bytes) | Failed

  function ReadUint(b: Bytes, w: nat, endian: Endian, host: Endian): (Result, nat)
    requires Wf(b)
  {
    var r := Read(b, w);
    (r, if r.Ok? then DecodeUint(r.bytes, endian, host) else 0)
  }

  /** The reader that matches a writer; `shape` only says which reader. */
  function ReadValue(b: Bytes, shape: Value, endian: Endian, host: Endian): Got
    requires Wf(b)
  {
    var (r, n) := ReadUint(b, shape.w, endian, host);
    if !r.Ok? || !Wf(r.after) then Failed
    else match shape
      case Uint(w, _) => Got(Uint(w, n), r.after)
      case Int(w, _) => Got(Int(w, ToSigned(n, w)), r.after)
      case Str(w, _) =>
        var body := Read(r.after, n);
        if body.Ok? then Got(Str(w, body.bytes), body.after) else Failed
  }

  datatype GotAll = GotAll(vs: seq<Value>, ok: bool)

  function ReadAll(b: Bytes, shapes: seq<Value>, endian: Endian, host: Endian): GotAll
    decreases shapes
  {
    if shapes == [] then GotAll([], true)
    else if !Wf(b) then GotAll([], false)
    else
      var g := ReadValue(b, shapes[0], endian, host);
      if g.Failed? then GotAll([], false)
      else
        var rest := ReadAll(g.after, shapes[1..], endian, host);
        GotAll([g.v] + rest.vs, rest.ok)
  }

  // ---------------------------------------------------------------- round trip

  /** No empty string is read at a chunk boundary with more data to come. */
  predicate Harmless(v: Value, at: nat, base: nat, total: nat)
    requires base >= 1
  {
    v.Str? && v.s == [] ==> (at + v.w) % base != 0 || at + v.w == total
  }

  function Ends(vs: seq<Value>, at: nat): nat {
    if vs == [] then at else Ends(vs[1..], at + vs[0].w + |Body(vs[0])|)
  }

  predicate AllHarmless(vs: seq<Value>, at: nat, base: nat, total: nat)
    requires base >= 1
    decreases vs
  {
    vs == [] || (Harmless(vs[0], at, base, total) && AllHarmless(vs[1..], at + vs[0].w + |Body(vs[0])|, base, total))
  }

  lemma {:induction false} EncodeAllCons(vs: seq<Value>, endian: Endian, host: Endian)
    requires vs != []
    ensures EncodeAll(vs, endian, host) == Encode(vs[0], endian, host) + EncodeAll(vs[1..], endian, host)
  {
    hide Encode;
    if |vs| == 1 {
      assert vs[..0] == [] && vs[1..] == [];
    } else {
      EncodeAllCons(vs[..|vs| - 1], endian, host);
      assert vs[..|vs| - 1][1..] == vs[1..][..|vs[1..]| - 1];
    }
  }

  /** Reading one value where its encoding lies; the cursor is in place again unless an empty string sat
      on a boundary. */
  lemma ReadPrefixIs(b: Bytes, v: Value, endian: Endian, host: Endian)
    requires InPlace(b) && Typed(v) && b.offset + v.w <= b.size
    requires b.data[b.offset..b.offset + v.w] == Prefix(v, endian, host)
    ensures var (r, n) := ReadUint(b, v.w, endian, host);
            && r.Ok? && InPlace(r.after) && r.after == b.(offset := b.offset + v.w, cur := r.after.cur)
            && (v.Uint? ==> n == v.n) && (v.Int? ==> ToSigned(n, v.w) == v.i)
            && (v.Str? && Fits(v) ==> n == |v.s|)
  {
    hide DecodeUint, EncodeUint;
    ReadInPlace(b, v.w);
    match v {
      case Uint(w, n) => DecodeEncode(n, w, endian, host);
      case Int(w, i) => SignedInverts(i, w); DecodeEncode(ToUnsigned(i, w), w, endian, host);
      case Str(w, s) =>
        if Fits(v) {
          Small(|s|, Pow256(w));
          DecodeEncode(|s|, w, endian, host);
        }
    }
  }

  lemma ReadBodyIs(b: Bytes, s: seq<byte>)
    requires InPlace(b) && b.offset + |s| <= b.size && b.nodes > 0
    requires b.data[b.offset..b.offset + |s|] == s
    requires |b.data| < b.size + b.base
    requires s == [] ==> b.offset % b.base != 0 || b.offset == b.size
    ensures var r := Read(b, |s|);
            && r.Ok? && r.bytes == s && InPlace(r.after)
            && r.after == b.(offset := b.offset + |s|, cur := r.after.cur)
  {
    if s != [] {
      ReadInPlace(b, |s|);
    } else {
      EmptyReadIff(b);
      if b.offset % b.base == 0 { Aligned(b); }
    }
  }

  lemma Aligned(b: Bytes)
    requires Wf(b) && b.size % b.base == 0 && |b.data| < b.size + b.base
    ensures |b.data| == b.size
  {
    var q := b.size / b.base;
    assert b.size == q * b.base;
    if b.nodes > q { MulLe(q + 1, b.nodes, b.base); }
  }

  lemma HarmlessMeans(v: Value, at: nat, base: nat, total: nat)
    requires base >= 1 && Harmless(v, at, base, total)
    ensures v.Str? && v.s == [] ==> (at + v.w) % base != 0 || at + v.w == total
  {
  }

  lemma ReadValueIs(b: Bytes, v: Value, endian: Endian, host: Endian)
    requires InPlace(b) && Typed(v) && Fits(v)
    requires b.offset + |Encode(v, endian, host)| <= b.size && |b.data| < b.size + b.base
    requires b.data[b.offset..b.offset + |Encode(v, endian, host)|] == Encode(v, endian, host)
    requires Harmless(v, b.offset, b.base, b.size)
    ensures var g := ReadValue(b, v, endian, host);
            && g.Got? && g.v == v && InPlace(g.after)
            && g.after == b.(offset := b.offset + |Encode(v, endian, host)|, cur := g.after.cur)
  {
    hide DecodeUint, Prefix, Home, Start, Read, Harmless;
    var e := Encode(v, endian, host);
    HarmlessMeans(v, b.offset, b.base, b.size);
    SliceAgain(b.data, b.offset, b.offset + |e|, Prefix(v, endian, host), Body(v));
    ReadPrefixIs(b, v, endian, host);
    if v.Str? {
      ReadBodyIs(Read(b, v.w).after, v.s);
    }
  }

  lemma Small(n: nat, p: nat)
    requires n < p
    ensures n % p == n
  {
  }

  lemma SliceAgain(data: seq<byte>, o: nat, z: nat, e: seq<byte>, rest: seq<byte>)
    requires o <= z <= |data| && data[o..z] == e + rest
    ensures o + |e| <= z && data[o..o + |e|] == e && data[o + |e|..z] == rest
  {
    assert |data[o..z]| == z - o;
    assert data[o..o + |e|] == (e + rest)[..|e|];
    assert data[o + |e|..z] == (e + rest)[|e|..];
  }

  lemma {:induction false} ReadAllIs(b: Bytes, vs: seq<Value>, endian: Endian, host: Endian)
    requires InPlace(b) && |b.data| < b.size + b.base
    requires forall i :: 0 <= i < |vs| ==> Typed(vs[i]) && Fits(vs[i])
    requires b.data[b.offset..b.size] == EncodeAll(vs, endian, host)
    requires AllHarmless(vs, b.offset, b.base, b.size)
    ensures ReadAll(b, vs, endian, host) == GotAll(vs, true)
    decreases vs
  {
    hide Encode, EncodeAll, ReadValue, Home, Harmless, Typed, Fits;
    if vs == [] {
      assert ReadAll(b, vs, endian, host) == GotAll(vs, true);
    } else {
      EncodeAllCons(vs, endian, host);
      var e, rest := Encode(vs[0], endian, host), EncodeAll(vs[1..], endian, host);
      EncodeSize(vs[0], endian, host);
      SliceAgain(b.data, b.offset, b.size, e, rest);
      ReadValueIs(b, vs[0], endian, host);
      ReadAllIs(ReadValue(b, vs[0], endian, host).after, vs[1..], endian, host);
      assert [vs[0]] + vs[1..] == vs;
    }
  }

  lemma EncodeSize(v: Value, endian: Endian, host: Endian)
    ensures |Encode(v, endian, host)| == v.w + |Body(v)|
  {
  }

  /** Round trip: write any list of values into an empty array, go back to offset 0, make the matching
      reads: the same values, for every chunk size, byte-order setting and machine, whatever new memory
      holds, so long as strings fit their prefix and no empty string ends on a chunk boundary with more
      data behind it. */
  lemma RoundTrip(base: nat, vs: seq<Value>, endian: Endian, host: Endian, memory: nat -> byte)
    requires base >= 1
    requires forall i :: 0 <= i < |vs| ==> Typed(vs[i]) && Fits(vs[i])
    requires AllHarmless(vs, 0, base, |EncodeAll(vs, endian, host)|)
    ensures WriteAll(base, vs, endian, host, memory).Ok? && Wf(WriteAll(base, vs, endian, host, memory).after)
    ensures var r := SetOffset(WriteAll(base, vs, endian, host, memory).after, 0);
            r.Ok? && ReadAll(r.after, vs, endian, host) == GotAll(vs, true)
  {
    WriteAllIs(base, vs, endian, host, memory);
    var b := WriteAll(base, vs, endian, host, memory).after;
    SetOffsetIff(b, 0);
    ReadAllIs(SetOffset(b, 0).after, vs, endian, host);
  }

  /** Without empty strings there is nothing to check. */
  lemma {:induction false} NonEmptyIsHarmless(vs: seq<Value>, at: nat, base: nat, total: nat)
    requires base >= 1 && forall i :: 0 <= i < |vs| ==> !(vs[i].Str? && vs[i].s == [])
    ensures AllHarmless(vs, at, base, total)
    decreases vs
  {
    if vs != [] { NonEmptyIsHarmless(vs[1..], at + vs[0].w + |Body(vs[0])|, base, total); }
  }

  lemma TooLongComesBackShort(b: Bytes, v: Value, endian: Endian, host: Endian)
    requires InPlace(b) && Typed(v) && !Fits(v) && b.offset + v.w <= b.size
    requires b.data[b.offset..b.offset + v.w] == Prefix(v, endian, host)
    ensures var g := ReadValue(b, v, endian, host);
            g.Failed? || g.v != v
  {
    hide DecodeUint, EncodeUint, Little;
    ReadInPlace(b, v.w);
    DecodeEncode(|v.s| % Pow256(v.w), v.w, endian, host);
    var n := ReadUint(b, v.w, endian, host).1;
    assert n < |v.s|;
  }

  /** A string alone comes back exactly when its length fits the prefix. */
  lemma StringComesBackIff(base: nat, w: nat, s: seq<byte>, endian: Endian, host: Endian, memory: nat -> byte)
    requires base >= 1 && Typed(Str(w, s))
    ensures WriteAll(base, [Str(w, s)], endian, host, memory).Ok? && Wf(WriteAll(base, [Str(w, s)], endian, host, memory).after)
    ensures var r := SetOffset(WriteAll(base, [Str(w, s)], endian, host, memory).after, 0);
            r.Ok? && (ReadAll(r.after, [Str(w, s)], endian, host) == GotAll([Str(w, s)], true) <==> Fits(Str(w, s)))
  {
    hide WriteAll, ReadValue, Prefix, Typed, Fits;
    var v := Str(w, s);
    var e := Encode(v, endian, host);
    assert EncodeAll([v], endian, host) == e by { assert [v][..0] == []; }
    EncodeSize(v, endian, host);
    WriteAllIs(base, [v], endian, host, memory);
    var b := WriteAll(base, [v], endian, host, memory).after;
    SetOffsetIff(b, 0);
    if Fits(v) {
      RoundTrip(base, [v], endian, host, memory);
    } else {
      var b0 := SetOffset(b, 0).after;
      SliceAgain(b0.data, 0, b0.size, Prefix(v, endian, host), v.s);
      TooLongComesBackShort(b0, v, endian, host);
    }
  }

  /** Reading an empty string leaves the cursor in place exactly when it is harmless. */
  lemma EmptyStringIff(b: Bytes, w: nat, endian: Endian, host: Endian)
    requires InPlace(b) && Typed(Str(w, [])) && b.offset + w <= b.size && |b.data| < b.size + b.base
    requires b.data[b.offset..b.offset + w] == Prefix(Str(w, []), endian, host)
    ensures var g := ReadValue(b, Str(w, []), endian, host);
            && g.Got? && g.v == Str(w, [])
            && (InPlace(g.after) <==> Harmless(Str(w, []), b.offset, b.base, b.size))
  {
    var v := Str(w, []);
    assert Fits(v);
    ReadPrefixIs(b, v, endian, host);
    var b1 := Read(b, w).after;
    EmptyReadIff(b1);
    if b1.offset == b1.size && b1.size % b1.base == 0 { Aligned(b1); }
  }

  lemma EncodeThree(v0: Value, v1: Value, v2: Value, endian: Endian, host: Endian)
    ensures EncodeAll([v0, v1, v2], endian, host) == Encode(v0, endian, host) + (Encode(v1, endian, host) + Encode(v2, endian, host))
  {
    hide Encode;
    EncodeAllCons([v0, v1, v2], endian, host);
    assert [v0, v1, v2][1..] == [v1, v2];
    EncodeAllCons([v1, v2], endian, host);
    assert [v1, v2][1..] == [v2];
    EncodeAllCons([v2], endian, host);
    assert [v2][1..] == [];
  }

  /** After an empty string on the boundary at 2, reading a 16-bit number returns the one at 4. */
  lemma SkipsOne(b: Bytes, n: nat, shape: Value, endian: Endian, host: Endian)
    requires InPlace(b) && b.base == 2 && b.offset == 2 && b.size == 6 == |b.data| && n < 65536
    requires shape.Uint? && shape.w == 2
    requires b.data[4..6] == EncodeUint(n, 2, endian, host)
    ensures Read(b, 0).Ok? && Wf(Read(b, 0).after)
    ensures var g := ReadValue(Read(b, 0).after, shape, endian, host);
            g.Got? ==> g.v == Uint(2, n)
  {
    hide DecodeUint, EncodeUint;
    AfterEmptyRead(b, 2);
    assert Pow256(2) == 65536;
    DecodeEncode(n, 2, endian, host);
  }

  /** The smallest harm: chunks of two bytes, an empty string and two 16-bit numbers.  The first number
      comes back as the second. */
  lemma EmptyStringHarms(endian: Endian, host: Endian, memory: nat -> byte)
    ensures var vs := [Str(2, []), Uint(2, 258), Uint(2, 772)];
            && WriteAll(2, vs, endian, host, memory).Ok? && Wf(WriteAll(2, vs, endian, host, memory).after)
            && SetOffset(WriteAll(2, vs, endian, host, memory).after, 0).Ok?
            && ReadAll(SetOffset(WriteAll(2, vs, endian, host, memory).after, 0).after, vs, endian, host) != GotAll(vs, true)
  {
    hide WriteAll, ReadAll, Encode, EncodeAll, Home;
    var vs := [Str(2, []), Uint(2, 258), Uint(2, 772)];
    WriteAllIs(2, vs, endian, host, memory);
    var b := WriteAll(2, vs, endian, host, memory).after;
    SetOffsetIff(b, 0);
    EncodeThree(vs[0], vs[1], vs[2], endian, host);
    EncodeSize(vs[0], endian, host);
    EncodeSize(vs[1], endian, host);
    EncodeSize(vs[2], endian, host);
    Aligned(b);
    assert b.data[..6] == b.data[..b.size];
    HarmedRead(SetOffset(b, 0).after, vs, endian, host);
  }

  lemma HarmedRead(b: Bytes, vs: seq<Value>, endian: Endian, host: Endian)
    requires InPlace(b) && b.base == 2 && b.offset == 0 && b.size == 6 == |b.data|
    requires vs == [Str(2, []), Uint(2, 258), Uint(2, 772)]
    requires b.data[..6] == Encode(vs[0], endian, host) + (Encode(vs[1], endian, host) + Encode(vs[2], endian, host))
    ensures ReadAll(b, vs, endian, host) != GotAll(vs, true)
  {
    hide DecodeUint, EncodeUint, Home;
    var e0, e1, e2 := Encode(vs[0], endian, host), Encode(vs[1], endian, host), Encode(vs[2], endian, host);
    assert b.data[0..6] == b.data[..6];
    SliceAgain(b.data, 0, 6, e0, e1 + e2);
    SliceAgain(b.data, 2, 6, e1, e2);
    ReadPrefixIs(b, vs[0], endian, host);
    SkipsOne(Read(b, 2).after, 772, vs[1], endian, host);
    var g0 := ReadValue(b, vs[0], endian, host);
    assert g0.Got? && g0.after == Read(Read(b, 2).after, 0).after;
    var g1 := ReadValue(g0.after, vs[1], endian, host);
    assert g1.Got? ==> g1.v != vs[1];
    assert vs[1..][0] == vs[1];
    var rest := ReadAll(g0.after, vs[1..], endian, host);
    assert rest.vs == [] || rest.vs[0] == g1.v;
    assert ReadAll(b, vs, endian, host).vs == [g0.v] + rest.vs;
    assert rest.vs != [] ==> ([g0.v] + rest.vs)[1] == rest.vs[0];
  }
}
