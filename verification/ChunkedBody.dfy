/** Reassembly of a chunked body (HttpConnection::recvResponse in src/http/http_connection.cpp, with the
    chunk-header grammar of src/http/http_response_parser.rl).

    The peer's bytes arrive in reads whose sizes `frag` dictates: read number k returns an error if
    frag(k) < 0, else at most frag(k) bytes, at most what was asked for and at most what is there; 0 is
    the end of the stream.  Text is sequences of characters below 256. */
module ChunkedBody {
  import opened Wrappers

  // ---------------------------------------------------------------- the header of one chunk

  predicate IsHex(c: char) {
    '0' <= c <= '9' || 'A' <= c <= 'F' || 'a' <= c <= 'f'
  }

  predicate IsToken(c: char) {
    c == '!' || '#' <= c <= '\'' || c == '*' || c == '+' || c == '-' || c == '.' || '0' <= c <= '9' ||
    'A' <= c <= 'Z' || '^' <= c <= 'z' || c == '|' || c == '~'
  }

  datatype State = Start | Size | Cr | Name0 | Name | Value0 | Value | Final | Failed | Other

  /** One step of the machine; Other is the first letter of a status line. */
  function Step(st: State, c: char): State {
    match st
    case Start => if IsHex(c) then Size else if c == 'H' then Other else Failed
    case Size => if IsHex(c) then Size else if c == ';' then Name0 else LineEnd(c)
    case Cr => if c == '\n' then Final else Failed
    case Name0 => if IsToken(c) then Name else Failed
    case Name => if IsToken(c) then Name else if c == '=' then Value0 else if c == ';' then Name0 else LineEnd(c)
    case Value0 => if IsToken(c) then Value else Failed
    case Value => if IsToken(c) then Value else if c == ';' then Name0 else LineEnd(c)
    case _ => st
  }

  function LineEnd(c: char): State {
    if c == '\r' then Cr else if c == '\n' then Final else Failed
  }

  predicate Stops(st: State) {
    st.Final? || st.Failed? || st.Other?
  }

  function HexDigit(c: char): (d: nat)
    requires IsHex(c)
    ensures d < 16
  {
    if '0' <= c <= '9' then c as nat - '0' as nat
    else if 'A' <= c <= 'F' then c as nat - 'A' as nat + 10
    else c as nat - 'a' as nat + 10
  }

  function HexRun(s: string): nat {
    if s == "" || !IsHex(s[0]) then 0 else 1 + HexRun(s[1..])
  }

  function HexValue(s: string, acc: nat): nat {
    if s == "" || !IsHex(s[0]) then acc else HexValue(s[1..], 16 * acc + HexDigit(s[0]))
  }

  const LONG_MAX: int := 0x7FFF_FFFF_FFFF_FFFF
  const INT_MAX: int := 0x7FFF_FFFF

  /** strtol saturates; the field it is stored in has 32 bits. */
  function ToInt(v: nat): int {
    var l := if v > LONG_MAX then LONG_MAX else v;
    var low := l % 0x1_0000_0000;
    if low > INT_MAX then low - 0x1_0000_0000 else low
  }

  datatype Scan = Done(n: nat, size: int) | Partial | Bad | Foreign

  function From(st: State, s: string, i: nat, text: string): Scan
    requires i <= |s|
    decreases |s| - i
  {
    if st.Final? then Done(i, ToInt(HexValue(text, 0)))
    else if st.Failed? then Bad
    else if st.Other? then Foreign
    else if i == |s| then Partial
    else From(Step(st, s[i]), s, i + 1, text)
  }

  /** One call of execute on a fresh parser. */
  function ScanHeader(s: string): Scan {
    From(Start, s, 0, s)
  }

  /** The pointer walk. */
  method Execute(data: string) returns (r: Scan)
    ensures r == ScanHeader(data)
  {
    var cs := Start;
    var p := 0;
    while p < |data| && !Stops(cs)
      invariant p <= |data|
      invariant From(cs, data, p, data) == ScanHeader(data)
    {
      cs := Step(cs, data[p]);
      p := p + 1;
    }
    match cs {
      case Final => r := Done(p, ToInt(HexValue(data, 0)));
      case Failed => r := Bad;
      case Other => r := Foreign;
      case _ => r := Partial;
    }
  }

  lemma {:induction false} FromBounds(st: State, s: string, i: nat, text: string)
    requires i <= |s|
    ensures From(st, s, i, text).Done? ==> i <= From(st, s, i, text).n <= |s|
    ensures From(st, s, i, text).Done? ==> From(st, s, i, text).size == ToInt(HexValue(text, 0))
    ensures From(st, s, i, text).Done? && !st.Final? ==> i < From(st, s, i, text).n
    decreases |s| - i
  {
    if !Stops(st) && i < |s| { FromBounds(Step(st, s[i]), s, i + 1, text); }
  }

  /** A header is a digit and a line end at least. */
  lemma HeaderIsTwo(s: string)
    ensures ScanHeader(s).Done? ==> ScanHeader(s).n >= 2
  {
    if s != "" {
      FromBounds(Step(Start, s[0]), s, 1, s);
      assert From(Start, s, 0, s) == From(Step(Start, s[0]), s, 1, s);
      assert !Step(Start, s[0]).Final?;
    }
  }

  /** More bytes behind do not change a verdict. */
  lemma {:induction false} FromPrefix(st: State, s: string, more: string, i: nat, text: string)
    requires i <= |s|
    ensures From(st, s, i, text) != Partial ==> From(st, s + more, i, text) == From(st, s, i, text)
    decreases |s| - i
  {
    if !Stops(st) && i < |s| { FromPrefix(Step(st, s[i]), s, more, i + 1, text); }
  }

  /** The digits end where a byte that is no digit comes, so the value does not depend on what follows. */
  lemma {:induction false} HexPrefix(s: string, more: string, acc: nat)
    requires HexRun(s) < |s|
    ensures HexValue(s + more, acc) == HexValue(s, acc)
  {
    if s != "" && IsHex(s[0]) {
      assert (s + more)[1..] == s[1..] + more;
      HexPrefix(s[1..], more, 16 * acc + HexDigit(s[0]));
    }
  }

  lemma {:induction false} AllHexRuns(s: string)
    requires HexRun(s) >= |s|
    ensures HexRun(s) == |s| && forall i :: 0 <= i < |s| ==> IsHex(s[i])
  {
    if s != "" {
      AllHexRuns(s[1..]);
      assert forall i :: 1 <= i < |s| ==> s[i] == s[1..][i - 1];
    }
  }

  lemma {:induction false} AllHexIsPartial(st: State, s: string, i: nat, text: string)
    requires i <= |s| && (st.Start? || st.Size?) && forall k :: i <= k < |s| ==> IsHex(s[k])
    ensures From(st, s, i, text) == Partial
    decreases |s| - i
  {
    if i < |s| { AllHexIsPartial(Size, s, i + 1, text); }
  }

  lemma {:induction false} FromIgnoresText(st: State, s: string, i: nat, text: string, text': string)
    requires i <= |s| && !From(st, s, i, text).Done?
    ensures From(st, s, i, text') == From(st, s, i, text)
    decreases |s| - i
  {
    if !Stops(st) && i < |s| { FromIgnoresText(Step(st, s[i]), s, i + 1, text, text'); }
  }

  /** A verdict on the first part is the verdict on the whole. */
  lemma ScanPrefix(s: string, more: string)
    requires ScanHeader(s) != Partial
    ensures ScanHeader(s + more) == ScanHeader(s)
    ensures ScanHeader(s).Done? ==> 0 < ScanHeader(s).n <= |s|
  {
    FromBounds(Start, s, 0, s);
    FromPrefix(Start, s, more, 0, s);
    if ScanHeader(s).Done? {
      if HexRun(s) >= |s| {
        AllHexRuns(s);
        AllHexIsPartial(Start, s, 0, s);
      } else {
        HexPrefix(s, more, 0);
      }
      FromBounds(Start, s + more, 0, s);
      DoneText(Start, s + more, 0, s, s + more);
    } else {
      FromIgnoresText(Start, s + more, 0, s, s + more);
    }
  }

  lemma {:induction false} DoneText(st: State, s: string, i: nat, text: string, text': string)
    requires i <= |s| && From(st, s, i, text).Done? && HexValue(text, 0) == HexValue(text', 0)
    ensures From(st, s, i, text') == From(st, s, i, text)
    decreases |s| - i
  {
    if !Stops(st) && i < |s| { DoneText(Step(st, s[i]), s, i + 1, text, text'); }
  }

  lemma ScanBounds(s: string)
    ensures ScanHeader(s).Done? ==> 0 < ScanHeader(s).n <= |s|
  {
    FromBounds(Start, s, 0, s);
  }

  // ---------------------------------------------------------------- what the bytes mean

  /** The length the int arithmetic of the loop is defined for. */
  predicate Sane(size: int) {
    0 <= size <= INT_MAX - 2
  }

  datatype Decoded = Whole(text: string, used: nat) | Short | Wrong

  /** The chunked message at the front of a byte sequence, with no regard to how it arrives. */
  function Decode(s: string): Decoded
    decreases |s|
  {
    match ScanHeader(s)
    case Partial => Short
    case Bad => Wrong
    case Foreign => Wrong
    case Done(n, size) =>
      FromBounds(Start, s, 0, s);
      if !Sane(size) then Wrong
      else if n + size + 2 > |s| then Short
      else if size == 0 then Whole("", n + 2)
      else match Decode(s[n + size + 2..])
        case Whole(text, used) => Whole(s[n..n + size] + text, n + size + 2 + used)
        case other => other
  }

  // ---------------------------------------------------------------- receiving

  type Frag = nat -> int

  datatype Rx = Rx(wire: string, calls: nat)

  datatype Received = Received(rt: int, got: string, rx: Rx)

  function Least(a: int, b: int): int {
    if a < b then a else b
  }

  function Receive(rx: Rx, frag: Frag, max: nat): (r: Received)
    ensures r.rt > 0 ==> |r.got| == r.rt <= max
    ensures r.rt <= 0 ==> r.got == ""
    ensures rx.wire == r.got + r.rx.wire && r.rx.calls == rx.calls + 1
    ensures frag(rx.calls) > 0 && max > 0 && rx.wire != "" ==> r.rt > 0
    ensures frag(rx.calls) >= 0 ==> r.rt >= 0
  {
    var f := frag(rx.calls);
    if f < 0 then Received(-1, "", Rx(rx.wire, rx.calls + 1))
    else
      var n := Least(f, Least(max, |rx.wire|));
      Received(n, rx.wire[..n], Rx(rx.wire[n..], rx.calls + 1))
  }

  /** Pending: the call has not returned after the given number of reads.  Closed: a null response.
      Fault: the int arithmetic or the append on a negative length is undefined or throws. */
  datatype Outcome = Body(text: string) | Closed | Fault | Unmodelled | Pending

  datatype Head = Head(size: int, buf: string, rx: Rx, split: bool) | Stop(outcome: Outcome, split: bool)

  function Left(fuel: nat, rx: Rx): nat {
    if rx.calls < fuel then fuel - rx.calls else 0
  }

  /** The inner loop: read if there is nothing, parse from scratch; an incomplete header is consumed and
      forgotten (the parser is initialised again by the next call). */
  function ReadHeader(rx: Rx, frag: Frag, buf: string, begin: bool, max: nat, fuel: nat): (h: Head)
    requires |buf| <= max
    ensures h.Head? ==> |h.buf| + |h.rx.wire| + 2 <= |buf| + |rx.wire| && |h.buf| <= max
    ensures h.Stop? ==> !h.outcome.Body?
    decreases Left(fuel, rx), if begin then 2 else 0
  {
    if !begin || buf == "" then
      if rx.calls >= fuel then Stop(Pending, false)
      else
        var r := Receive(rx, frag, max - |buf|);
        if r.rt <= 0 then Stop(Closed, false)
        else Parse(r.rx, frag, buf + r.got, max, fuel)
    else Parse(rx, frag, buf, max, fuel)
  }

  function Parse(rx: Rx, frag: Frag, data: string, max: nat, fuel: nat): (h: Head)
    requires |data| <= max
    ensures h.Head? ==> |h.buf| + |h.rx.wire| + 2 <= |data| + |rx.wire| && |h.buf| <= max
    ensures h.Stop? ==> !h.outcome.Body?
    decreases Left(fuel, rx), 1
  {
    match ScanHeader(data)
    case Bad => Stop(Closed, false)
    case Foreign => Stop(Unmodelled, false)
    case Done(n, size) =>
      FromBounds(Start, data, 0, data);
      HeaderIsTwo(data);
      Head(size, data[n..], rx, false)
    case Partial =>
      var h := if rx.calls >= fuel then Stop(Pending, true) else ReadHeader(rx, frag, "", false, max, fuel);
      h.(split := true)
  }

  datatype Tail = Tail(text: string, rx: Rx) | NoTail(pending: bool)

  /** The loop for the part of a chunk that is not buffered; a read of 0 bytes does not end it. */
  function ReadRest(rx: Rx, frag: Frag, left: int, max: nat, fuel: nat): (t: Tail)
    ensures t.Tail? ==> |rx.wire| == |t.text| + |t.rx.wire| && rx.calls <= t.rx.calls
    ensures t.Tail? && left >= 0 && max > 0 ==> |t.text| == left
    decreases Left(fuel, rx)
  {
    if left <= 0 then Tail("", rx)
    else if rx.calls >= fuel then NoTail(true)
    else
      var r := Receive(rx, frag, Least(left, max));
      if r.rt < 0 then NoTail(false)
      else match ReadRest(r.rx, frag, left - r.rt, max, fuel)
        case Tail(text, rx') => Tail(r.got + text, rx')
        case other => other
  }

  datatype Result = Result(outcome: Outcome, split: bool)

  function Prepend(text: string, r: Result): Result {
    if r.outcome.Body? then r.(outcome := Body(text + r.outcome.text)) else r
  }

  /** The outer loop: one chunk after the other, the two bytes behind each dropped unseen. */
  function Chunks(rx: Rx, frag: Frag, buf: string, max: nat, fuel: nat): Result
    requires |buf| <= max && max > 0
    decreases |buf| + |rx.wire|
  {
    match ReadHeader(rx, frag, buf, true, max, fuel)
    case Stop(outcome, split) => Result(outcome, split)
    case Head(size, buf', rx', split) =>
      var r :=
        if !Sane(size) then Result(Fault, false)
        else if size + 2 <= |buf'| then
          (if size == 0 then Result(Body(""), false)
           else Prepend(buf'[..size], Chunks(rx', frag, buf'[size + 2..], max, fuel)))
        else match ReadRest(rx', frag, size - |buf'| + 2, max, fuel)
          case NoTail(pending) => Result(if pending then Pending else Closed, false)
          case Tail(text, rx'') =>
            if size == 0 then Result(Body(""), false)
            else Prepend((buf' + text)[..size], Chunks(rx'', frag, "", max, fuel));
      r.(split := r.split || split)
  }

  // ---------------------------------------------------------------- the result is the message

  /** The header was parsed off the front of `all`. */
  ghost predicate Parsed(h: Head, all: string, max: nat) {
    && h.Head? && |h.buf| <= max && |h.buf + h.rx.wire| <= |all|
    && ScanHeader(all) == Done(|all| - |h.buf + h.rx.wire|, h.size)
    && h.buf + h.rx.wire == all[|all| - |h.buf + h.rx.wire|..]
  }

  lemma ParseIs(rx: Rx, frag: Frag, data: string, max: nat, fuel: nat)
    requires |data| <= max && ScanHeader(data + rx.wire).Done?
    ensures var h := Parse(rx, frag, data, max, fuel);
            !h.split ==> Parsed(h, data + rx.wire, max) && h.rx == rx
  {
    hide From, ReadHeader;
    if ScanHeader(data) != Partial {
      ScanPrefix(data, rx.wire);
      FromBounds(Start, data, 0, data);
      var n := ScanHeader(data).n;
      assert data[n..] + rx.wire == (data + rx.wire)[n..];
    }
  }

  lemma ReadHeaderIs(rx: Rx, frag: Frag, buf: string, max: nat, fuel: nat)
    requires |buf| <= max && max > 0 && forall k :: frag(k) > 0
    requires fuel >= rx.calls + |rx.wire| && ScanHeader(buf + rx.wire).Done?
    ensures var h := ReadHeader(rx, frag, buf, true, max, fuel);
            !h.split ==> Parsed(h, buf + rx.wire, max) && h.rx.calls + |h.rx.wire| <= rx.calls + |rx.wire|
  {
    hide From, Parse;
    var all := buf + rx.wire;
    FromBounds(Start, all, 0, all);
    if buf == "" {
      assert all == rx.wire;
      var r := Receive(rx, frag, max);
      assert r.got + r.rx.wire == all && buf + r.got == r.got;
      ParseIs(r.rx, frag, r.got, max, fuel);
    } else {
      ParseIs(rx, frag, buf, max, fuel);
    }
  }

  lemma {:induction false} ReadRestIs(rx: Rx, frag: Frag, left: nat, max: nat, fuel: nat)
    requires max > 0 && (forall k :: frag(k) > 0) && left <= |rx.wire| && fuel >= rx.calls + |rx.wire|
    ensures var t := ReadRest(rx, frag, left, max, fuel);
            && t.Tail? && t.text == rx.wire[..left] && t.rx.wire == rx.wire[left..]
            && t.rx.calls + |t.rx.wire| <= rx.calls + |rx.wire|
    decreases left
  {
    hide Receive;
    if left == 0 {
      assert rx.wire[..0] == "" && rx.wire[0..] == rx.wire;
    } else {
      var r := Receive(rx, frag, Least(left, max));
      assert rx.wire != "" && r.rt > 0;
      ReadRestIs(r.rx, frag, left - r.rt, max, fuel);
      TakeOver(r.got, r.rx.wire, left);
    }
  }

  /** Some bytes first, then the others. */
  lemma TakeOver(got: string, rest: string, left: nat)
    requires |got| <= left <= |got + rest|
    ensures got + rest[..left - |got|] == (got + rest)[..left] && rest[left - |got|..] == (got + rest)[left..]
  {
  }

  lemma ReceiveIs(rx: Rx, frag: Frag, max: nat)
    requires frag(rx.calls) > 0
    ensures Receive(rx, frag, max).rt == Least(frag(rx.calls), Least(max, |rx.wire|))
  {
  }

  lemma DecodeStep(all: string)
    requires Decode(all).Whole?
    ensures ScanHeader(all).Done?
    ensures var Done(n, size) := ScanHeader(all);
            && 0 < n && Sane(size) && n + size + 2 <= |all|
            && (size == 0 ==> Decode(all).text == "")
            && (size > 0 ==> Decode(all[n + size + 2..]).Whole? &&
                             Decode(all).text == all[n..n + size] + Decode(all[n + size + 2..]).text)
  {
    FromBounds(Start, all, 0, all);
  }

  /** Cutting a chunk out of a text that starts in the buffer. */
  lemma Cut(all: string, n: nat, size: nat, buf: string, wire: string)
    requires n + size + 2 <= |all| && all[n..] == buf + wire
    ensures size + 2 <= |buf| ==> all[n..n + size] == buf[..size] && all[n + size + 2..] == buf[size + 2..] + wire
    ensures size + 2 > |buf| ==>
              var left := size + 2 - |buf|;
              && left <= |wire| && all[n..n + size] == (buf + wire[..left])[..size] && all[n + size + 2..] == "" + wire[left..]
  {
    assert all[n..n + size] == all[n..][..size];
    assert all[n + size + 2..] == all[n..][size + 2..];
    if size + 2 > |buf| {
      var left := size + 2 - |buf|;
      assert (buf + wire)[..size + 2] == buf + wire[..left];
      assert (buf + wire)[..size] == (buf + wire)[..size + 2][..size];
    }
  }

  /** Whatever the fragmentation, as long as no header is parsed before its line is complete: the call
      returns, and the body is the text the bytes mean. */
  lemma {:induction false} ChunksIs(rx: Rx, frag: Frag, buf: string, max: nat, fuel: nat)
    requires |buf| <= max && max > 0 && forall k :: frag(k) > 0
    requires fuel >= rx.calls + |rx.wire| && Decode(buf + rx.wire).Whole?
    ensures var r := Chunks(rx, frag, buf, max, fuel);
            !r.split ==> r.outcome == Body(Decode(buf + rx.wire).text)
    decreases |buf| + |rx.wire|
  {
    hide ScanHeader, ReadHeader, ReadRest, Decode, Receive;
    var all := buf + rx.wire;
    DecodeStep(all);
    ReadHeaderIs(rx, frag, buf, max, fuel);
    var h := ReadHeader(rx, frag, buf, true, max, fuel);
    if !h.split {
      var n, size := ScanHeader(all).n, h.size;
      Cut(all, n, size, h.buf, h.rx.wire);
      if size + 2 <= |h.buf| {
        if size > 0 { ChunksIs(h.rx, frag, h.buf[size + 2..], max, fuel); }
      } else {
        ReadRestIs(h.rx, frag, size - |h.buf| + 2, max, fuel);
        var t := ReadRest(h.rx, frag, size - |h.buf| + 2, max, fuel);
        if size > 0 { ChunksIs(t.rx, frag, "", max, fuel); }
      }
    }
  }

  // ---------------------------------------------------------------- messages of RFC 7230, section 4.1

  datatype Ext = Ext(name: string, value: Option<string>)

  /** One chunk as a sender may write it: any digits of the right value, extensions, either line end. */
  datatype Chunk = Chunk(digits: string, exts: seq<Ext>, cr: bool, data: string)

  predicate Tokens(s: string) {
    s != "" && forall i :: 0 <= i < |s| ==> IsToken(s[i])
  }

  predicate Digits(s: string) {
    s != "" && forall i :: 0 <= i < |s| ==> IsHex(s[i])
  }

  const LOWER_DIGITS: string := "0123456789abcdef"
  const UPPER_DIGITS: string := "0123456789ABCDEF"

  /** `s` writes `n` in hexadecimal digits, of either case, perhaps with zeros in front. */
  predicate PrintsHex(s: string, n: nat)
    decreases |s|
  {
    && s != ""
    && (s[|s| - 1] == LOWER_DIGITS[n % 16] || s[|s| - 1] == UPPER_DIGITS[n % 16])
    && if |s| == 1 then n < 16 else PrintsHex(s[..|s| - 1], n / 16)
  }

  lemma HexDigitIs(c: char, d: nat)
    requires d < 16
    ensures c == LOWER_DIGITS[d] || c == UPPER_DIGITS[d] <==> IsHex(c) && HexDigit(c) == d
  {
  }

  lemma {:induction false} HexSnoc(s: string, acc: nat)
    requires Digits(s)
    ensures HexValue(s, acc) == 16 * HexValue(s[..|s| - 1], acc) + HexDigit(s[|s| - 1])
    decreases |s|
  {
    if |s| == 1 {
      assert s[1..] == "" && s[..0] == "";
    } else {
      HexSnoc(s[1..], 16 * acc + HexDigit(s[0]));
      assert s[1..][..|s[1..]| - 1] == s[..|s| - 1][1..];
    }
  }

  /** The digits are read as the number they write, and as no other. */
  lemma {:induction false} HexReadsBack(s: string, n: nat)
    ensures PrintsHex(s, n) <==> Digits(s) && HexValue(s, 0) == n
    decreases |s|
  {
    if s != "" {
      var c, front := s[|s| - 1], s[..|s| - 1];
      HexDigitIs(c, n % 16);
      if Digits(s) {
        HexSnoc(s, 0);
        assert n == 16 * HexValue(front, 0) + HexDigit(c) <==> n / 16 == HexValue(front, 0) && n % 16 == HexDigit(c);
      }
      if |s| > 1 {
        HexReadsBack(front, n / 16);
        assert Digits(front) && IsHex(c) ==> Digits(s);
      }
    }
  }

  /** What size a header's digits give: the number, if it fits an int; else its lower 32 bits, and -1 from
      2^63 on, where strtol saturates. */
  lemma ToIntIs(v: nat)
    ensures v < 0x8000_0000 ==> ToInt(v) == v
    ensures v < 0x8000_0000_0000_0000 ==> -0x8000_0000 <= ToInt(v) < 0x8000_0000 && (v - ToInt(v)) % 0x1_0000_0000 == 0
    ensures v >= 0x8000_0000_0000_0000 ==> ToInt(v) == -1
  {
  }

  predicate ValidExt(e: Ext) {
    Tokens(e.name) && (e.value.Some? ==> Tokens(e.value.value))
  }

  predicate ValidChunk(c: Chunk) {
    && Digits(c.digits) && PrintsHex(c.digits, |c.data|) && Sane(|c.data|)
    && forall i :: 0 <= i < |c.exts| ==> ValidExt(c.exts[i])
  }

  function EndOfLine(cr: bool): string {
    if cr then "\r\n" else "\n"
  }

  function ExtText(exts: seq<Ext>): string {
    if exts == [] then ""
    else ";" + exts[0].name + (if exts[0].value.Some? then "=" + exts[0].value.value else "") + ExtText(exts[1..])
  }

  function HeaderText(c: Chunk): string {
    c.digits + (ExtText(c.exts) + EndOfLine(c.cr))
  }

  function ChunkText(c: Chunk): string {
    HeaderText(c) + c.data + "\r\n"
  }

  /** The chunks, then the last one, which has no data; no trailers. */
  function Message(cs: seq<Chunk>, last: Chunk): string {
    if cs == [] then ChunkText(last) else ChunkText(cs[0]) + Message(cs[1..], last)
  }

  function Payload(cs: seq<Chunk>): string {
    if cs == [] then "" else cs[0].data + Payload(cs[1..])
  }

  /** Runs of digits or token characters keep the machine where it is. */
  lemma {:induction false} Stays(st: State, s: string, i: nat, j: nat, text: string)
    requires i <= j <= |s|
    requires (st.Size? && forall k :: i <= k < j ==> IsHex(s[k])) ||
             ((st.Name? || st.Value?) && forall k :: i <= k < j ==> IsToken(s[k]))
    ensures From(st, s, i, text) == From(st, s, j, text)
    decreases j - i
  {
    if i < j { Stays(st, s, i + 1, j, text); }
  }

  ghost predicate RestIs(s: string, i: nat, text: string) {
    i <= |s| && s[i..] == text
  }

  lemma RestFits(s: string, i: nat, text: string)
    requires RestIs(s, i, text)
    ensures i <= |s|
  {
  }

  lemma {:induction false} ExtsScan(st: State, s: string, i: nat, exts: seq<Ext>, cr: bool, text: string)
    requires RestIs(s, i, ExtText(exts) + EndOfLine(cr)) && (st.Size? || st.Name? || st.Value?)
    requires forall k :: 0 <= k < |exts| ==> ValidExt(exts[k])
    ensures From(st, s, i, text) == Done(|s|, ToInt(HexValue(text, 0)))
    decreases exts
  {
    hide RestIs, From, HexValue, IsHex, IsToken, EndOfLine, ToInt, ExtText, AfterName;
    RestFits(s, i, ExtText(exts) + EndOfLine(cr));
    if exts == [] {
      LineEnds(st, s, i, cr, text);
    } else {
      var j := i + 1 + |exts[0].name|;
      ExtHead(st, s, i, exts, cr, text);
      ExtsShape(exts, cr);
      if exts[0].value.Some? {
        ValueHead(s, j, exts, cr, text);
        ExtsScan(Value, s, j + 1 + |exts[0].value.value|, exts[1..], cr, text);
      } else {
        ExtsScan(Name, s, j, exts[1..], cr, text);
      }
    }
  }

  lemma LineEnds(st: State, s: string, i: nat, cr: bool, text: string)
    requires RestIs(s, i, ExtText([]) + EndOfLine(cr)) && (st.Size? || st.Name? || st.Value?)
    ensures From(st, s, i, text) == Done(|s|, ToInt(HexValue(text, 0)))
  {
    hide HexValue, ToInt;
    assert s[i..][0] == s[i];
    if cr {
      assert s[i..][1] == s[i + 1];
      assert From(Cr, s, i + 1, text) == From(Final, s, i + 2, text);
    }
  }

  function AfterName(exts: seq<Ext>, cr: bool): string
    requires exts != []
  {
    (if exts[0].value.Some? then "=" + exts[0].value.value else "") + (ExtText(exts[1..]) + EndOfLine(cr))
  }

  /** A character and a run of token characters, then the rest. */
  lemma Segment(s: string, i: nat, c: char, name: string, rest: string)
    requires RestIs(s, i, [c] + (name + rest)) && Tokens(name)
    ensures var j := i + 1 + |name|;
            && i + 2 <= j <= |s| && s[i] == c && RestIs(s, j, rest) && forall k :: i + 1 <= k < j ==> IsToken(s[k])
  {
    assert s[i] == s[i..][0];
    var j := i + 1 + |name|;
    assert s[j..] == s[i..][1 + |name|..];
    forall k | i + 1 <= k < j
      ensures s[k] == name[k - (i + 1)]
    {
      assert s[k] == s[i..][k - i];
    }
  }

  lemma ExtHead(st: State, s: string, i: nat, exts: seq<Ext>, cr: bool, text: string)
    requires exts != [] && ValidExt(exts[0]) && (st.Size? || st.Name? || st.Value?)
    requires RestIs(s, i, ExtText(exts) + EndOfLine(cr))
    ensures var j := i + 1 + |exts[0].name|;
            && i < j <= |s| && RestIs(s, j, AfterName(exts, cr)) && From(st, s, i, text) == From(Name, s, j, text)
  {
    hide RestIs, From, HexValue, IsHex, IsToken, EndOfLine, ExtText, AfterName;
    var name := exts[0].name;
    ExtsShape(exts, cr);
    Segment(s, i, ';', name, AfterName(exts, cr));
    EnterName(st, s, i, text);
    Stays(Name, s, i + 2, i + 1 + |name|, text);
  }

  lemma EnterName(st: State, s: string, i: nat, text: string)
    requires i + 2 <= |s| && s[i] == ';' && IsToken(s[i + 1]) && (st.Size? || st.Name? || st.Value?)
    ensures From(st, s, i, text) == From(Name, s, i + 2, text)
  {
    hide HexValue, IsHex, IsToken, ToInt;
    SemicolonStep(st);
    NameStep(s[i + 1]);
    assert From(st, s, i, text) == From(Name0, s, i + 1, text);
  }

  lemma EnterValue(s: string, i: nat, text: string)
    requires i + 2 <= |s| && s[i] == '=' && IsToken(s[i + 1])
    ensures From(Name, s, i, text) == From(Value, s, i + 2, text)
  {
    hide HexValue, IsHex, IsToken, ToInt;
    NameStep(s[i + 1]);
    assert From(Name, s, i, text) == From(Value0, s, i + 1, text);
  }

  lemma ExtsShape(exts: seq<Ext>, cr: bool)
    requires exts != []
    ensures ExtText(exts) + EndOfLine(cr) == [';'] + (exts[0].name + AfterName(exts, cr))
    ensures AfterName(exts, cr) == if exts[0].value.Some? then ['='] + (exts[0].value.value + (ExtText(exts[1..]) + EndOfLine(cr)))
                                   else ExtText(exts[1..]) + EndOfLine(cr)
  {
    hide EndOfLine, From, HexValue, IsToken;
    var v := if exts[0].value.Some? then "=" + exts[0].value.value else "";
    Regroup([';'], exts[0].name, v, ExtText(exts[1..]), EndOfLine(cr));
    if exts[0].value.Some? {
      Regroup([], ['='], exts[0].value.value, ExtText(exts[1..]), EndOfLine(cr));
    }
  }

  lemma Regroup(a: string, b: string, c: string, d: string, e: string)
    ensures a + b + c + d + e == a + (b + (c + (d + e)))
    ensures (b + c) + (d + e) == b + (c + (d + e))
    ensures "" + (d + e) == d + e
  {
  }

  lemma SemicolonStep(st: State)
    requires st.Size? || st.Name? || st.Value?
    ensures Step(st, ';') == Name0
  {
  }

  lemma NameStep(c: char)
    requires IsToken(c)
    ensures Step(Name0, c) == Name && Step(Value0, c) == Value && Step(Name, '=') == Value0
  {
  }

  lemma ValueHead(s: string, i: nat, exts: seq<Ext>, cr: bool, text: string)
    requires i <= |s| && exts != [] && ValidExt(exts[0]) && exts[0].value.Some?
    requires RestIs(s, i, AfterName(exts, cr))
    ensures var j := i + 1 + |exts[0].value.value|;
            && j <= |s| && RestIs(s, j, ExtText(exts[1..]) + EndOfLine(cr)) && From(Name, s, i, text) == From(Value, s, j, text)
  {
    hide RestIs, From, HexValue, IsHex, IsToken, EndOfLine, ExtText, AfterName;
    var v := exts[0].value.value;
    var rest := ExtText(exts[1..]) + EndOfLine(cr);
    ExtsShape(exts, cr);
    Segment(s, i, '=', v, rest);
    EnterValue(s, i, text);
    Stays(Value, s, i + 2, i + 1 + |v|, text);
  }

  lemma {:induction false} DigitsValue(digits: string, rest: string, acc: nat)
    requires (forall i :: 0 <= i < |digits| ==> IsHex(digits[i])) && rest != "" && !IsHex(rest[0])
    ensures HexValue(digits + rest, acc) == HexValue(digits, acc)
  {
    if digits == "" {
      assert digits + rest == rest;
    } else {
      assert (digits + rest)[1..] == digits[1..] + rest;
      DigitsValue(digits[1..], rest, 16 * acc + HexDigit(digits[0]));
    }
  }

  /** Any digits, any extensions and either line end are parsed to the end and to the number. */
  lemma SizeScans(digits: string, v: nat, exts: seq<Ext>, cr: bool)
    requires PrintsHex(digits, v) && forall i :: 0 <= i < |exts| ==> ValidExt(exts[i])
    ensures var s := digits + (ExtText(exts) + EndOfLine(cr)); ScanHeader(s) == Done(|s|, ToInt(v))
  {
    HexReadsBack(digits, v);
    var rest := ExtText(exts) + EndOfLine(cr);
    var s := digits + rest;
    assert !IsHex(rest[0]) by { if exts != [] { assert rest[0] == ExtText(exts)[0]; } }
    DigitsValue(digits, rest, 0);
    Stays(Size, s, 1, |digits|, s);
    ExtsScan(Size, s, |digits|, exts, cr, s);
  }

  /** A header as the standard writes it is parsed to its end and to its value. */
  lemma HeaderScans(c: Chunk)
    requires ValidChunk(c)
    ensures ScanHeader(HeaderText(c)) == Done(|HeaderText(c)|, |c.data|)
  {
    SizeScans(c.digits, |c.data|, c.exts, c.cr);
  }

  /** The text from position i to the end of the header, as the state at i allows it. */
  ghost predicate Follows(st: State, t: string, a: string, value: Option<string>, exts: seq<Ext>, cr: bool) {
    && (forall k :: 0 <= k < |exts| ==> ValidExt(exts[k])) && (value.Some? ==> Tokens(value.value))
    && match st
       case Start => Digits(a) && value.None? && t == a + (ExtText(exts) + EndOfLine(cr))
       case Size => (a == "" || Digits(a)) && value.None? && t == a + (ExtText(exts) + EndOfLine(cr))
       case Name0 => Tokens(a) && t == a + ValueText(value) + (ExtText(exts) + EndOfLine(cr))
       case Name => (a == "" || Tokens(a)) && t == a + ValueText(value) + (ExtText(exts) + EndOfLine(cr))
       case Value0 => Tokens(a) && value.None? && t == a + (ExtText(exts) + EndOfLine(cr))
       case Value => (a == "" || Tokens(a)) && value.None? && t == a + (ExtText(exts) + EndOfLine(cr))
       case Cr => t == "\n"
       case _ => t == ""
  }

  function ValueText(value: Option<string>): string {
    if value.Some? then "=" + value.value else ""
  }

  /** What the machine accepts from a state on is what the grammar allows there. */
  lemma {:induction false} Following(st: State, s: string, i: nat, text: string)
    returns (a: string, value: Option<string>, exts: seq<Ext>, cr: bool)
    requires i <= |s| && From(st, s, i, text).Done?
    ensures i <= From(st, s, i, text).n <= |s| && Follows(st, s[i..From(st, s, i, text).n], a, value, exts, cr)
    decreases |s| - i
  {
    if st.Final? { return "", None, [], false; }
    FromBounds(st, s, i, text);
    FromBounds(Step(st, s[i]), s, i + 1, text);
    var n, c := From(st, s, i, text).n, s[i];
    var a', value', exts', cr' := Following(Step(st, c), s, i + 1, text);
    assert s[i..n] == [c] + s[i + 1..n];
    a, value, exts, cr := Joining(st, c, s[i + 1..n], a', value', exts', cr');
  }

  /** One character more in front. */
  lemma Joining(st: State, c: char, t: string, a': string, value': Option<string>, exts': seq<Ext>, cr': bool)
    returns (a: string, value: Option<string>, exts: seq<Ext>, cr: bool)
    requires !Stops(st) && !Step(st, c).Failed? && !Step(st, c).Other? && Follows(Step(st, c), t, a', value', exts', cr')
    ensures Follows(st, [c] + t, a, value, exts, cr)
  {
    var next := Step(st, c);
    if next.Name0? {
      a, value, exts, cr := "", None, [Ext(a', value')] + exts', cr';
      hide ExtText, IsToken, IsHex, EndOfLine, ValueText;
      MoreExts(a', value', exts', cr');
      NoValue();
    } else if next.Value0? {
      a, value, exts, cr := "", Some(a'), exts', cr';
      hide ExtText, IsToken, IsHex, EndOfLine;
      assert [c] + t == "" + ("=" + a') + (ExtText(exts) + EndOfLine(cr));
    } else if next.Cr? || next.Final? {
      a, value, exts, cr := "", None, [], next.Cr?;
      hide ExtText, IsToken, IsHex, EndOfLine, ValueText;
      LastLine(cr);
      NoValue();
      assert [c] + t == if cr then "\r\n" else "\n";
    } else {
      a, value, exts, cr := [c] + a', value', exts', cr';
      hide ExtText, EndOfLine, ValueText;
      InFront(c, a', ValueText(value'), ExtText(exts') + EndOfLine(cr'));
    }
  }

  lemma InFront(c: char, a: string, v: string, rest: string)
    ensures [c] + (a + rest) == ([c] + a) + rest && [c] + (a + v + rest) == ([c] + a) + v + rest
  {
  }

  lemma LastLine(cr: bool)
    ensures var line := ExtText([]) + EndOfLine(cr);
            line == (if cr then "\r\n" else "\n") && "" + line == line && "" + "" + line == line
  {
    Emptied(EndOfLine(cr));
  }

  lemma NoValue()
    ensures ValueText(None) == ""
  {
  }

  lemma MoreExts(name: string, value: Option<string>, exts: seq<Ext>, cr: bool)
    ensures var rest := [Ext(name, value)] + exts;
            && ";" + (name + ValueText(value) + (ExtText(exts) + EndOfLine(cr))) == ExtText(rest) + EndOfLine(cr)
            && "" + (ExtText(rest) + EndOfLine(cr)) == ExtText(rest) + EndOfLine(cr)
            && "" + "" + (ExtText(rest) + EndOfLine(cr)) == ExtText(rest) + EndOfLine(cr)
  {
    var rest := [Ext(name, value)] + exts;
    OneExt(rest);
    hide ExtText, ValueText, EndOfLine;
    assert rest[1..] == exts && rest[0] == Ext(name, value);
    Regroup(";", name, ValueText(value), ExtText(exts), EndOfLine(cr));
    assert (";" + name + ValueText(value) + ExtText(exts)) + EndOfLine(cr) == ";" + name + ValueText(value) + ExtText(exts) + EndOfLine(cr);
    assert name + ValueText(value) + (ExtText(exts) + EndOfLine(cr)) == name + (ValueText(value) + (ExtText(exts) + EndOfLine(cr)));
    Emptied(ExtText(rest) + EndOfLine(cr));
  }

  lemma OneExt(exts: seq<Ext>)
    requires exts != []
    ensures ExtText(exts) == ";" + exts[0].name + ValueText(exts[0].value) + ExtText(exts[1..])
  {
  }

  lemma Emptied(s: string)
    ensures "" + s == s && "" + "" + s == s
  {
  }

  /** The machine accepts nothing else: what it takes for a header is digits of some number, extensions and a
      line end, and the size is what the number gives. */
  lemma AcceptedIsHeader(s: string) returns (digits: string, v: nat, exts: seq<Ext>, cr: bool)
    requires ScanHeader(s).Done?
    ensures ScanHeader(s).n <= |s| && PrintsHex(digits, v) && ScanHeader(s).size == ToInt(v)
    ensures s[..ScanHeader(s).n] == digits + (ExtText(exts) + EndOfLine(cr)) && forall i :: 0 <= i < |exts| ==> ValidExt(exts[i])
  {
    var n, value := ScanHeader(s).n, None;
    digits, value, exts, cr := Following(Start, s, 0, s);
    v := HexValue(digits, 0);
    HexReadsBack(digits, v);
    SizeScans(digits, v, exts, cr);
    assert s == s[..n] + s[n..] && s[0..n] == s[..n];
    ScanPrefix(s[..n], s[n..]);
  }

  lemma {:induction false} NeverForeign(st: State, s: string, i: nat, text: string)
    requires i <= |s| && !st.Start? && !st.Other?
    ensures From(st, s, i, text) != Foreign
    decreases |s| - i
  {
    if i < |s| && !Stops(st) { NeverForeign(Step(st, s[i]), s, i + 1, text); }
  }

  /** The parser goes over to status lines exactly at their first letter. */
  lemma ForeignIff(s: string)
    ensures ScanHeader(s) == Foreign <==> s != "" && s[0] == 'H'
  {
    if s != "" {
      assert ScanHeader(s) == From(Step(Start, s[0]), s, 1, s);
      if s[0] != 'H' { NeverForeign(Step(Start, s[0]), s, 1, s); }
    }
  }

  lemma ChunkDecodes(c: Chunk, more: string)
    requires ValidChunk(c)
    ensures var all := ChunkText(c) + more;
            && ScanHeader(all) == Done(|HeaderText(c)|, |c.data|) && Sane(|c.data|)
            && |HeaderText(c)| + |c.data| + 2 <= |all|
            && all[|HeaderText(c)|..|HeaderText(c)| + |c.data|] == c.data
            && all[|HeaderText(c)| + |c.data| + 2..] == more
  {
    var h := HeaderText(c);
    HeaderScans(c);
    assert ChunkText(c) + more == h + (c.data + "\r\n" + more);
    ScanPrefix(h, c.data + "\r\n" + more);
  }

  /** Reading back: a message is decoded to the concatenation of its chunks' data, no line end kept, no
      byte lost, and what follows it is not touched. */
  lemma {:induction false} MessageDecodes(cs: seq<Chunk>, last: Chunk, more: string)
    requires (forall i :: 0 <= i < |cs| ==> ValidChunk(cs[i]) && cs[i].data != "") && ValidChunk(last) && last.data == ""
    ensures Decode(Message(cs, last) + more) == Whole(Payload(cs), |Message(cs, last)|)
    decreases cs
  {
    hide Decode, ChunkText, HeaderText, ValidChunk;
    if cs == [] {
      FirstDecodes(last, more);
    } else {
      assert Message(cs, last) + more == ChunkText(cs[0]) + (Message(cs[1..], last) + more);
      FirstDecodes(cs[0], Message(cs[1..], last) + more);
      MessageDecodes(cs[1..], last, more);
    }
  }

  lemma FirstDecodes(c: Chunk, more: string)
    requires ValidChunk(c)
    ensures c.data == "" ==> Decode(ChunkText(c) + more) == Whole("", |ChunkText(c)|)
    ensures c.data != "" && Decode(more).Whole? ==>
              Decode(ChunkText(c) + more) == Whole(c.data + Decode(more).text, |ChunkText(c)| + Decode(more).used)
  {
    hide ScanHeader, ChunkText, HeaderText, ValidChunk;
    ChunkDecodes(c, more);
    ChunkSize(c);
  }

  lemma ChunkSize(c: Chunk)
    ensures |ChunkText(c)| == |HeaderText(c)| + |c.data| + 2
  {
  }

  /** No header line is parsed in part when everything is buffered. */
  lemma {:induction false} BufferedIsWhole(rx: Rx, frag: Frag, buf: string, max: nat, fuel: nat)
    requires |buf| <= max && max > 0 && Decode(buf).Whole?
    ensures Chunks(rx, frag, buf, max, fuel) == Result(Body(Decode(buf).text), false)
    decreases |buf|
  {
    hide ScanHeader, ReadRest, Receive;
    DecodeStep(buf);
    FromIsNonEmpty(buf);
    var Done(n, size) := ScanHeader(buf);
    assert ReadHeader(rx, frag, buf, true, max, fuel) == Head(size, buf[n..], rx, false);
    assert buf[n..][size + 2..] == buf[n + size + 2..] && buf[n..][..size] == buf[n..n + size];
    if size > 0 { BufferedIsWhole(rx, frag, buf[n + size + 2..], max, fuel); }
  }

  lemma FromIsNonEmpty(buf: string)
    requires ScanHeader(buf).Done?
    ensures buf != ""
  {
  }

  // ---------------------------------------------------------------- where the promise ends

  /** A chunk of 16 bytes and the last chunk, without the first digit. */
  function Beheaded(data: string): string {
    "0\r\n" + (data + "\r\n0\r\n\r\n")
  }

  lemma BeheadedIs(data: string)
    requires |data| == 16
    ensures Decode("1" + Beheaded(data)) == Whole(data, |"1" + Beheaded(data)|)
    ensures ScanHeader(Beheaded(data)) == Done(3, 0)
  {
    hide ScanHeader, Decode;
    var sixteen := Chunk("10", [], true, data);
    var last := Chunk("0", [], true, "");
    ZeroText(last);
    assert PrintsHex("10", 16) by { assert "10"[..1] == "1"; }
    assert ChunkText(sixteen) == "10\r\n" + data + "\r\n";
    assert Message([sixteen], last) == ChunkText(sixteen) + "0\r\n\r\n" by { assert [sixteen][1..] == []; }
    assert Message([sixteen], last) + "" == "1" + Beheaded(data);
    assert Payload([sixteen]) == data by { assert [sixteen][1..] == [] && Payload([]) == ""; }
    MessageDecodes([sixteen], last, "");
    HeaderScans(last);
    ScanPrefix("0\r\n", data + "\r\n0\r\n\r\n");
  }

  lemma ZeroText(last: Chunk)
    requires last == Chunk("0", [], true, "")
    ensures ValidChunk(last) && HeaderText(last) == "0\r\n" && ChunkText(last) == "0\r\n\r\n"
  {
  }

  /** A header cut after its first digit: the digit is forgotten and "10" is read as "0".  The response
      comes back as complete, with an empty body. */
  lemma SplitTruncates(data: string, frag: Frag)
    requires |data| == 16 && frag(0) == 1 && frag(1) == 100
    ensures Decode("1" + Beheaded(data)) == Whole(data, |"1" + Beheaded(data)|)
    ensures Chunks(Rx("1" + Beheaded(data), 0), frag, "", 100, 100) == Result(Body(""), true)
  {
    hide ScanHeader, Decode, ReadRest;
    BeheadedIs(data);
    var cut := Beheaded(data);
    var r0 := Receive(Rx("1" + cut, 0), frag, 100);
    assert r0 == Received(1, "1", Rx(cut, 1)) by { assert ("1" + cut)[1..] == cut; }
    OneDigitIsPartial();
    var r1 := Receive(Rx(cut, 1), frag, 100);
    assert r1 == Received(|cut|, cut, Rx("", 2)) by { assert cut[|cut|..] == ""; }
    assert "" + r0.got == "1" && "" + r1.got == cut;
    assert ReadHeader(Rx(cut, 1), frag, "", false, 100, 100) == Head(0, cut[3..], Rx("", 2), false);
    assert ReadHeader(Rx("1" + cut, 0), frag, "", true, 100, 100) == Head(0, cut[3..], Rx("", 2), true);
  }

  lemma OneDigitIsPartial()
    ensures ScanHeader("1") == Partial
  {
    assert From(Size, "1", 1, "1") == Partial;
  }

  /** A connection that ends inside a chunk is never noticed: a read of 0 bytes does not end the loop, so
      the call has not returned after any number of reads. */
  lemma {:induction false} EndInsideChunkHangs(rx: Rx, frag: Frag, left: int, max: nat, fuel: nat)
    requires (forall k :: frag(k) >= 0) && left > |rx.wire|
    ensures ReadRest(rx, frag, left, max, fuel) == NoTail(true)
    decreases Left(fuel, rx)
  {
    if rx.calls < fuel {
      var r := Receive(rx, frag, Least(left, max));
      EndInsideChunkHangs(r.rx, frag, left - r.rt, max, fuel);
    }
  }

  /** So the whole call has not returned either, nor that for a body of known length. */
  lemma ShortStreamHangs(rx: Rx, frag: Frag, buf: string, length: int, max: nat, fuel: nat)
    requires |buf| <= max && max > 0 && forall k :: frag(k) >= 0
    ensures buf != "" && ScanHeader(buf).Done? ==>
              var Done(n, size) := ScanHeader(buf);
              && n <= |buf|
              && (0 <= size <= 0x7FFF_FFFD && size + 2 > |buf| - n + |rx.wire| ==> Chunks(rx, frag, buf, max, fuel) == Result(Pending, false))
    ensures length > |buf| + |rx.wire| ==> Fixed(rx, frag, buf, length, fuel) == Pending
  {
    hide ScanHeader, ReadRest;
    ScanBounds(buf);
    if buf != "" {
      assert ReadHeader(rx, frag, buf, true, max, fuel) == Parse(rx, frag, buf, max, fuel);
      if ScanHeader(buf).Done? {
        var Done(n, size) := ScanHeader(buf);
        if size - (|buf| - n) + 2 > |rx.wire| { EndInsideChunkHangs(rx, frag, size - (|buf| - n) + 2, max, fuel); }
      }
    }
    if length - |buf| > |rx.wire| { EndInsideChunkHangs(rx, frag, length - |buf|, length - |buf|, fuel); }
  }

  /** What ends the call without a body: a header that is none, an error or the end of the stream where a header
      is due, an error inside a chunk; a size the int arithmetic is not made for is a fault. */
  lemma Refused(rx: Rx, frag: Frag, buf: string, max: nat, fuel: nat)
    requires |buf| <= max && max > 0
    ensures buf != "" && ScanHeader(buf) == Bad ==> Chunks(rx, frag, buf, max, fuel) == Result(Closed, false)
    ensures buf == "" && rx.calls < fuel && (frag(rx.calls) <= 0 || rx.wire == "") ==>
              Chunks(rx, frag, buf, max, fuel) == Result(Closed, false)
    ensures buf != "" && ScanHeader(buf).Done? ==>
              var Done(n, size) := ScanHeader(buf);
              && n <= |buf|
              && (size < 0 || size > 0x7FFF_FFFD ==> Chunks(rx, frag, buf, max, fuel) == Result(Fault, false))
              && (0 <= size <= 0x7FFF_FFFD && size + 2 > |buf| - n && rx.calls < fuel && frag(rx.calls) < 0 ==>
                    Chunks(rx, frag, buf, max, fuel) == Result(Closed, false))
  {
    hide ScanHeader;
    ScanBounds(buf);
    if buf != "" {
      assert ReadHeader(rx, frag, buf, true, max, fuel) == Parse(rx, frag, buf, max, fuel);
      if ScanHeader(buf) == Bad { assert Parse(rx, frag, buf, max, fuel) == Stop(Closed, false); }
    }
  }

  // ---------------------------------------------------------------- the loops themselves

  class Socket {
    const frag: Frag
    var rx: Rx

    constructor (wire: string, frag: Frag)
      ensures rx == Rx(wire, 0) && this.frag == frag
    {
      this.frag := frag;
      rx := Rx(wire, 0);
    }

    method Read(max: nat) returns (rt: int, got: string)
      modifies this
      ensures Received(rt, got, rx) == Receive(old(rx), frag, max)
    {
      var r := Receive(rx, frag, max);
      rt, got, rx := r.rt, r.got, r.rx;
    }

    /** The inner loop, up to a finished header. */
    method RecvHeader(buf: string, max: nat, fuel: nat) returns (h: Head)
      requires |buf| <= max
      modifies this
      ensures h == ReadHeader(old(rx), frag, buf, true, max, fuel)
      ensures h.Head? ==> rx == h.rx
    {
      hide ScanHeader, Receive;
      var data, begin, split := buf, true, false;
      while true
        invariant |data| <= max && (begin || data == "")
        invariant begin ==> rx == old(rx) && data == buf && !split
        invariant !begin ==> split && ReadHeader(old(rx), frag, buf, true, max, fuel)
                                      == ReadHeader(rx, frag, data, false, max, fuel).(split := true)
        decreases Left(fuel, rx), begin
      {
        if !begin || data == "" {
          if rx.calls >= fuel {
            return Stop(Pending, split);
          }
          var rt, got := Read(max - |data|);
          if rt <= 0 {
            return Stop(Closed, split);
          }
          data := data + got;
        }
        var r := Execute(data);
        match r {
          case Bad => return Stop(Closed, split);
          case Foreign => return Stop(Unmodelled, split);
          case Done(n, size) =>
            ScanBounds(data);
            return Head(size, data[n..], rx, split);
          case Partial =>
            if rx.calls >= fuel {
              return Stop(Pending, true);
            }
            data, begin, split := "", false, true;
        }
      }
    }

    /** The loop for the rest of a chunk. */
    method RecvRest(size: int, max: nat, fuel: nat) returns (t: Tail)
      modifies this
      ensures t == ReadRest(old(rx), frag, size, max, fuel)
      ensures t.Tail? ==> rx == t.rx
    {
      hide Receive;
      var left, body := size, "";
      while left > 0
        invariant ReadRest(old(rx), frag, size, max, fuel) ==
                  match ReadRest(rx, frag, left, max, fuel)
                  case Tail(text, rx') => Tail(body + text, rx')
                  case other => other
        decreases Left(fuel, rx)
      {
        if rx.calls >= fuel {
          return NoTail(true);
        }
        ghost var before := body;
        var rt, got := Read(Least(left, max));
        if rt < 0 {
          return NoTail(false);
        }
        body := body + got;
        left := left - rt;
        assert forall text :: body + text == before + (got + text);
      }
      assert body + "" == body;
      return Tail(body, rx);
    }

    method RecvFixed(buf: string, length: int, fuel: nat) returns (r: Outcome)
      modifies this
      ensures r == Fixed(old(rx), frag, buf, length, fuel)
    {
      if length <= 0 {
        return Body("");
      }
      if length <= |buf| {
        return Body(buf[..length]);
      }
      var t := RecvRest(length - |buf|, length - |buf|, fuel);
      match t {
        case Tail(text, _) => r := Body(buf + text);
        case NoTail(pending) => r := if pending then Pending else Closed;
      }
    }

    /** The outer loop. */
    method RecvChunks(buffered: string, max: nat, fuel: nat) returns (r: Result)
      requires |buffered| <= max && max > 0
      modifies this
      ensures r == Chunks(old(rx), frag, buffered, max, fuel)
    {
      hide ReadHeader, ReadRest;
      var data, body, split := buffered, "", false;
      ghost var all := Chunks(rx, frag, data, max, fuel);
      while true
        invariant |data| <= max && all == Joined(body, split, Chunks(rx, frag, data, max, fuel))
        decreases |data| + |rx.wire|
      {
        ghost var was, text := split, body;
        var h := RecvHeader(data, max, fuel);
        if h.Stop? {
          return Result(h.outcome, split || h.split);
        }
        data := h.buf;
        split := split || h.split;
        if !Sane(h.size) {
          return Result(Fault, split);
        }
        if h.size + 2 <= |data| {
          body := body + data[..h.size];
          data := data[h.size + 2..];
          JoinedTwice(text, was, h.buf[..h.size], h.split, Chunks(rx, frag, data, max, fuel));
        } else {
          var t := RecvRest(h.size - |data| + 2, max, fuel);
          if t.NoTail? {
            return Result(if t.pending then Pending else Closed, split);
          }
          body := body + data + t.text;
          body := body[..|body| - 2];
          data := "";
          assert body == text + (h.buf + t.text)[..h.size];
          JoinedTwice(text, was, (h.buf + t.text)[..h.size], h.split, Chunks(rx, frag, data, max, fuel));
        }
        if h.size <= 0 {
          return Result(Body(body), split);
        }
      }
    }
  }

  // ---------------------------------------------------------------- a body of known length

  /** The branch without chunks: what is buffered, then readFixLength for the rest. */
  function Fixed(rx: Rx, frag: Frag, buf: string, length: int, fuel: nat): Outcome {
    if length <= 0 then Body("")
    else if length <= |buf| then Body(buf[..length])
    else match ReadRest(rx, frag, length - |buf|, length - |buf|, fuel)
      case Tail(text, _) => Body(buf + text)
      case NoTail(pending) => if pending then Pending else Closed
  }

  /** However it arrives, the body is the first `length` bytes behind the header. */
  lemma FixedIs(rx: Rx, frag: Frag, buf: string, length: int, fuel: nat)
    requires (forall k :: frag(k) > 0) && length <= |buf + rx.wire| && fuel >= rx.calls + |rx.wire|
    ensures Fixed(rx, frag, buf, length, fuel) == Body((buf + rx.wire)[..if length > 0 then length else 0])
  {
    hide ReadRest;
    Front(buf, rx.wire, if length > 0 then length else 0);
    if length > |buf| {
      ReadRestIs(rx, frag, length - |buf|, length - |buf|, fuel);
    }
  }

  /** An error in the middle of it is reported. */
  lemma FixedRefused(rx: Rx, frag: Frag, buf: string, length: int, fuel: nat)
    requires length > |buf| && rx.calls < fuel && frag(rx.calls) < 0
    ensures Fixed(rx, frag, buf, length, fuel) == Closed
  {
  }

  lemma Front(a: string, b: string, n: nat)
    requires n <= |a + b|
    ensures n == 0 ==> (a + b)[..n] == ""
    ensures n <= |a| ==> (a + b)[..n] == a[..n]
    ensures n > |a| ==> (a + b)[..n] == a + b[..n - |a|]
  {
  }

  lemma JoinedTwice(body: string, split: bool, more: string, split': bool, r: Result)
    ensures Joined(body, split, Joined(more, split', r)) == Joined(body + more, split || split', r)
  {
    if r.outcome.Body? {
      assert body + (more + r.outcome.text) == body + more + r.outcome.text;
    }
  }

  function Joined(body: string, split: bool, r: Result): Result {
    Prepend(body, r).(split := split || r.split)
  }
}
