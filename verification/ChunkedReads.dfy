/** When recvResponse gets a chunked body right: the condition on the message and on how it is read. */
module ChunkedReads {
  import opened Wrappers
  import opened ChunkedBody

  // ---------------------------------------------------------------- the condition

  /** How many reads bring `left` bytes, the first being read number `calls`. */
  ghost function Reads(left: nat, calls: nat, frag: Frag, max: nat): nat
    requires max > 0 && forall k :: frag(k) > 0
    decreases left
  {
    if left == 0 then 0 else 1 + Reads(left - Least(frag(calls), Least(left, max)), calls + 1, frag, max)
  }

  /** Each header line is in the buffer, or else in the one read that is made when the buffer is empty.
      `all` is the message, of which `have` bytes are buffered; `calls` reads have been made. */
  ghost predicate LinesWhole(all: string, have: nat, calls: nat, frag: Frag, max: nat)
    requires max > 0 && (forall k :: frag(k) > 0) && Decode(all).Whole?
    decreases |all|
  {
    DecodeStep(all);
    var Done(n, size) := ScanHeader(all);
    var seen := if have > 0 then have else Least(frag(calls), Least(max, |all|));
    var calls' := if have > 0 then calls else calls + 1;
    n <= seen &&
    (size > 0 ==>
       var rest := all[n + size + 2..];
       if size + 2 <= seen - n then LinesWhole(rest, seen - n - size - 2, calls', frag, max)
       else LinesWhole(rest, 0, calls' + Reads(size + 2 - (seen - n), calls', frag, max), frag, max))
  }

  // ---------------------------------------------------------------- one header

  /** A verdict that only needs the first part is the verdict on the first part. */
  lemma {:induction false} FromCut(st: State, s: string, more: string, i: nat, text: string)
    requires i <= |s|
    requires From(st, s + more, i, text).Done? && From(st, s + more, i, text).n <= |s|
    ensures From(st, s, i, text).Done?
    decreases |s| - i
  {
    if !Stops(st) {
      if i < |s| {
        FromCut(Step(st, s[i]), s, more, i + 1, text);
      } else {
        FromBounds(st, s + more, i, text);
      }
    }
  }

  /** Part of a header line is partial, and a whole one is done, whatever is behind it. */
  lemma ScanCut(s: string, more: string)
    requires ScanHeader(s + more).Done?
    ensures if ScanHeader(s + more).n <= |s| then ScanHeader(s) == ScanHeader(s + more) else ScanHeader(s) == Partial
  {
    hide From;
    ScanBounds(s);
    if ScanHeader(s) != Partial {
      ScanPrefix(s, more);
    } else if ScanHeader(s + more).n <= |s| {
      FromCut(Start, s, more, 0, s + more);
      if !From(Start, s, 0, s).Done? { FromIgnoresText(Start, s, 0, s, s + more); }
    }
  }

  /** What completes a header from a state on. */
  function Rest(st: State): string {
    match st
    case Start => "0\n"
    case Name0 => "a\n"
    case Value0 => "a\n"
    case _ => "\n"
  }

  lemma {:induction false} Completes(st: State, s: string, i: nat, text: string) returns (more: string)
    requires i <= |s| && From(st, s, i, text) == Partial
    ensures more != "" && From(st, s + more, i, text) == Done(|s + more|, ToInt(HexValue(text, 0)))
    decreases |s| - i
  {
    if i < |s| {
      more := Completes(Step(st, s[i]), s, i + 1, text);
    } else {
      more := Rest(st);
      var t := s + more;
      assert t[i] == more[0] && (|more| == 2 ==> t[i + 1] == more[1]);
      assert From(st, t, i, text) == From(Step(st, t[i]), t, i + 1, text);
      if |more| == 2 {
        assert From(st, t, i, text) == From(Step(Step(st, t[i]), t[i + 1]), t, i + 2, text);
      }
    }
  }

  /** The parser asks for more exactly if more can complete the header; else it has got one, or refuses. */
  lemma PartialIff(s: string)
    ensures ScanHeader(s) == Partial <==> exists more :: ScanHeader(s + more).Done? && ScanHeader(s + more).n > |s|
  {
    if ScanHeader(s) == Partial {
      var more := Completes(Start, s, 0, s);
      DoneAgain(s, more);
    }
    forall more | ScanHeader(s + more).Done? && ScanHeader(s + more).n > |s|
      ensures ScanHeader(s) == Partial
    {
      ScanCut(s, more);
    }
  }

  lemma DoneAgain(s: string, more: string)
    requires From(Start, s + more, 0, s).Done?
    ensures ScanHeader(s + more).Done? && ScanHeader(s + more).n == From(Start, s + more, 0, s).n
  {
    SameEnd(Start, s + more, 0, s, s + more);
  }

  /** The verdict and the end do not depend on the text the size is read from. */
  lemma {:induction false} SameEnd(st: State, s: string, i: nat, text: string, text': string)
    requires i <= |s| && From(st, s, i, text).Done?
    ensures From(st, s, i, text').Done? && From(st, s, i, text').n == From(st, s, i, text).n
    decreases |s| - i
  {
    if i < |s| && !Stops(st) { SameEnd(Step(st, s[i]), s, i + 1, text, text'); }
  }

  lemma ParseCut(rx: Rx, frag: Frag, data: string, max: nat, fuel: nat)
    requires |data| <= max && ScanHeader(data + rx.wire).Done?
    ensures var Done(n, size) := ScanHeader(data + rx.wire);
            if n <= |data| then Parse(rx, frag, data, max, fuel) == Head(size, data[n..], rx, false)
            else Parse(rx, frag, data, max, fuel).split
  {
    hide ScanHeader, ReadHeader;
    ScanCut(data, rx.wire);
  }

  /** The bytes the inner loop looks at first, and the stream behind them. */
  function Seen(rx: Rx, frag: Frag, buf: string, max: nat): (string, Rx) {
    if buf == "" then var r := Receive(rx, frag, max); (r.got, r.rx) else (buf, rx)
  }

  lemma SeenIs(rx: Rx, frag: Frag, buf: string, max: nat)
    requires max > 0 && (forall k :: frag(k) > 0) && |buf| <= max && buf + rx.wire != ""
    ensures var (data, rx') := Seen(rx, frag, buf, max);
            && data + rx'.wire == buf + rx.wire && data != "" && |data| <= max
            && |data| == (if buf != "" then |buf| else Least(frag(rx.calls), Least(max, |buf + rx.wire|)))
            && rx'.calls == (if buf != "" then rx.calls else rx.calls + 1)
            && rx'.calls + |rx'.wire| <= rx.calls + |rx.wire|
  {
    if buf == "" { assert buf + rx.wire == rx.wire; }
  }

  lemma ReadHeaderCut(rx: Rx, frag: Frag, buf: string, max: nat, fuel: nat)
    requires |buf| <= max && max > 0 && (forall k :: frag(k) > 0) && fuel >= rx.calls + |rx.wire|
    requires ScanHeader(buf + rx.wire).Done?
    ensures var (data, rx'), Done(n, size) := Seen(rx, frag, buf, max), ScanHeader(buf + rx.wire);
            if n <= |data| then ReadHeader(rx, frag, buf, true, max, fuel) == Head(size, data[n..], rx', false)
            else ReadHeader(rx, frag, buf, true, max, fuel).split
  {
    hide ScanHeader, Parse, Seen;
    ScanBounds(buf + rx.wire);
    SeenIs(rx, frag, buf, max);
    var (data, rx') := Seen(rx, frag, buf, max);
    ParseCut(rx', frag, data, max, fuel);
    ReadsThenParses(rx, frag, buf, max, fuel);
  }

  lemma ReadsThenParses(rx: Rx, frag: Frag, buf: string, max: nat, fuel: nat)
    requires |buf| <= max && max > 0 && (forall k :: frag(k) > 0) && fuel >= rx.calls + |rx.wire| && buf + rx.wire != ""
    ensures var (data, rx') := Seen(rx, frag, buf, max);
            |data| <= max && ReadHeader(rx, frag, buf, true, max, fuel) == Parse(rx', frag, data, max, fuel)
  {
    hide Parse;
    if buf == "" {
      assert buf + rx.wire == rx.wire;
      assert "" + Receive(rx, frag, max).got == Receive(rx, frag, max).got;
    }
  }

  /** The reads that bring the rest of a chunk. */
  lemma {:induction false} RestReads(rx: Rx, frag: Frag, left: nat, max: nat, fuel: nat)
    requires max > 0 && (forall k :: frag(k) > 0) && left <= |rx.wire| && fuel >= rx.calls + |rx.wire|
    ensures var t := ReadRest(rx, frag, left, max, fuel);
            t.Tail? && t.rx.calls == rx.calls + Reads(left, rx.calls, frag, max)
    decreases left
  {
    hide Receive;
    if left > 0 {
      ReceiveIs(rx, frag, Least(left, max));
      var r := Receive(rx, frag, Least(left, max));
      assert r.rt == Least(frag(rx.calls), Least(left, max)) && r.rt > 0;
      assert |rx.wire| == r.rt + |r.rx.wire|;
      RestReads(r.rx, frag, left - r.rt, max, fuel);
    }
  }

  // ---------------------------------------------------------------- the condition is exact

  /** The condition for one chunk and what follows it, in terms of the buffer and the stream. */
  lemma LinesStep(rx: Rx, frag: Frag, buf: string, max: nat)
    requires max > 0 && (forall k :: frag(k) > 0) && |buf| <= max && Decode(buf + rx.wire).Whole?
    ensures ScanHeader(buf + rx.wire).Done?
    ensures var all, (data, rx'), Done(n, size) := buf + rx.wire, Seen(rx, frag, buf, max), ScanHeader(buf + rx.wire);
            && 0 < n && Sane(size) && n + size + 2 <= |all|
            && (size > 0 ==> Decode(all[n + size + 2..]).Whole?)
            && (LinesWhole(all, |buf|, rx.calls, frag, max) <==>
                n <= |data| &&
                (size > 0 ==>
                   if size + 2 <= |data| - n then LinesWhole(all[n + size + 2..], |data| - n - size - 2, rx'.calls, frag, max)
                   else LinesWhole(all[n + size + 2..], 0, rx'.calls + Reads(size + 2 - (|data| - n), rx'.calls, frag, max), frag, max)))
  {
    hide ScanHeader, Decode, Seen, Reads;
    DecodeStep(buf + rx.wire);
    ScanBounds(buf + rx.wire);
    SeenIs(rx, frag, buf, max);
  }

  /** The parser looks at part of a header line exactly if the condition fails. */
  lemma {:induction false} SplitIff(rx: Rx, frag: Frag, buf: string, max: nat, fuel: nat)
    requires |buf| <= max && max > 0 && (forall k :: frag(k) > 0)
    requires fuel >= rx.calls + |rx.wire| && Decode(buf + rx.wire).Whole?
    ensures Chunks(rx, frag, buf, max, fuel).split <==> !LinesWhole(buf + rx.wire, |buf|, rx.calls, frag, max)
    decreases |buf| + |rx.wire|
  {
    hide ScanHeader, ReadHeader, ReadRest, Decode, Receive, Seen, LinesWhole, Reads;
    var all := buf + rx.wire;
    var (data, rx') := Seen(rx, frag, buf, max);
    LinesStep(rx, frag, buf, max);
    SeenIs(rx, frag, buf, max);
    ReadHeaderCut(rx, frag, buf, max, fuel);
    var Done(n, size) := ScanHeader(all);
    if n <= |data| && size > 0 {
      var buf' := data[n..];
      Drop(all, data, rx'.wire, n);
      Cut(all, n, size, buf', rx'.wire);
      if size + 2 <= |buf'| {
        SplitIff(rx', frag, buf'[size + 2..], max, fuel);
      } else {
        var left := size + 2 - |buf'|;
        ReadRestIs(rx', frag, left, max, fuel);
        RestReads(rx', frag, left, max, fuel);
        var t := ReadRest(rx', frag, left, max, fuel);
        SplitIff(t.rx, frag, "", max, fuel);
      }
    }
  }

  lemma Drop(all: string, data: string, wire: string, n: nat)
    requires all == data + wire && n <= |data|
    ensures all[n..] == data[n..] + wire
  {
  }

  /** The whole promise: for every list of chunks and every fragmentation into non-empty reads, if each
      header line is wholly buffered when it is parsed, recvResponse's body is the concatenation of the
      chunk data; and a header line is parsed in part exactly if that is not so. */
  lemma BodyIsPayload(cs: seq<Chunk>, last: Chunk, more: string, buffered: string, rx: Rx, frag: Frag, max: nat, fuel: nat)
    requires (forall i :: 0 <= i < |cs| ==> ValidChunk(cs[i]) && cs[i].data != "") && ValidChunk(last) && last.data == ""
    requires |buffered| <= max && max > 0 && forall k :: frag(k) > 0
    requires buffered + rx.wire == Message(cs, last) + more && fuel >= rx.calls + |rx.wire|
    ensures Decode(Message(cs, last) + more).Whole?
    ensures var r := Chunks(rx, frag, buffered, max, fuel);
            if LinesWhole(Message(cs, last) + more, |buffered|, rx.calls, frag, max) then r == Result(Body(Payload(cs)), false)
            else r.split
  {
    hide LinesWhole, Decode, Chunks;
    MessageDecodes(cs, last, more);
    ChunksIs(rx, frag, buffered, max, fuel);
    SplitIff(rx, frag, buffered, max, fuel);
  }

  // ---------------------------------------------------------------- what a cut costs

  /** However the reads fall, a body is shorter than what was received by two bytes for each header and two
      for each line end. */
  lemma {:induction false} BodyBound(rx: Rx, frag: Frag, buf: string, max: nat, fuel: nat)
    requires |buf| <= max && max > 0
    ensures var r := Chunks(rx, frag, buf, max, fuel);
            r.outcome.Body? ==>
              && |r.outcome.text| + 4 <= |buf| + |rx.wire|
              && (r.outcome.text != "" ==> |r.outcome.text| + 8 <= |buf| + |rx.wire|)
    decreases |buf| + |rx.wire|
  {
    hide ReadHeader, ReadRest;
    var h := ReadHeader(rx, frag, buf, true, max, fuel);
    if h.Head? && Sane(h.size) {
      if h.size + 2 <= |h.buf| {
        if h.size > 0 { BodyBound(h.rx, frag, h.buf[h.size + 2..], max, fuel); }
      } else {
        var t := ReadRest(h.rx, frag, h.size - |h.buf| + 2, max, fuel);
        if t.Tail? && h.size > 0 { BodyBound(t.rx, frag, "", max, fuel); }
      }
    }
  }

  function Pow16(n: nat): nat {
    if n == 0 then 1 else 16 * Pow16(n - 1)
  }

  lemma {:induction false} HexBound(s: string, acc: nat)
    requires forall i :: 0 <= i < |s| ==> IsHex(s[i])
    ensures acc * Pow16(|s|) <= HexValue(s, acc) < (acc + 1) * Pow16(|s|)
  {
    if s != "" {
      var d := HexDigit(s[0]);
      HexBound(s[1..], 16 * acc + d);
      Scale(acc, d, Pow16(|s| - 1));
    }
  }

  lemma Scale(acc: nat, d: nat, p: nat)
    requires d < 16
    ensures acc * (16 * p) <= (16 * acc + d) * p && (16 * acc + d + 1) * p <= (acc + 1) * (16 * p)
  {
    assert (16 * acc + d) * p == acc * (16 * p) + d * p;
    assert (acc + 1) * (16 * p) == acc * (16 * p) + 16 * p;
    Times(d, p);
  }

  lemma Times(d: nat, p: nat)
    requires d < 16
    ensures d * p >= 0 && (d + 1) * p <= 16 * p
  {
  }

  lemma {:induction false} Pow16Grows(m: nat, n: nat)
    requires m <= n
    ensures 0 < Pow16(m) <= Pow16(n)
  {
    if m < n {
      Pow16Grows(m, n - 1);
    } else if m > 0 {
      Pow16Grows(m - 1, n - 1);
    }
  }

  lemma Below(s: string)
    requires forall i :: 0 <= i < |s| ==> IsHex(s[i])
    ensures HexValue(s, 0) < Pow16(|s|)
  {
    hide HexValue, Pow16;
    HexBound(s, 0);
    assert (0 + 1) * Pow16(|s|) == Pow16(|s|);
  }

  lemma Above(s: string, acc: nat)
    requires acc >= 1 && forall i :: 0 <= i < |s| ==> IsHex(s[i])
    ensures Pow16(|s|) <= HexValue(s, acc)
  {
    hide HexValue, Pow16;
    HexBound(s, acc);
    AtLeastOnce(acc, Pow16(|s|));
  }

  lemma AtLeastOnce(d: nat, p: nat)
    requires d >= 1
    ensures d * p >= p
  {
  }

  lemma FirstDigit(s: string)
    requires s != "" && IsHex(s[0])
    ensures HexValue(s, 0) == HexValue(s[1..], HexDigit(s[0]))
    ensures s[0] != '0' ==> HexDigit(s[0]) >= 1
  {
  }

  /** Without its leading digits, the first of which is not 0, a number is smaller. */
  lemma CutIsSmaller(digits: string, k: nat)
    requires Digits(digits) && digits[0] != '0' && 0 < k < |digits|
    ensures HexValue(digits[k..], 0) < HexValue(digits, 0)
  {
    hide HexValue, Pow16, HexDigit, IsHex;
    Below(digits[k..]);
    Pow16Grows(|digits| - k, |digits| - 1);
    FirstDigit(digits);
    Above(digits[1..], HexDigit(digits[0]));
  }

  const ZERO := Chunk("0", [], true, "")

  /** The last chunk as it is usually written. */
  lemma ZeroIs()
    ensures ValidChunk(ZERO) && ChunkText(ZERO) == "0\r\n\r\n"
  {
    ZeroText(ZERO);
  }

  /** The first chunk without its first `k` digits: a shorter chunk's header, then all the data. */
  function Behead(c: Chunk, k: nat): Chunk
    requires Digits(c.digits) && 0 < k < |c.digits| && HexValue(c.digits[k..], 0) <= |c.data|
  {
    Chunk(c.digits[k..], c.exts, c.cr, c.data[..HexValue(c.digits[k..], 0)])
  }

  lemma BeheadIs(c: Chunk, k: nat)
    requires ValidChunk(c) && c.digits[0] != '0' && 0 < k < |c.digits|
    ensures HexValue(c.digits[k..], 0) < |c.data|
    ensures ValidChunk(Behead(c, k)) && |Behead(c, k).data| < |c.data| && |HeaderText(Behead(c, k))| == |HeaderText(c)| - k
    ensures forall more :: ChunkText(c) + more == c.digits[..k] + (HeaderText(Behead(c, k)) + (c.data + ("\r\n" + more)))
  {
    HexReadsBack(c.digits, |c.data|);
    HexReadsBack(c.digits[k..], HexValue(c.digits[k..], 0));
    CutIsSmaller(c.digits, k);
    forall more
      ensures ChunkText(c) + more == c.digits[..k] + (HeaderText(Behead(c, k)) + (c.data + ("\r\n" + more)))
    {
      Regrouped(c.digits[..k], c.digits[k..], ExtText(c.exts) + EndOfLine(c.cr), c.data, more);
      assert c.digits == c.digits[..k] + c.digits[k..];
    }
  }

  lemma Regrouped(a: string, b: string, e: string, d: string, more: string)
    ensures (((a + b) + e) + d + "\r\n") + more == a + ((b + e) + (d + ("\r\n" + more)))
  {
  }

  /** The first read brings `k` digits and nothing else: they are forgotten, and the rest of the line is
      parsed as a header of its own. */
  lemma HeadIsCut(c: Chunk, k: nat, more: string, rx: Rx, frag: Frag, max: nat, fuel: nat)
    requires ValidChunk(c) && c.digits[0] != '0' && 0 < k < |c.digits| && rx.wire == ChunkText(c) + more
    requires (forall j :: frag(j) > 0) && frag(rx.calls) == k && frag(rx.calls + 1) >= |HeaderText(c)| - k
    requires max >= |HeaderText(c)| && fuel >= rx.calls + |rx.wire|
    ensures var h := ReadHeader(rx, frag, "", true, max, fuel);
            && h.Head? && h.split && h.size == HexValue(c.digits[k..], 0) && |h.buf| <= max
            && h.buf + h.rx.wire == c.data + ("\r\n" + more)
            && h.rx.calls + |h.rx.wire| <= rx.calls + |rx.wire|
  {
    hide ScanHeader, HexValue, HeaderText, ChunkText, Behead;
    BeheadIs(c, k);
    var c', tail := Behead(c, k), c.data + ("\r\n" + more);
    BeheadSize(c, k);
    FirstRead(c.digits[..k], HeaderText(c') + tail, rx, frag, max);
    var r0 := Receive(rx, frag, max);
    DigitsArePartial(c.digits, k);
    var r1 := Receive(r0.rx, frag, max);
    SecondRead(HeaderText(c'), tail, r0.rx, frag, max);
    HeaderScans(c');
    ScanPrefix(HeaderText(c'), r1.got[|HeaderText(c')|..]);
    assert r1.got == HeaderText(c') + r1.got[|HeaderText(c')|..];
    assert "" + r0.got == r0.got && "" + r1.got == r1.got;
    assert Parse(r1.rx, frag, r1.got, max, fuel) == Head(|c'.data|, r1.got[|HeaderText(c')|..], r1.rx, false);
    assert ReadHeader(r0.rx, frag, "", false, max, fuel) == Parse(r1.rx, frag, r1.got, max, fuel);
    assert Parse(r0.rx, frag, r0.got, max, fuel).split;
  }

  lemma BeheadSize(c: Chunk, k: nat)
    requires ValidChunk(c) && c.digits[0] != '0' && 0 < k < |c.digits| && HexValue(c.digits[k..], 0) <= |c.data|
    ensures |Behead(c, k).data| == HexValue(c.digits[k..], 0) && Behead(c, k).digits == c.digits[k..]
    ensures |HeaderText(Behead(c, k))| >= 2 && k < |HeaderText(c)|
  {
  }

  lemma FirstRead(a: string, b: string, rx: Rx, frag: Frag, max: nat)
    requires rx.wire == a + b && frag(rx.calls) == |a| > 0 && max >= |a|
    ensures Receive(rx, frag, max) == Received(|a|, a, Rx(b, rx.calls + 1))
  {
    assert rx.wire[..|a|] == a && rx.wire[|a|..] == b;
  }

  /** A read that covers a text brings it and whatever else is there. */
  lemma SecondRead(a: string, b: string, rx: Rx, frag: Frag, max: nat)
    requires rx.wire == a + b && frag(rx.calls) >= |a| > 0 && max >= |a|
    ensures var r := Receive(rx, frag, max);
            && r.rt > 0 && |r.got| >= |a| && r.got[..|a|] == a && r.got[|a|..] + r.rx.wire == b && |r.got| <= max
            && r.rx.calls + |r.rx.wire| <= rx.calls + |rx.wire|
  {
    var r := Receive(rx, frag, max);
    assert r.got == (a + b)[..|r.got|];
    assert r.got[|a|..] + r.rx.wire == (a + b)[|a|..];
  }

  lemma DigitsArePartial(digits: string, k: nat)
    requires Digits(digits) && 0 < k <= |digits|
    ensures ScanHeader(digits[..k]) == Partial
  {
    AllHexIsPartial(Start, digits[..k], 0, digits[..k]);
  }

  /** A cut costs data: for every chunk whose size is written without leading zeros, if the first read ends
      among its digits and the next one brings the rest of the line, the body is not the chunk's data,
      however the reads fall after that. */
  lemma CutLosesData(c: Chunk, k: nat, rx: Rx, frag: Frag, max: nat, fuel: nat)
    requires ValidChunk(c) && c.digits[0] != '0' && 0 < k < |c.digits| && rx.wire == Message([c], ZERO)
    requires (forall j :: frag(j) > 0) && frag(rx.calls) == k && frag(rx.calls + 1) >= |HeaderText(c)| - k
    requires max >= |HeaderText(c)| && max > 0 && fuel >= rx.calls + |rx.wire|
    ensures Chunks(rx, frag, "", max, fuel).split
    ensures Chunks(rx, frag, "", max, fuel).outcome != Body(c.data)
  {
    hide ReadHeader, ReadRest, HexValue, ChunkText, HeaderText;
    ZeroIs();
    OneChunk(c);
    HeadIsCut(c, k, "0\r\n\r\n", rx, frag, max, fuel);
    BeheadIs(c, k);
    var h := ReadHeader(rx, frag, "", true, max, fuel);
    var left := h.size - |h.buf| + 2;
    if h.size > 0 && h.size + 2 <= |h.buf| {
      BodyBound(h.rx, frag, h.buf[h.size + 2..], max, fuel);
    } else if h.size > 0 {
      ReadRestIs(h.rx, frag, left, max, fuel);
      BodyBound(ReadRest(h.rx, frag, left, max, fuel).rx, frag, "", max, fuel);
    }
  }

  lemma OneChunk(c: Chunk)
    ensures Message([c], ZERO) == ChunkText(c) + ChunkText(ZERO)
  {
    hide ChunkText;
    assert [c][1..] == [];
  }
}
