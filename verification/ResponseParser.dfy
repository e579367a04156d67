/** The Response machine (src/http/http_response_parser.rl) with its callbacks (src/http/http_parser.cpp),
    and its partner, HttpResponse::dump (src/http/http.cpp). */
module ResponseParser {
  import C = ChunkedBody
  import opened HttpResponse

  // ---------------------------------------------------------------- printing

  /** `phrase` is the table of standard reasons. */
  datatype Response = Response(version: nat, status: nat, reason: string, headers: seq<Header>, close: bool, websocket: bool,
                               body: string)

  function Decimal(n: nat): (s: string)
    ensures s != "" && forall i :: 0 <= i < |s| ==> IsDigit(s[i])
  {
    if n < 10 then [DigitChar(n)] else Decimal(n / 10) + [DigitChar(n % 10)]
  }

  function DigitChar(d: nat): (c: char)
    requires d < 10
    ensures IsDigit(c) && DigitValue(c) == d
  {
    (d + '0' as nat) as char
  }

  predicate IsDigit(c: char) {
    '0' <= c <= '9'
  }

  function DigitValue(c: char): nat
    requires IsDigit(c)
  {
    c as nat - '0' as nat
  }

  function Value(digits: string): nat
    requires forall i :: 0 <= i < |digits| ==> IsDigit(digits[i])
  {
    if digits == "" then 0 else 10 * Value(digits[..|digits| - 1]) + DigitValue(digits[|digits| - 1])
  }

  lemma {:induction false} DecimalValue(n: nat)
    ensures Value(Decimal(n)) == n
  {
    if n >= 10 {
      DecimalValue(n / 10);
      assert Decimal(n)[..|Decimal(n)| - 1] == Decimal(n / 10);
    } else {
      assert Decimal(n)[..0] == "";
    }
  }

  function Reason(r: Response, phrase: nat -> string): string {
    if r.reason == "" then phrase(r.status) else r.reason
  }

  predicate IsConnection(name: string) {
    Lower(name) == "connection"
  }

  /** The headers the loop prints. */
  function Printed(hs: seq<Header>, websocket: bool): seq<Header> {
    if hs == [] then []
    else (if !websocket && IsConnection(hs[0].name) then [] else [hs[0]]) + Printed(hs[1..], websocket)
  }

  function HeaderLine(h: Header): string {
    h.name + ": " + h.value + "\r\n"
  }

  function HeaderLines(hs: seq<Header>): string {
    if hs == [] then "" else HeaderLine(hs[0]) + HeaderLines(hs[1..])
  }

  /** The lines dump adds of its own. */
  function Own(r: Response): seq<Header> {
    (if r.websocket then [] else [Header("connection", if r.close then "close" else "keep-alive")]) +
    (if r.body == "" then [] else [Header("content-length", Decimal(|r.body|))])
  }

  function StatusLine(r: Response, phrase: nat -> string): string {
    "HTTP/" + Decimal(r.version / 16) + "." + Decimal(r.version % 16) + " " + Decimal(r.status) + " " + Reason(r, phrase) + "\r\n"
  }

  function Dump(r: Response, phrase: nat -> string): string {
    StatusLine(r, phrase) + HeaderLines(Printed(r.headers, r.websocket) + Own(r)) + "\r\n" + r.body
  }

  /** The loop of dump over the map. */
  method DumpHeaders(hs: seq<Header>, websocket: bool) returns (os: string)
    ensures os == HeaderLines(Printed(hs, websocket))
  {
    hide IsConnection;
    os := "";
    var i := 0;
    assert hs[0..] == hs;
    while i < |hs|
      invariant i <= |hs|
      invariant os + HeaderLines(Printed(hs[i..], websocket)) == HeaderLines(Printed(hs, websocket))
    {
      var it := hs[i];
      ghost var rest := Printed(hs[i + 1..], websocket);
      assert hs[i..][1..] == hs[i + 1..];
      assert ([it] + rest)[1..] == rest && [] + rest == rest;
      i := i + 1;
      if !websocket && IsConnection(it.name) {
        continue;
      }
      assert os + (HeaderLine(it) + HeaderLines(rest)) == os + HeaderLine(it) + HeaderLines(rest);
      os := os + (it.name + ": " + it.value + "\r\n");
    }
  }

  method DumpTo(r: Response, phrase: nat -> string) returns (os: string)
    ensures os == Dump(r, phrase)
  {
    hide Decimal, StatusLine, Printed, HeaderLine, HeaderLines, Own;
    var headers := DumpHeaders(r.headers, r.websocket);
    var own := "";
    if !r.websocket {
      own := own + HeaderLine(Header("connection", if r.close then "close" else "keep-alive"));
    }
    if r.body != "" {
      own := own + HeaderLine(Header("content-length", Decimal(|r.body|)));
    }
    LinesJoin(Printed(r.headers, r.websocket), Own(r));
    OwnLines(r);
    os := StatusLine(r, phrase) + (headers + own) + "\r\n" + r.body;
  }

  lemma {:induction false} LinesJoin(a: seq<Header>, b: seq<Header>)
    ensures HeaderLines(a + b) == HeaderLines(a) + HeaderLines(b)
  {
    if a == [] {
      assert a + b == b;
    } else {
      LinesJoin(a[1..], b);
      assert (a + b)[1..] == a[1..] + b;
    }
  }

  lemma OwnLines(r: Response)
    ensures HeaderLines(Own(r)) ==
            (if r.websocket then "" else HeaderLine(Header("connection", if r.close then "close" else "keep-alive"))) +
            (if r.body == "" then "" else HeaderLine(Header("content-length", Decimal(|r.body|))))
  {
    hide Decimal, HeaderLine;
    var c := if r.websocket then [] else [Header("connection", if r.close then "close" else "keep-alive")];
    var l := if r.body == "" then [] else [Header("content-length", Decimal(|r.body|))];
    LinesJoin(c, l);
    LinesOfOne(Header("connection", if r.close then "close" else "keep-alive"));
    LinesOfOne(Header("content-length", Decimal(|r.body|)));
  }

  lemma LinesOfOne(h: Header)
    ensures HeaderLines([h]) == HeaderLine(h) && HeaderLines([]) == ""
  {
    assert [h][1..] == [];
  }

  // ---------------------------------------------------------------- the machine

  datatype State =
    | Http(k: nat) | Major0 | Major | Minor0 | Minor | Code0 | Code | Reason0 | InReason | Cr
    | LineStart | EndCr | Name | Blank | InValue | Final | Failed | Special

  datatype Message = Message(version: nat, status: int, reason: string, headers: seq<Header>, chunked: bool, badVersion: bool)

  /** The machine with its marks. */
  datatype Parser = Parser(st: State, mark: nat, fieldStart: nat, fieldEnd: nat, msg: Message)

  predicate IsSpace(c: char) {
    c == ' ' || c == '\t' || c as int == 11 || c as int == 12
  }

  /** The names with a rule of their own; only for a blank value does that rule part ways with the
      general one (it lets white space run on over the line end). */
  predicate HasOwnRule(name: string) {
    Lower(name) == "connection" || Lower(name) == "content-length" || Lower(name) == "transfer-encoding"
  }

  function Slice(s: string, i: nat, j: nat): string {
    if i <= j <= |s| then s[i..j] else ""
  }

  function AtoI(s: string): int
    decreases |s|
  {
    var n := DigitRun(s);
    DigitRunBound(s);
    C.ToInt(Value(s[..n]))
  }

  function DigitRun(s: string): nat {
    if s == "" || !IsDigit(s[0]) then 0 else 1 + DigitRun(s[1..])
  }

  lemma {:induction false} DigitRunBound(s: string)
    ensures DigitRun(s) <= |s| && forall i :: 0 <= i < DigitRun(s) ==> IsDigit(s[i])
    ensures (forall i :: 0 <= i < |s| ==> IsDigit(s[i])) ==> DigitRun(s) == |s|
  {
    if s != "" && IsDigit(s[0]) {
      DigitRunBound(s[1..]);
      assert forall i :: 1 <= i < |s| ==> s[i] == s[1..][i - 1];
    }
  }

  function OnVersion(m: Message, at: string): Message {
    if at == "HTTP/1.1" then m.(version := 0x11)
    else if at == "HTTP/1.0" then m.(version := 0x10)
    else m.(badVersion := true)
  }

  function OnField(m: Message, name: string, value: string): Message {
    if name == "" then m
    else m.(headers := SetHeader(m.headers, name, value),
            chunked := m.chunked || (Lower(name) == "transfer-encoding" && Lower(value) == "chunked"))
  }

  function WriteField(p: Parser, s: string, i: nat, st: State): Parser {
    p.(st := st, msg := OnField(p.msg, Slice(s, p.fieldStart, p.fieldEnd), Slice(s, p.mark, i)))
  }

  /** One character of the buffer, at position i. */
  function Step(p: Parser, s: string, i: nat): Parser
    requires i < |s|
  {
    var c := s[i];
    match p.st
    case Http(k) =>
      if k < 5 && c == "HTTP/"[k] then p.(st := if k == 4 then Major0 else Http(k + 1), mark := if k == 0 then i else p.mark)
      else p.(st := Failed)
    case Major0 => p.(st := if IsDigit(c) then Major else Failed)
    case Major => p.(st := if c == '.' then Minor0 else if IsDigit(c) then Major else Failed)
    case Minor0 => p.(st := if IsDigit(c) then Minor else Failed)
    case Minor =>
      if c == ' ' then p.(st := Code0, msg := OnVersion(p.msg, Slice(s, p.mark, i)))
      else p.(st := if IsDigit(c) then Minor else Failed)
    case Code0 => if IsDigit(c) then p.(st := Code, mark := i) else p.(st := Failed)
    case Code =>
      if c == ' ' then p.(st := Reason0, msg := p.msg.(status := AtoI(Slice(s, p.mark, i))))
      else p.(st := if IsDigit(c) then Code else Failed)
    case Reason0 => if c == '\n' then p.(st := Failed) else p.(st := InReason, mark := i)
    case InReason =>
      if c == '\n' then p.(st := LineStart, msg := p.msg.(reason := Slice(s, p.mark, i)))
      else if c == '\r' then p.(st := Cr, msg := p.msg.(reason := Slice(s, p.mark, i)))
      else p
    case Cr => p.(st := if c == '\n' then LineStart else Failed)
    case LineStart =>
      if c == '\n' then p.(st := Final)
      else if c == '\r' then p.(st := EndCr)
      else if C.IsToken(c) then p.(st := Name, fieldStart := i)
      else p.(st := Failed)
    case EndCr => p.(st := if c == '\n' then Final else Failed)
    case Name =>
      if c == ':' then p.(st := Blank, fieldEnd := i) else p.(st := if C.IsToken(c) then Name else Failed)
    case Blank =>
      if c == '\n' || c == '\r' then
        (if HasOwnRule(Slice(s, p.fieldStart, p.fieldEnd)) then p.(st := Special)
         else WriteField(p.(mark := i), s, i, if c == '\n' then LineStart else Cr))
      else p.(mark := i, st := if IsSpace(c) then Blank else InValue)
    case InValue =>
      if c == '\n' then WriteField(p, s, i, LineStart)
      else if c == '\r' then WriteField(p, s, i, Cr)
      else p
    case _ => p
  }

  predicate Ended(st: State) {
    st.Final? || st.Failed? || st.Special?
  }

  /** Parsed: the message and how many bytes it took. */
  datatype Outcome = Parsed(msg: Message, used: nat) | Error | More | Unmodelled

  function Run(p: Parser, s: string, i: nat): Outcome
    requires i <= |s|
    decreases |s| - i
  {
    if p.st.Final? then (if p.msg.badVersion then Error else Parsed(p.msg, i))
    else if p.st.Failed? then Error
    else if p.st.Special? then Unmodelled
    else if i == |s| then (if p.msg.badVersion then Error else More)
    else Run(Step(p, s, i), s, i + 1)
  }

  function Init(): Parser {
    Parser(Http(0), 0, 0, 0, Message(0x11, 200, "", [], false, false))
  }

  function Parse(s: string): Outcome {
    Run(Init(), s, 0)
  }

  /** The pointer walk over a buffer. */
  method Execute(data: string) returns (r: Outcome)
    ensures r == Parse(data)
  {
    hide Step;
    var parser := Init();
    var p := 0;
    while p < |data| && !Ended(parser.st)
      invariant p <= |data| && Run(parser, data, p) == Parse(data)
    {
      parser := Step(parser, data, p);
      p := p + 1;
    }
    match parser.st {
      case Final => r := if parser.msg.badVersion then Error else Parsed(parser.msg, p);
      case Failed => r := Error;
      case Special => r := Unmodelled;
      case _ => r := if parser.msg.badVersion then Error else More;
    }
  }

  // ---------------------------------------------------------------- what the machine makes of each part

  lemma {:induction false} Loops(p: Parser, s: string, i: nat, j: nat)
    requires i <= j <= |s| && !Ended(p.st) && forall k :: i <= k < j ==> Step(p, s, k) == p
    ensures Run(p, s, i) == Run(p, s, j)
    decreases j - i
  {
    if i < j { Loops(p, s, i + 1, j); }
  }

  lemma Once(p: Parser, s: string, i: nat)
    requires i < |s| && !Ended(p.st)
    ensures Run(p, s, i) == Run(Step(p, s, i), s, i + 1)
  {
  }

  predicate OneLine(v: string) {
    forall i :: 0 <= i < |v| ==> v[i] != '\r' && v[i] != '\n'
  }

  function Blanks(v: string): (n: nat)
    ensures n <= |v| && forall i :: 0 <= i < n ==> IsSpace(v[i])
    ensures n < |v| ==> !IsSpace(v[n])
  {
    if v == "" || !IsSpace(v[0]) then 0 else 1 + Blanks(v[1..])
  }

  function TrimLeft(v: string): (t: string)
    ensures |t| <= |v|
  {
    v[Blanks(v)..]
  }

  lemma TrimLeftIs(v: string)
    ensures var t := TrimLeft(v);
            && v == v[..|v| - |t|] + t
            && (forall i :: 0 <= i < |v| - |t| ==> IsSpace(v[i]))
            && (t != "" ==> !IsSpace(t[0]))
            && (t == v <==> v == "" || !IsSpace(v[0]))
  {
  }

  /** Nothing is trimmed exactly when there is no white space in front. */
  lemma TrimSame(v: string)
    ensures TrimLeft(v) == v <==> v == "" || !IsSpace(v[0])
  {
    TrimLeftIs(v);
  }

  /** A header that survives: a token for a name, a value on one line, not blank where the name has a rule
      of its own. */
  predicate ValidHeader(h: Header) {
    C.Tokens(h.name) && OneLine(h.value) && (TrimLeft(h.value) == "" ==> !HasOwnRule(h.name))
  }

  /** s holds text at i. */
  predicate Holds(s: string, i: nat, text: string) {
    i + |text| <= |s| && s[i..i + |text|] == text
  }

  lemma HoldsSplit(s: string, i: nat, a: string, b: string)
    requires Holds(s, i, a + b)
    ensures Holds(s, i, a) && Holds(s, i + |a|, b)
  {
    assert s[i..i + |a|] == s[i..i + |a + b|][..|a|];
    assert s[i + |a|..i + |a| + |b|] == s[i..i + |a + b|][|a|..];
  }

  lemma HoldsFits(s: string, i: nat, text: string)
    requires Holds(s, i, text)
    ensures i + |text| <= |s|
  {
  }

  lemma HoldsAt(s: string, i: nat, text: string)
    requires Holds(s, i, text)
    ensures i + |text| <= |s|
    ensures forall k :: 0 <= k < |text| ==> s[i + k] == text[k]
    ensures forall k :: i <= k < i + |text| ==> s[k] == text[k - i]
  {
    forall k | i <= k < i + |text|
      ensures s[k] == text[k - i]
    {
      assert s[i..i + |text|][k - i] == s[k];
    }
  }

  /** From the start of a line to the colon. */
  lemma NameParsed(p: Parser, s: string, i: nat, name: string)
    requires p.st == LineStart && C.Tokens(name) && Holds(s, i, name + ":")
    ensures var j := i + |name|;
            Run(p, s, i) == Run(p.(st := Blank, fieldStart := i, fieldEnd := j), s, j + 1)
  {
    hide Run;
    HoldsSplit(s, i, name, ":");
    HoldsAt(s, i, name);
    HoldsAt(s, i + |name|, ":");
    TokenIsPlain(name[0]);
    Once(p, s, i);
    var p1 := p.(st := Name, fieldStart := i);
    assert Step(p, s, i) == p1;
    forall k | i + 1 <= k < i + |name|
      ensures Step(p1, s, k) == p1
    {
      TokenIsPlain(name[k - i]);
    }
    Loops(p1, s, i + 1, i + |name|);
    Once(p1, s, i + |name|);
  }

  lemma TokenIsPlain(c: char)
    requires C.IsToken(c)
    ensures c != ':' && c != '\n' && c != '\r'
  {
  }

  lemma {:induction false} Spaces(p: Parser, s: string, i: nat, j: nat) returns (p': Parser)
    requires i <= j <= |s| && p.st == Blank && forall k :: i <= k < j ==> IsSpace(s[k])
    ensures p' == p.(mark := p'.mark) && Run(p, s, i) == Run(p', s, j)
    decreases j - i
  {
    if i == j {
      p' := p;
    } else {
      Once(p, s, i);
      p' := Spaces(p.(mark := i), s, i + 1, j);
    }
  }

  /** The value ends at the carriage return, or at the line feed. */
  lemma ValueEnds(p: Parser, s: string, i: nat, t: string, end: char) returns (p': Parser)
    requires p.st == Blank && OneLine(t) && (t != "" ==> !IsSpace(t[0])) && Holds(s, i, t + [end]) && (end == '\r' || end == '\n')
    requires t == "" ==> !HasOwnRule(Slice(s, p.fieldStart, p.fieldEnd))
    ensures Run(p, s, i) == Run(p', s, i + |t| + 1)
    ensures p'.st == (if end == '\r' then Cr else LineStart)
    ensures p'.msg == OnField(p.msg, Slice(s, p.fieldStart, p.fieldEnd), t)
  {
    hide OnField, HasOwnRule, Holds;
    HoldsAt(s, i, t + [end]);
    HoldsSplit(s, i, t, [end]);
    var e := i + |t|;
    assert s[e] == end;
    Once(p, s, i);
    if t == "" {
      p' := Step(p, s, i);
    } else {
      assert s[i] == t[0];
      var p1 := p.(mark := i, st := InValue);
      Loops(p1, s, i + 1, e);
      Once(p1, s, e);
      SliceOf(s, i, t);
      p' := Step(p1, s, e);
    }
  }

  /** The white space trimmed off. */
  lemma TrimmedOff(v: string) returns (lead: string)
    requires OneLine(v)
    ensures var t := TrimLeft(v);
            && v == lead + t && OneLine(t) && (t != "" ==> !IsSpace(t[0]))
            && (forall i :: 0 <= i < |lead| ==> IsSpace(lead[i]))
            && " " + v + "\r\n" == (" " + lead) + ((t + "\r") + "\n")
  {
    hide TrimLeft, IsSpace, OneLine;
    lead := Lead(v);
    OneLineBehind(lead, TrimLeft(v));
    LineEnd(lead, TrimLeft(v));
  }

  lemma Lead(v: string) returns (lead: string)
    ensures var t := TrimLeft(v);
            v == lead + t && (t != "" ==> !IsSpace(t[0])) && forall i :: 0 <= i < |lead| ==> IsSpace(lead[i])
  {
    hide TrimLeft, IsSpace;
    TrimLeftIs(v);
    lead := v[..|v| - |TrimLeft(v)|];
  }

  lemma OneLineBehind(lead: string, t: string)
    requires OneLine(lead + t)
    ensures OneLine(t)
  {
    assert forall k :: 0 <= k < |t| ==> t[k] == (lead + t)[|lead| + k];
  }

  lemma LineEnd(lead: string, t: string)
    ensures " " + (lead + t) + "\r\n" == (" " + lead) + ((t + "\r") + "\n")
  {
    assert "\r\n" == "\r" + "\n";
  }

  /** From the colon to the start of the next line. */
  lemma ValueParsed(p: Parser, s: string, i: nat, v: string) returns (p': Parser)
    requires p.st == Blank && OneLine(v) && Holds(s, i, " " + v + "\r\n")
    requires TrimLeft(v) == "" ==> !HasOwnRule(Slice(s, p.fieldStart, p.fieldEnd))
    ensures i + |v| + 3 <= |s| && Run(p, s, i) == Run(p', s, i + |v| + 3)
    ensures p'.st == LineStart && p'.msg == OnField(p.msg, Slice(s, p.fieldStart, p.fieldEnd), TrimLeft(v))
  {
    hide Run, Step, OnField, HasOwnRule, Holds, TrimLeft, OneLine, IsSpace;
    var t := TrimLeft(v);
    var lead := TrimmedOff(v);
    var k := i + 1 + |lead|;
    HoldsSplit(s, i, " " + lead, (t + "\r") + "\n");
    HoldsSplit(s, k, t + "\r", "\n");
    HoldsAt(s, i, " " + lead);
    SpaceIsSpace();
    assert k + |t| + 2 == i + |v| + 3;
    var p1 := Spaces(p, s, i, k);
    assert t + ['\r'] == t + "\r";
    var p2 := ValueEnds(p1, s, k, t, '\r');
    HoldsAt(s, k + |t| + 1, "\n");
    Once(p2, s, k + |t| + 1);
    CrStep(p2, s, k + |t| + 1);
    p' := p2.(st := LineStart);
  }

  lemma HeaderParsed(p: Parser, s: string, i: nat, h: Header) returns (p': Parser)
    requires p.st == LineStart && ValidHeader(h) && Holds(s, i, HeaderLine(h))
    ensures Run(p, s, i) == Run(p', s, i + |HeaderLine(h)|)
    ensures p'.st == LineStart && p'.msg == OnField(p.msg, h.name, TrimLeft(h.value))
  {
    hide Run, OnField, C.Tokens, Holds, TrimLeft, OneLine, HasOwnRule, IsSpace;
    var n := |h.name|;
    LineShape(h);
    HoldsSplit(s, i, h.name + ":", " " + h.value + "\r\n");
    NameParsed(p, s, i, h.name);
    HoldsSplit(s, i, h.name, ":");
    SliceOf(s, i, h.name);
    p' := ValueParsed(p.(st := Blank, fieldStart := i, fieldEnd := i + n), s, i + n + 1, h.value);
  }

  lemma LineShape(h: Header)
    ensures HeaderLine(h) == (h.name + ":") + (" " + h.value + "\r\n")
    ensures |HeaderLine(h)| == |h.name| + |h.value| + 4
  {
    assert ": " == ":" + " ";
  }

  lemma SliceOf(s: string, i: nat, text: string)
    requires Holds(s, i, text)
    ensures Slice(s, i, i + |text|) == text
  {
  }

  lemma SpaceIsSpace()
    ensures IsSpace(' ')
  {
  }

  lemma CrStep(p: Parser, s: string, i: nat)
    requires i < |s| && s[i] == '\n' && p.st == Cr
    ensures Step(p, s, i) == p.(st := LineStart)
  {
  }

  /** The header map after a list of lines. */
  function Fields(m: Message, hs: seq<Header>): Message
    decreases hs
  {
    if hs == [] then m else Fields(OnField(m, hs[0].name, TrimLeft(hs[0].value)), hs[1..])
  }

  predicate AllValid(hs: seq<Header>) {
    hs == [] || (ValidHeader(hs[0]) && AllValid(hs[1..]))
  }

  lemma Unfold(hs: seq<Header>, m: Message)
    requires hs != [] && AllValid(hs)
    ensures HeaderLines(hs) == HeaderLine(hs[0]) + HeaderLines(hs[1..]) && ValidHeader(hs[0]) && AllValid(hs[1..])
    ensures Fields(m, hs) == Fields(OnField(m, hs[0].name, TrimLeft(hs[0].value)), hs[1..])
  {
  }

  lemma NoLines(m: Message)
    ensures HeaderLines([]) == "" && Fields(m, []) == m
  {
  }

  lemma {:induction false} HeadersParsed(p: Parser, s: string, i: nat, hs: seq<Header>) returns (p': Parser)
    requires p.st == LineStart && AllValid(hs) && Holds(s, i, HeaderLines(hs))
    ensures i + |HeaderLines(hs)| <= |s| && Run(p, s, i) == Run(p', s, i + |HeaderLines(hs)|)
    ensures p'.st == LineStart && p'.msg == Fields(p.msg, hs)
    decreases |hs|
  {
    hide *;
    HoldsFits(s, i, HeaderLines(hs));
    if hs == [] {
      NoLines(p.msg);
      p' := p;
    } else {
      var first, rest := HeaderLine(hs[0]), HeaderLines(hs[1..]);
      Unfold(hs, p.msg);
      HoldsSplit(s, i, first, rest);
      HoldsFits(s, i, first);
      var p1 := HeaderParsed(p, s, i, hs[0]);
      p' := HeadersParsed(p1, s, i + |first|, hs[1..]);
      assert i + |first| + |rest| == i + |HeaderLines(hs)|;
    }
  }

  function VersionText(version: nat): string {
    if version == 0x11 then "HTTP/1.1" else "HTTP/1.0"
  }

  /** The first eight characters and the blank. */
  lemma VersionParsed(s: string, version: nat)
    requires (version == 0x10 || version == 0x11) && Holds(s, 0, VersionText(version) + " ")
    ensures 9 <= |s|
    ensures var p := Init();
            Run(p, s, 0) == Run(p.(st := Code0, msg := p.msg.(version := version)), s, 9)
  {
    hide Run, Holds;
    HoldsAt(s, 0, VersionText(version) + " ");
    var p := Init();
    LetterSteps(s, version);
    var p5 := p.(st := Major0);
    Once(p5, s, 5);
    Once(p.(st := Major), s, 6);
    Once(p.(st := Minor0), s, 7);
    Once(p.(st := Minor), s, 8);
    HoldsSplit(s, 0, VersionText(version), " ");
    SliceOf(s, 0, VersionText(version));
  }

  lemma LetterSteps(s: string, version: nat)
    requires 9 <= |s| && forall k :: 0 <= k < 5 ==> s[k] == "HTTP/"[k]
    ensures Run(Init(), s, 0) == Run(Init().(st := Major0), s, 5)
  {
    var p := Init();
    Once(p, s, 0);
    Once(p.(st := Http(1)), s, 1);
    Once(p.(st := Http(2)), s, 2);
    Once(p.(st := Http(3)), s, 3);
    Once(p.(st := Http(4)), s, 4);
  }

  /** The digits and the blank. */
  lemma StatusParsed(p: Parser, s: string, i: nat, digits: string) returns (p': Parser)
    requires p.st == Code0 && digits != "" && (forall k :: 0 <= k < |digits| ==> IsDigit(digits[k]))
    requires Holds(s, i, digits + " ")
    ensures i + |digits| + 1 <= |s| && Run(p, s, i) == Run(p', s, i + |digits| + 1)
    ensures p'.st == Reason0 && p'.msg == p.msg.(status := AtoI(digits))
  {
    hide AtoI;
    HoldsAt(s, i, digits + " ");
    HoldsSplit(s, i, digits, " ");
    var e := i + |digits|;
    Once(p, s, i);
    assert s[i] == digits[0];
    var p1 := p.(st := Code, mark := i);
    forall k | i + 1 <= k < e
      ensures Step(p1, s, k) == p1
    {
      assert s[k] == digits[k - i];
    }
    Loops(p1, s, i + 1, e);
    Once(p1, s, e);
    SliceOf(s, i, digits);
    p' := Step(p1, s, e);
  }

  lemma ReasonParsed(p: Parser, s: string, i: nat, reason: string) returns (p': Parser)
    requires p.st == Reason0 && reason != "" && OneLine(reason) && Holds(s, i, reason + "\r\n")
    ensures i + |reason| + 2 <= |s| && Run(p, s, i) == Run(p', s, i + |reason| + 2)
    ensures p'.st == LineStart && p'.msg == p.msg.(reason := reason)
  {
    HoldsAt(s, i, reason + "\r\n");
    HoldsSplit(s, i, reason, "\r\n");
    var e := i + |reason|;
    Once(p, s, i);
    assert s[i] == reason[0];
    var p1 := p.(st := InReason, mark := i);
    forall k | i + 1 <= k < e
      ensures Step(p1, s, k) == p1
    {
      assert s[k] == reason[k - i];
    }
    Loops(p1, s, i + 1, e);
    Once(p1, s, e);
    SliceOf(s, i, reason);
    var p2 := Step(p1, s, e);
    Once(p2, s, e + 1);
    CrStep(p2, s, e + 1);
    p' := p2.(st := LineStart);
  }

  /** The blank line ends the message. */
  lemma EndParsed(p: Parser, s: string, i: nat)
    requires p.st == LineStart && !p.msg.badVersion && Holds(s, i, "\r\n")
    ensures Run(p, s, i) == Parsed(p.msg, i + 2)
  {
    HoldsAt(s, i, "\r\n");
    Once(p, s, i);
    Once(p.(st := EndCr), s, i + 1);
  }

  lemma StatusReadBack(status: nat)
    requires status <= C.INT_MAX
    ensures AtoI(Decimal(status)) == status
  {
    DigitRunBound(Decimal(status));
    DecimalValue(status);
    assert Decimal(status)[..|Decimal(status)|] == Decimal(status);
  }

  // ---------------------------------------------------------------- print, then parse

  predicate ValidResponse(r: Response, phrase: nat -> string) {
    && (r.version == 0x10 || r.version == 0x11) && r.status <= C.INT_MAX
    && Reason(r, phrase) != "" && OneLine(Reason(r, phrase))
    && AllValid(r.headers)
  }

  lemma {:induction false} PrintedValid(hs: seq<Header>, websocket: bool, own: seq<Header>)
    requires AllValid(hs) && AllValid(own)
    ensures AllValid(Printed(hs, websocket) + own)
  {
    hide ValidHeader, IsConnection;
    if hs == [] {
      assert Printed(hs, websocket) + own == own;
    } else {
      PrintedValid(hs[1..], websocket, own);
      var rest := Printed(hs[1..], websocket) + own;
      if !websocket && IsConnection(hs[0].name) {
        assert Printed(hs, websocket) + own == rest;
      } else {
        assert Printed(hs, websocket) + own == [hs[0]] + rest;
        assert ([hs[0]] + rest)[1..] == rest;
      }
    }
  }

  lemma PlainValue(name: string, v: string)
    requires C.Tokens(name) && v != "" && forall k :: 0 <= k < |v| ==> C.IsToken(v[k])
    ensures ValidHeader(Header(name, v)) && TrimLeft(v) == v
  {
    hide C.IsToken, C.Tokens, IsSpace, HasOwnRule;
    forall k | 0 <= k < |v|
      ensures v[k] != '\r' && v[k] != '\n' && !IsSpace(v[k])
    {
      TokenIsVisible(v[k]);
    }
  }

  lemma TokenIsVisible(c: char)
    requires C.IsToken(c)
    ensures c != '\n' && c != '\r' && !IsSpace(c)
  {
  }

  lemma OwnValid(r: Response)
    ensures AllValid(Own(r))
    ensures forall h :: h in Own(r) ==> TrimLeft(h.value) == h.value
  {
    hide TrimLeft, ValidHeader, Decimal;
    var c := Header("connection", if r.close then "close" else "keep-alive");
    var l := Header("content-length", Decimal(|r.body|));
    PlainValue(c.name, c.value);
    PlainValue(l.name, l.value);
    assert [c, l][1..] == [l] && [c][1..] == [] && [l][1..] == [];
    assert AllValid([]) && AllValid([l]) && AllValid([c]) && AllValid([c, l]);
  }

  lemma DumpShape(r: Response, phrase: nat -> string)
    requires r.version == 0x10 || r.version == 0x11
    ensures Dump(r, phrase) == (VersionText(r.version) + " ") + ((Decimal(r.status) + " ") + ((Reason(r, phrase) + "\r\n")
                               + (HeaderLines(Printed(r.headers, r.websocket) + Own(r)) + ("\r\n" + r.body))))
  {
    hide Reason, HeaderLines, Printed, Own;
    var d, w, x := Decimal(r.status), Reason(r, phrase), HeaderLines(Printed(r.headers, r.websocket) + Own(r));
    VersionShape(r.version);
    hide Decimal;
    Regroup(VersionText(r.version), d, w, x, r.body);
  }

  lemma VersionShape(version: nat)
    requires version == 0x10 || version == 0x11
    ensures "HTTP/" + Decimal(version / 16) + "." + Decimal(version % 16) == VersionText(version)
  {
    assert version / 16 == 1;
    assert Decimal(1) == "1" && Decimal(0) == "0";
  }

  lemma Regroup(v: string, d: string, w: string, x: string, b: string)
    ensures (v + " " + d + " " + w + "\r\n") + x + "\r\n" + b == (v + " ") + ((d + " ") + ((w + "\r\n") + (x + ("\r\n" + b))))
  {
  }

  /** Parsing what dump prints takes everything but the body, and yields the version, the status, the
      reason as printed and the header lines set one after the other. */
  lemma PrintThenParse(r: Response, phrase: nat -> string)
    requires ValidResponse(r, phrase)
    ensures var m := Message(r.version, r.status, Reason(r, phrase), [], false, false);
            Parse(Dump(r, phrase)) == Parsed(Fields(m, Printed(r.headers, r.websocket) + Own(r)), |Dump(r, phrase)| - |r.body|)
  {
    hide Run, Reason, HeaderLines, Printed, Own, Dump, Decimal, OneLine, AllValid, Fields, Holds, AtoI;
    var s := Dump(r, phrase);
    var hs := Printed(r.headers, r.websocket) + Own(r);
    var d, w, x := Decimal(r.status), Reason(r, phrase), HeaderLines(hs);
    DumpShape(r, phrase);
    OwnValid(r);
    PrintedValid(r.headers, r.websocket, Own(r));
    StatusReadBack(r.status);
    HoldsSelf(s);
    var i := 9 + |d| + 1 + |w| + 2;
    var p3 := StatusLineParsed(s, r.version, d, w, x + ("\r\n" + r.body));
    HoldsSplit(s, i, x, "\r\n" + r.body);
    HoldsSplit(s, i + |x|, "\r\n", r.body);
    var p4 := HeadersParsed(p3, s, i, hs);
    FieldsKeep(p3.msg, hs);
    EndParsed(p4, s, i + |x|);
  }

  lemma StatusLineParsed(s: string, version: nat, d: string, w: string, rest: string) returns (p: Parser)
    requires version == 0x10 || version == 0x11
    requires d != "" && (forall k :: 0 <= k < |d| ==> IsDigit(d[k])) && w != "" && OneLine(w)
    requires Holds(s, 0, (VersionText(version) + " ") + ((d + " ") + ((w + "\r\n") + rest)))
    ensures var i := 9 + |d| + 1 + |w| + 2;
            && i <= |s| && Holds(s, i, rest) && Run(Init(), s, 0) == Run(p, s, i)
            && p.st == LineStart && p.msg == Message(version, AtoI(d), w, [], false, false)
  {
    hide Run, OneLine, Holds, AtoI;
    HoldsSplit(s, 0, VersionText(version) + " ", (d + " ") + ((w + "\r\n") + rest));
    HoldsSplit(s, 9, d + " ", (w + "\r\n") + rest);
    HoldsSplit(s, 9 + |d| + 1, w + "\r\n", rest);
    VersionParsed(s, version);
    var p1 := Init().(st := Code0, msg := Init().msg.(version := version));
    var p2 := StatusParsed(p1, s, 9, d);
    p := ReasonParsed(p2, s, 9 + |d| + 1, w);
  }

  lemma HoldsSelf(s: string)
    ensures Holds(s, 0, s)
  {
    assert s[0..0 + |s|] == s;
  }

  lemma {:induction false} FieldsKeep(m: Message, hs: seq<Header>)
    ensures Fields(m, hs) == m.(headers := Fields(m, hs).headers, chunked := Fields(m, hs).chunked)
    decreases hs
  {
    if hs != [] { FieldsKeep(OnField(m, hs[0].name, TrimLeft(hs[0].value)), hs[1..]); }
  }

  // ---------------------------------------------------------------- the headers come back

  function Trimmed(hs: seq<Header>): (t: seq<Header>)
    ensures |t| == |hs|
    ensures forall i :: 0 <= i < |hs| ==> t[i] == Header(hs[i].name, TrimLeft(hs[i].value))
  {
    seq(|hs|, i requires 0 <= i < |hs| => Header(hs[i].name, TrimLeft(hs[i].value)))
  }

  lemma SetLast(hs: seq<Header>, name: string, value: string)
    requires forall i :: 0 <= i < |hs| ==> CaseLess(hs[i].name, name)
    ensures SetHeader(hs, name, value) == hs + [Header(name, value)]
  {
    PlaceIs(hs, name, |hs|);
    assert hs[..|hs|] == hs;
  }

  lemma SortedAround(a: seq<Header>, hs: seq<Header>, value: string)
    requires Sorted(a + hs) && hs != []
    ensures forall i :: 0 <= i < |a| ==> CaseLess(a[i].name, hs[0].name)
    ensures Sorted(a + [Header(hs[0].name, value)] + hs[1..])
  {
    hide CaseLess;
    var all, all' := a + hs, a + [Header(hs[0].name, value)] + hs[1..];
    forall i | 0 <= i < |a|
      ensures CaseLess(a[i].name, hs[0].name)
    {
      assert CaseLess(all[i].name, all[|a|].name);
    }
    assert forall i :: 0 <= i < |all| ==> all'[i].name == all[i].name;
  }

  lemma FieldsStep(m: Message, hs: seq<Header>)
    requires hs != [] && hs[0].name != ""
    ensures var m' := OnField(m, hs[0].name, TrimLeft(hs[0].value));
            m'.headers == SetHeader(m.headers, hs[0].name, TrimLeft(hs[0].value)) && Fields(m, hs) == Fields(m', hs[1..])
  {
  }

  lemma TrimmedStep(hs: seq<Header>)
    requires hs != []
    ensures Trimmed(hs) == [Header(hs[0].name, TrimLeft(hs[0].value))] + Trimmed(hs[1..])
  {
  }

  lemma ValidStep(hs: seq<Header>)
    requires hs != [] && AllValid(hs)
    ensures hs[0].name != "" && AllValid(hs[1..])
  {
  }

  /** Setting the entries of a map in its own order rebuilds the map. */
  lemma {:induction false} FieldsRebuild(m: Message, hs: seq<Header>)
    requires Sorted(m.headers + hs) && AllValid(hs)
    ensures Fields(m, hs).headers == m.headers + Trimmed(hs)
    decreases |hs|
  {
    hide *;
    if hs == [] {
      NoLines(m);
      assert Trimmed(hs) == [];
    } else {
      ValidStep(hs);
      SortedAround(m.headers, hs, TrimLeft(hs[0].value));
      SetLast(m.headers, hs[0].name, TrimLeft(hs[0].value));
      FieldsStep(m, hs);
      TrimmedStep(hs);
      FieldsRebuild(OnField(m, hs[0].name, TrimLeft(hs[0].value)), hs[1..]);
    }
  }

  lemma {:induction false} FieldsJoin(m: Message, a: seq<Header>, b: seq<Header>)
    ensures Fields(m, a + b) == Fields(Fields(m, a), b)
    decreases a
  {
    if a == [] {
      assert a + b == b;
    } else {
      assert (a + b)[1..] == a[1..] + b;
      FieldsJoin(OnField(m, a[0].name, TrimLeft(a[0].value)), a[1..], b);
    }
  }

  lemma {:induction false} PrintedSorted(hs: seq<Header>, websocket: bool)
    requires Sorted(hs)
    ensures Sorted(Printed(hs, websocket))
    ensures forall h :: h in Printed(hs, websocket) <==> h in hs && (websocket || !IsConnection(h.name))
  {
    hide CaseLess, IsConnection;
    if hs != [] {
      PrintedSorted(hs[1..], websocket);
      var rest := Printed(hs[1..], websocket);
      forall j | 0 <= j < |rest|
        ensures CaseLess(hs[0].name, rest[j].name)
      {
        assert rest[j] in hs[1..];
        var k :| 0 <= k < |hs[1..]| && hs[1..][k] == rest[j];
        assert hs[k + 1] == rest[j];
      }
      assert forall h :: h in hs <==> h == hs[0] || h in hs[1..];
    }
  }

  lemma ValidPrefix(a: seq<Header>, b: seq<Header>)
    requires AllValid(a + b)
    ensures AllValid(a)
    decreases |a|
  {
    if a != [] {
      assert (a + b)[1..] == a[1..] + b;
      ValidPrefix(a[1..], b);
    }
  }

  /** What the map holds afterwards: the connection line dump emits, a content-length equal to the body
      size, and under every other name the value it had, less any white space in front. */
  lemma HeadersComeBack(r: Response, phrase: nat -> string)
    requires ValidResponse(r, phrase) && Sorted(r.headers)
    ensures var o := Parse(Dump(r, phrase));
            && o.Parsed? && Sorted(o.msg.headers)
            && o.msg.headers == Fields(Message(0, 0, "", Trimmed(Printed(r.headers, r.websocket)), false, false), Own(r)).headers
  {
    hide *;
    var m := Message(r.version, r.status, Reason(r, phrase), [], false, false);
    var hs := Printed(r.headers, r.websocket);
    PrintThenParse(r, phrase);
    OwnValid(r);
    HeadersValid(r, phrase);
    PrintedValid(r.headers, r.websocket, Own(r));
    ValidPrefix(hs, Own(r));
    PrintedSorted(r.headers, r.websocket);
    FieldsJoin(m, hs, Own(r));
    assert m.headers + hs == hs;
    FieldsRebuild(m, hs);
    assert m.headers + Trimmed(hs) == Trimmed(hs);
    FieldsOnHeaders(Fields(m, hs), Message(0, 0, "", Trimmed(hs), false, false), Own(r));
    TrimmedSorted(hs);
    FieldsSorted(Fields(m, hs), Own(r));
  }

  lemma HeadersValid(r: Response, phrase: nat -> string)
    requires ValidResponse(r, phrase)
    ensures AllValid(r.headers)
  {
  }

  lemma TrimmedSorted(hs: seq<Header>)
    requires Sorted(hs)
    ensures Sorted(Trimmed(hs))
  {
  }

  lemma {:induction false} FieldsOnHeaders(m: Message, m': Message, hs: seq<Header>)
    requires m.headers == m'.headers
    ensures Fields(m, hs).headers == Fields(m', hs).headers
    decreases hs
  {
    if hs != [] {
      FieldsOnHeaders(OnField(m, hs[0].name, TrimLeft(hs[0].value)), OnField(m', hs[0].name, TrimLeft(hs[0].value)), hs[1..]);
    }
  }

  lemma {:induction false} FieldsSorted(m: Message, hs: seq<Header>)
    requires Sorted(m.headers)
    ensures Sorted(Fields(m, hs).headers)
    decreases hs
  {
    if hs != [] {
      SetKeepsSorted(m.headers, hs[0].name, TrimLeft(hs[0].value));
      FieldsSorted(OnField(m, hs[0].name, TrimLeft(hs[0].value)), hs[1..]);
    }
  }
}
