/** Exactly which texts the Response rule of src/http/http_response_parser.rl accepts, and as what. */
module ResponseText {
  import C = ChunkedBody
  import opened HttpResponse
  import opened ResponseParser
  import opened ResponseLines

  // ---------------------------------------------------------------- the texts

  /** A header line: the name, whatever stands between the colon and the line end, and which line end. */
  datatype Line = Line(name: string, text: string, cr: bool)

  /** The head of a response; `cr` and `endCr` say how the first and the blank line end. */
  datatype Head = Head(version: nat, digits: string, reason: string, cr: bool, lines: seq<Line>, endCr: bool)

  predicate ValidLine(l: Line) {
    C.Tokens(l.name) && OneLine(l.text) && (TrimLeft(l.text) == "" ==> !HasOwnRule(l.name))
  }

  predicate ValidLines(ls: seq<Line>) {
    ls == [] || (ValidLine(ls[0]) && ValidLines(ls[1..]))
  }

  predicate Digits(s: string) {
    s != "" && forall i :: 0 <= i < |s| ==> IsDigit(s[i])
  }

  /** Any first character but a line feed, and no line end after it. */
  predicate ReasonText(w: string) {
    w != "" && w[0] != '\n' && OneLine(w[1..])
  }

  predicate ValidHead(x: Head) {
    && (x.version == 0x10 || x.version == 0x11) && Digits(x.digits) && ReasonText(x.reason) && ValidLines(x.lines)
  }

  function Eol(cr: bool): string {
    if cr then "\r\n" else "\n"
  }

  function LineText(l: Line): string {
    l.name + (":" + (l.text + Eol(l.cr)))
  }

  function LinesText(ls: seq<Line>): string {
    if ls == [] then "" else LineText(ls[0]) + LinesText(ls[1..])
  }

  function HeadText(x: Head): string {
    (if x.version == 0x11 then "HTTP/1.1 " else "HTTP/1.0 ")
    + ((x.digits + " ") + ((x.reason + Eol(x.cr)) + (LinesText(x.lines) + Eol(x.endCr))))
  }

  /** The headers the lines stand for. */
  function Headers(ls: seq<Line>): (hs: seq<Header>)
    ensures |hs| == |ls|
    ensures forall k :: 0 <= k < |ls| ==> hs[k] == Header(ls[k].name, ls[k].text)
  {
    if ls == [] then [] else [Header(ls[0].name, ls[0].text)] + Headers(ls[1..])
  }

  // ---------------------------------------------------------------- they are accepted

  lemma {:induction false} ValidHeaders(ls: seq<Line>)
    requires ValidLines(ls)
    ensures AllValid(Headers(ls))
  {
    if ls != [] {
      ValidHeaders(ls[1..]);
      assert Headers(ls)[1..] == Headers(ls[1..]);
    }
  }

  /** From the start of a line to the start of the next. */
  lemma LineParsed(p: Parser, s: string, i: nat, l: Line) returns (p': Parser)
    requires p.st == LineStart && ValidLine(l) && Holds(s, i, LineText(l))
    ensures i + |LineText(l)| <= |s| && Run(p, s, i) == Run(p', s, i + |LineText(l)|)
    ensures p'.st == LineStart && p'.msg == OnField(p.msg, l.name, TrimLeft(l.text))
  {
    hide Run, Step, OnField, C.Tokens, Holds, TrimLeft, OneLine, HasOwnRule, IsSpace;
    var n, t, end := |l.name|, TrimLeft(l.text), if l.cr then '\r' else '\n';
    var lead := Lead(l.text);
    OneLineBehind(lead, t);
    LineSplits(l, lead, t, end);
    HoldsFits(s, i, LineText(l));
    HoldsSplit(s, i, l.name + ":", lead + ((t + [end]) + (if l.cr then "\n" else "")));
    HoldsSplit(s, i + n + 1, lead, (t + [end]) + (if l.cr then "\n" else ""));
    var k := i + n + 1 + |lead|;
    HoldsSplit(s, k, t + [end], if l.cr then "\n" else "");
    HoldsFits(s, k, t + [end]);
    NameParsed(p, s, i, l.name);
    HoldsSplit(s, i, l.name, ":");
    SliceOf(s, i, l.name);
    HoldsAt(s, i + n + 1, lead);
    var p1 := Spaces(p.(st := Blank, fieldStart := i, fieldEnd := i + n), s, i + n + 1, k);
    var p2 := ValueEnds(p1, s, k, t, end);
    if l.cr {
      HoldsAt(s, k + |t| + 1, "\n");
      Once(p2, s, k + |t| + 1);
      CrStep(p2, s, k + |t| + 1);
      p' := p2.(st := LineStart);
    } else {
      p' := p2;
    }
  }

  lemma LineSplits(l: Line, lead: string, t: string, end: char)
    requires l.text == lead + t && end == if l.cr then '\r' else '\n'
    ensures LineText(l) == (l.name + ":") + (lead + ((t + [end]) + (if l.cr then "\n" else "")))
    ensures |LineText(l)| == |l.name| + 1 + |lead| + |t| + (if l.cr then 2 else 1)
  {
    assert Eol(l.cr) == [end] + (if l.cr then "\n" else "");
  }

  lemma {:induction false} LinesParsed(p: Parser, s: string, i: nat, ls: seq<Line>) returns (p': Parser)
    requires p.st == LineStart && ValidLines(ls) && Holds(s, i, LinesText(ls))
    ensures i + |LinesText(ls)| <= |s| && Run(p, s, i) == Run(p', s, i + |LinesText(ls)|)
    ensures p'.st == LineStart && p'.msg == Fields(p.msg, Headers(ls))
    decreases |ls|
  {
    hide Run, Holds, ValidLine, LineText, OnField, TrimLeft;
    HoldsFits(s, i, LinesText(ls));
    if ls == [] {
      NoLines(p.msg);
      p' := p;
    } else {
      HoldsSplit(s, i, LineText(ls[0]), LinesText(ls[1..]));
      var p1 := LineParsed(p, s, i, ls[0]);
      p' := LinesParsed(p1, s, i + |LineText(ls[0])|, ls[1..]);
      assert Headers(ls)[1..] == Headers(ls[1..]);
    }
  }

  /** The reason and its line end. */
  lemma ReasonRead(p: Parser, s: string, i: nat, w: string, cr: bool) returns (p': Parser)
    requires p.st == Reason0 && ReasonText(w) && Holds(s, i, w + Eol(cr))
    ensures var j := i + |w| + (if cr then 2 else 1); j <= |s| && Run(p, s, i) == Run(p', s, j)
    ensures p'.st == LineStart && p'.msg == p.msg.(reason := w)
  {
    hide Run, Holds, Eol, OneLine;
    ReasonAt(s, i, w, cr);
    var e := i + |w|;
    var p1 := p.(st := InReason, mark := i);
    Once(p, s, i);
    forall k | i + 1 <= k < e
      ensures Step(p1, s, k) == p1
    {
    }
    Loops(p1, s, i + 1, e);
    Once(p1, s, e);
    var p2 := Step(p1, s, e);
    assert p2 == p1.(st := if cr then ResponseParser.Cr else LineStart, msg := p.msg.(reason := w));
    if cr {
      Once(p2, s, e + 1);
      CrStep(p2, s, e + 1);
      p' := p2.(st := LineStart);
    } else {
      p' := p2;
    }
  }

  lemma ReasonAt(s: string, i: nat, w: string, cr: bool)
    requires ReasonText(w) && Holds(s, i, w + Eol(cr))
    ensures var e := i + |w|;
            && i < e && e + (if cr then 2 else 1) <= |s| && Slice(s, i, e) == w && s[i] != '\n'
            && (forall k :: i < k < e ==> s[k] != '\r' && s[k] != '\n')
            && s[e] == (if cr then '\r' else '\n') && (cr ==> s[e + 1] == '\n')
  {
    HoldsSplit(s, i, w, Eol(cr));
    SliceOf(s, i, w);
    HoldsAt(s, i, w);
    HoldsAt(s, i + |w|, Eol(cr));
    forall k | i < k < i + |w|
      ensures s[k] == w[1..][k - i - 1]
    {
    }
  }

  lemma EndRead(p: Parser, s: string, i: nat, cr: bool)
    requires p.st == LineStart && !p.msg.badVersion && Holds(s, i, Eol(cr))
    ensures Run(p, s, i) == Parsed(p.msg, i + |Eol(cr)|)
  {
    HoldsAt(s, i, Eol(cr));
    if cr {
      EndParsed(p, s, i);
    } else {
      Once(p, s, i);
    }
  }

  /** Every such head is accepted to its end, whatever follows, and means what its lines say. */
  lemma HeadAccepted(x: Head, body: string)
    requires ValidHead(x)
    ensures var o := Parse(HeadText(x) + body);
            o.Parsed? && o.used == |HeadText(x)| && Means(o.msg, x.version, AtoI(x.digits), x.reason, Headers(x.lines))
  {
    hide Run, LinesText, ValidLines, Fields, Holds, AtoI, Means, ReasonText, Eol, HeadText;
    var s, d, w := HeadText(x) + body, x.digits, x.reason;
    var t := LinesText(x.lines);
    var i1 := 9 + |d| + 1;
    var i2 := i1 + |w + Eol(x.cr)|;
    HeadHolds(x, body);
    VersionParsed(s, x.version);
    var p1 := Init().(st := Code0, msg := Init().msg.(version := x.version));
    var p2 := StatusParsed(p1, s, 9, d);
    EolSize(x.cr);
    var p3 := ReasonRead(p2, s, i1, w, x.cr);
    var p4 := LinesParsed(p3, s, i2, x.lines);
    FieldsKeep(p3.msg, Headers(x.lines));
    EndRead(p4, s, i2 + |t|, x.endCr);
    ValidHeaders(x.lines);
    FieldsMean(x.version, AtoI(d), w, Headers(x.lines));
  }

  /** Where the parts of the head are. */
  lemma HeadHolds(x: Head, body: string)
    requires x.version == 0x10 || x.version == 0x11
    ensures var s, i1, t := HeadText(x) + body, 9 + |x.digits| + 1, LinesText(x.lines);
            var i2 := i1 + |x.reason + Eol(x.cr)|;
            && Holds(s, 0, VersionText(x.version) + " ") && Holds(s, 9, x.digits + " ") && Holds(s, i1, x.reason + Eol(x.cr))
            && Holds(s, i2, t) && Holds(s, i2 + |t|, Eol(x.endCr)) && |HeadText(x)| == i2 + |t| + |Eol(x.endCr)|
  {
    hide Holds, Eol, LinesText, HeadText, VersionText;
    var s, d, w, t := HeadText(x) + body, x.digits, x.reason, LinesText(x.lines);
    var i1 := 9 + |d| + 1;
    var i2 := i1 + |w + Eol(x.cr)|;
    HeadSplits(x, body);
    HoldsSelf(s);
    HoldsSplit(s, 0, VersionText(x.version) + " ", (d + " ") + ((w + Eol(x.cr)) + (t + (Eol(x.endCr) + body))));
    HoldsSplit(s, 9, d + " ", (w + Eol(x.cr)) + (t + (Eol(x.endCr) + body)));
    HoldsSplit(s, i1, w + Eol(x.cr), t + (Eol(x.endCr) + body));
    HoldsSplit(s, i2, t, Eol(x.endCr) + body);
    HoldsSplit(s, i2 + |t|, Eol(x.endCr), body);
  }

  lemma EolSize(cr: bool)
    ensures |Eol(cr)| == if cr then 2 else 1
  {
  }

  lemma HeadSplits(x: Head, body: string)
    requires x.version == 0x10 || x.version == 0x11
    ensures HeadText(x) + body
            == (VersionText(x.version) + " ")
               + ((x.digits + " ") + ((x.reason + Eol(x.cr)) + (LinesText(x.lines) + (Eol(x.endCr) + body))))
    ensures |HeadText(x)| == 9 + |x.digits| + 1 + |x.reason + Eol(x.cr)| + |LinesText(x.lines)| + |Eol(x.endCr)|
    ensures |VersionText(x.version) + " "| == 9
  {
    hide Eol, LinesText;
    VersionWords(x.version);
  }

  // ---------------------------------------------------------------- and nothing else is

  /** What is still to come in an accepted text. */
  datatype Coming = Coming(a: string, text: string, cr: bool, lines: seq<Line>, endCr: bool)

  function Tail(r: Coming): string {
    LinesText(r.lines) + Eol(r.endCr)
  }

  function LineTail(r: Coming): string {
    r.text + (Eol(r.cr) + Tail(r))
  }

  predicate Tokens(a: string) {
    forall k :: 0 <= k < |a| ==> C.IsToken(a[k])
  }

  /** The text from position i to the end of the head, as the state there allows it. */
  ghost predicate Follows(p: Parser, s: string, i: nat, t: string, r: Coming) {
    && ValidLines(r.lines)
    && match p.st
       case Code0 => Digits(r.a) && ReasonText(r.text) && t == r.a + (" " + LineTail(r))
       case Code => (r.a == "" || Digits(r.a)) && ReasonText(r.text) && t == r.a + (" " + LineTail(r))
       case Reason0 => ReasonText(r.text) && t == LineTail(r)
       case InReason => OneLine(r.text) && t == LineTail(r)
       case Cr => t == "\n" + Tail(r)
       case LineStart => t == Tail(r)
       case EndCr => t == "\n"
       case Name => Tokens(r.a) && OneLine(r.text) && t == r.a + (":" + LineTail(r))
                    && (TrimLeft(r.text) == "" ==> !HasOwnRule(Slice(s, p.fieldStart, i) + r.a))
       case Blank => OneLine(r.text) && t == LineTail(r) && (TrimLeft(r.text) == "" ==> !HasOwnRule(Slice(s, p.fieldStart, p.fieldEnd)))
       case InValue => OneLine(r.text) && t == LineTail(r)
       case Final => t == ""
       case _ => false
  }

  /** Behind the version. */
  predicate Later(p: Parser, i: nat) {
    && !p.st.Http? && !p.st.Major0? && !p.st.Major? && !p.st.Minor0? && !p.st.Minor?
    && (p.st.Name? ==> p.fieldStart <= i)
  }

  lemma {:induction false} RunBounds(p: Parser, s: string, i: nat)
    requires i <= |s| && Run(p, s, i).Parsed?
    ensures i <= Run(p, s, i).used <= |s|
    decreases |s| - i
  {
    if i < |s| && !Ended(p.st) { RunBounds(Step(p, s, i), s, i + 1); }
  }

  lemma {:induction false} Accepted(p: Parser, s: string, i: nat) returns (r: Coming)
    requires i <= |s| && Later(p, i) && Run(p, s, i).Parsed?
    ensures i <= Run(p, s, i).used <= |s| && Follows(p, s, i, s[i..Run(p, s, i).used], r)
    decreases |s| - i
  {
    hide Step, Follows, Later;
    RunBounds(p, s, i);
    if p.st.Final? {
      r := Coming("", "", false, [], false);
      AtEnd(p, s, i, r);
    } else {
      assert i < |s| && !Ended(p.st);
      var next := Step(p, s, i);
      assert Run(p, s, i) == Run(next, s, i + 1) && !next.st.Failed? && !next.st.Special?;
      StepsOn(p, s, i);
      RunBounds(next, s, i + 1);
      var r' := Accepted(next, s, i + 1);
      var n := Run(p, s, i).used;
      assert s[i..n] == [s[i]] + s[i + 1..n];
      r := InFront(p, s, i, s[i + 1..n], r');
    }
  }

  lemma AtEnd(p: Parser, s: string, i: nat, r: Coming)
    requires p.st.Final? && i <= |s| && r.lines == []
    ensures Follows(p, s, i, s[i..i], r)
  {
  }

  lemma StepsOn(p: Parser, s: string, i: nat)
    requires i < |s| && Later(p, i)
    ensures Later(Step(p, s, i), i + 1)
  {
  }

  /** One character more in front. */
  lemma InFront(p: Parser, s: string, i: nat, t: string, r': Coming) returns (r: Coming)
    requires i < |s| && Later(p, i) && !Ended(p.st) && Follows(Step(p, s, i), s, i + 1, t, r')
    requires !Step(p, s, i).st.Failed? && !Step(p, s, i).st.Special?
    ensures Follows(p, s, i, [s[i]] + t, r)
  {
    if p.st.Code0? || p.st.Code? {
      r := InCode(p, s, i, t, r');
    } else if p.st.Reason0? || p.st.InReason? {
      r := InReasonText(p, s, i, t, r');
    } else if p.st.Cr? || p.st.EndCr? {
      r := r';
    } else if p.st.LineStart? {
      r := AtLineStart(p, s, i, t, r');
    } else if p.st.Name? {
      r := InName(p, s, i, t, r');
    } else {
      r := InValueText(p, s, i, t, r');
    }
  }

  lemma Joined(c: char, a: string, rest: string)
    ensures [c] + (a + rest) == ([c] + a) + rest && "" + rest == rest
  {
  }

  lemma InCode(p: Parser, s: string, i: nat, t: string, r': Coming) returns (r: Coming)
    requires i < |s| && (p.st.Code0? || p.st.Code?) && Follows(Step(p, s, i), s, i + 1, t, r')
    ensures Follows(p, s, i, [s[i]] + t, r)
  {
    hide LineTail, ReasonText, ValidLines, AtoI;
    if s[i] == ' ' {
      r := r'.(a := "");
      SameTail(r', r);
      Joined(' ', "", LineTail(r));
    } else {
      r := r'.(a := [s[i]] + r'.a);
      SameTail(r', r);
      Joined(s[i], r'.a, " " + LineTail(r'));
    }
  }

  lemma SameTail(r': Coming, r: Coming)
    requires r == r'.(a := r.a)
    ensures LineTail(r) == LineTail(r')
  {
  }

  /** A line end and the lines behind it. */
  lemma LineEnds(c: char, t: string, r': Coming) returns (r: Coming)
    requires (c == '\n' && t == Tail(r')) || (c == '\r' && t == "\n" + Tail(r'))
    ensures r == r'.(a := r.a, text := "", cr := c == '\r') && [c] + t == LineTail(r) && Tail(r) == Tail(r')
  {
    r := r'.(text := "", cr := c == '\r');
    assert Tail(r) == Tail(r');
    hide Tail;
    assert "\r" + "\n" == "\r\n";
    assert Eol(r.cr) + Tail(r) == [c] + t;
    Joined(c, "", t);
  }

  lemma TextGrows(c: char, r': Coming) returns (r: Coming)
    ensures r == r'.(text := [c] + r'.text) && LineTail(r) == [c] + LineTail(r')
  {
    r := r'.(text := [c] + r'.text);
    assert Tail(r) == Tail(r');
    hide Tail, Eol;
    Joined(c, r'.text, Eol(r.cr) + Tail(r));
  }

  lemma InReasonText(p: Parser, s: string, i: nat, t: string, r': Coming) returns (r: Coming)
    requires i < |s| && (p.st.Reason0? || p.st.InReason?) && Follows(Step(p, s, i), s, i + 1, t, r')
    ensures Follows(p, s, i, [s[i]] + t, r)
  {
    hide LineTail, Tail, ValidLines;
    if p.st.InReason? && (s[i] == '\n' || s[i] == '\r') {
      r := LineEnds(s[i], t, r');
    } else {
      r := TextGrows(s[i], r');
      assert r.text[1..] == r'.text;
    }
  }

  lemma InValueText(p: Parser, s: string, i: nat, t: string, r': Coming) returns (r: Coming)
    requires i < |s| && (p.st.Blank? || p.st.InValue?) && Follows(Step(p, s, i), s, i + 1, t, r')
    requires !Step(p, s, i).st.Special?
    ensures Follows(p, s, i, [s[i]] + t, r)
  {
    hide LineTail, Tail, ValidLines, OnField, TrimLeft, HasOwnRule;
    TrimOne(s[i], r'.text);
    if s[i] == '\n' || s[i] == '\r' {
      r := LineEnds(s[i], t, r');
    } else {
      r := TextGrows(s[i], r');
    }
  }

  lemma TrimOne(c: char, v: string)
    ensures TrimLeft([c] + v) == if IsSpace(c) then TrimLeft(v) else [c] + v
    ensures TrimLeft("") == ""
  {
    assert ([c] + v)[1..] == v;
  }

  lemma InName(p: Parser, s: string, i: nat, t: string, r': Coming) returns (r: Coming)
    requires i < |s| && p.st.Name? && p.fieldStart <= i && Follows(Step(p, s, i), s, i + 1, t, r')
    ensures Follows(p, s, i, [s[i]] + t, r)
  {
    hide LineTail, ValidLines, TrimLeft, HasOwnRule, OneLine;
    if s[i] == ':' {
      r := r'.(a := "");
      SameTail(r', r);
      Joined(':', "", LineTail(r));
      assert Slice(s, p.fieldStart, i) + "" == Slice(s, p.fieldStart, i);
    } else {
      r := r'.(a := [s[i]] + r'.a);
      SameTail(r', r);
      Joined(s[i], r'.a, ":" + LineTail(r'));
      assert Slice(s, p.fieldStart, i + 1) + r'.a == Slice(s, p.fieldStart, i) + r.a;
    }
  }

  lemma AtLineStart(p: Parser, s: string, i: nat, t: string, r': Coming) returns (r: Coming)
    requires i < |s| && p.st.LineStart? && Follows(Step(p, s, i), s, i + 1, t, r') && !Step(p, s, i).st.Failed?
    ensures Follows(p, s, i, [s[i]] + t, r)
  {
    hide TrimLeft, HasOwnRule, OneLine;
    if s[i] == '\n' || s[i] == '\r' {
      r := Coming("", "", false, [], s[i] == '\r');
      assert "\r" + "\n" == "\r\n";
    } else {
      var line := Line([s[i]] + r'.a, r'.text, r'.cr);
      r := r'.(lines := [line] + r'.lines);
      assert Slice(s, i, i + 1) + r'.a == line.name;
      NewLine(line, r', r, s[i]);
      assert ValidLine(line);
      assert r.lines[1..] == r'.lines;
    }
  }

  lemma NewLine(line: Line, r': Coming, r: Coming, c: char)
    requires line == Line([c] + r'.a, r'.text, r'.cr) && r == r'.(lines := [line] + r'.lines)
    ensures [c] + (r'.a + (":" + LineTail(r'))) == Tail(r)
  {
    assert r.lines[1..] == r'.lines;
    assert LinesText(r.lines) == LineText(line) + LinesText(r'.lines);
    hide LinesText, Eol;
    assert LineText(line) == ([c] + r'.a) + (":" + (r'.text + Eol(r'.cr)));
    hide LineText;
    Regrouped([c] + r'.a, r'.text, Eol(r'.cr), LinesText(r'.lines), Eol(r'.endCr));
    Joined(c, r'.a, ":" + LineTail(r'));
  }

  lemma Regrouped(n: string, v: string, e: string, ls: string, z: string)
    ensures ((n + (":" + (v + e))) + ls) + z == n + (":" + (v + (e + (ls + z))))
  {
  }

  // ---------------------------------------------------------------- the version in front

  lemma {:induction false} BadSticks(p: Parser, s: string, i: nat)
    requires i <= |s| && p.msg.badVersion
    ensures !Run(p, s, i).Parsed?
    decreases |s| - i
  {
    if i < |s| && !Ended(p.st) {
      BadStays(p, s, i);
      BadSticks(Step(p, s, i), s, i + 1);
    }
  }

  lemma BadStays(p: Parser, s: string, i: nat)
    requires i < |s| && p.msg.badVersion
    ensures Step(p, s, i).msg.badVersion
  {
  }

  /** Up to the blank behind the version, which starts at position 0. */
  predicate InVersion(p: Parser, i: nat) {
    && p.msg == Init().msg
    && match p.st
       case Http(k) => k < 5 && if k == 0 then i == 0 else p.mark == 0
       case Major0 => p.mark == 0
       case Major => p.mark == 0
       case Minor0 => p.mark == 0
       case Minor => p.mark == 0
       case _ => false
  }

  lemma VersionStep(p: Parser, s: string, i: nat)
    requires i < |s| && InVersion(p, i)
    ensures var q := Step(p, s, i);
            q.st.Failed? || InVersion(q, i + 1)
            || (s[i] == ' ' && q.st == Code0 && q.msg == OnVersion(Init().msg, Slice(s, 0, i)))
  {
    hide OnVersion, Slice;
  }

  lemma {:induction false} VersionEnds(p: Parser, s: string, i: nat) returns (q: Parser, j: nat)
    requires i <= |s| && InVersion(p, i) && Run(p, s, i).Parsed?
    ensures j < |s| && s[j] == ' ' && q.st == Code0 && q.msg == OnVersion(Init().msg, Slice(s, 0, j))
    ensures Run(p, s, i) == Run(q, s, j + 1)
    decreases |s| - i
  {
    assert i < |s| && !Ended(p.st);
    VersionStep(p, s, i);
    hide Step, OnVersion, Slice;
    q := Step(p, s, i);
    assert Run(p, s, i) == Run(q, s, i + 1);
    if InVersion(q, i + 1) {
      q, j := VersionEnds(q, s, i + 1);
    } else {
      j := i;
    }
  }

  lemma VersionIs(s: string, j: nat)
    requires j <= |s| && !OnVersion(Init().msg, Slice(s, 0, j)).badVersion
    ensures j == 8 && (s[..8] == "HTTP/1.1" || s[..8] == "HTTP/1.0")
  {
    assert Slice(s, 0, j) == s[..j];
    assert |"HTTP/1.1"| == 8 && |"HTTP/1.0"| == 8;
  }

  /** What the parser accepts is a valid head with anything behind it; it stops where the head ends, and the
      message is what the head means. */
  lemma AcceptedIsHead(s: string) returns (x: Head)
    requires Parse(s).Parsed?
    ensures ValidHead(x) && Parse(s).used <= |s| && s[..Parse(s).used] == HeadText(x)
    ensures Means(Parse(s).msg, x.version, AtoI(x.digits), x.reason, Headers(x.lines))
  {
    hide Run, Means, AtoI, Slice, Digits, ReasonText, LinesText;
    var q, j := VersionEnds(Init(), s, 0);
    if q.msg.badVersion { BadSticks(q, s, j + 1); }
    VersionIs(s, j);
    var r := Accepted(q, s, 9);
    var n := Parse(s).used;
    x := Head(if s[..8] == "HTTP/1.1" then 0x11 else 0x10, r.a, r.text, r.cr, r.lines, r.endCr);
    HeadJoins(s, n, x, r);
    HeadAccepted(x, s[n..]);
    assert s == s[..n] + s[n..];
  }

  lemma HeadJoins(s: string, n: nat, x: Head, r: Coming)
    requires 9 <= n <= |s| && s[8] == ' ' && (s[..8] == "HTTP/1.1" || s[..8] == "HTTP/1.0")
    requires x == Head(if s[..8] == "HTTP/1.1" then 0x11 else 0x10, r.a, r.text, r.cr, r.lines, r.endCr)
    requires s[9..n] == r.a + (" " + LineTail(r))
    ensures s[..n] == HeadText(x)
  {
    assert s[..n] == s[..8] + [s[8]] + s[9..n];
    assert "HTTP/1.1" + " " == "HTTP/1.1 " && "HTTP/1.0" + " " == "HTTP/1.0 ";
    hide Eol, LinesText;
    HeadRegroups(r.a, r.text, Eol(r.cr), LinesText(r.lines) + Eol(r.endCr));
  }

  lemma HeadRegroups(d: string, w: string, e: string, z: string)
    ensures d + (" " + (w + (e + z))) == (d + " ") + ((w + e) + z)
  {
  }

  /** The texts that are accepted. */
  lemma AcceptedIff(s: string)
    ensures Parse(s).Parsed? <==> exists x, body :: ValidHead(x) && s == HeadText(x) + body
  {
    hide Run, ValidHead, HeadText, Means, AtoI;
    if Parse(s).Parsed? {
      var x := AcceptedIsHead(s);
      var n := Parse(s).used;
      assert s == HeadText(x) + s[n..];
    }
    forall x, body | ValidHead(x) && s == HeadText(x) + body
      ensures Parse(s).Parsed?
    {
      HeadAccepted(x, body);
    }
  }

  // ---------------------------------------------------------------- parts of a head

  lemma SliceLonger(s: string, more: string, i: nat, j: nat)
    requires j <= |s|
    ensures Slice(s + more, i, j) == Slice(s, i, j)
  {
  }

  lemma StepLonger(p: Parser, s: string, more: string, i: nat)
    requires i < |s| && p.fieldEnd <= i
    ensures Step(p, s + more, i) == Step(p, s, i) && Step(p, s, i).fieldEnd <= i + 1
  {
    hide Slice, OnField, OnVersion, HasOwnRule, AtoI;
    assert (s + more)[i] == s[i];
    SliceLonger(s, more, p.mark, i);
    SliceLonger(s, more, i, i);
    SliceLonger(s, more, p.fieldStart, p.fieldEnd);
  }

  lemma {:induction false} RunLonger(p: Parser, s: string, more: string, i: nat)
    requires i <= |s| && p.fieldEnd <= i
    ensures Run(p, s, i).Parsed? || Run(p, s, i).Unmodelled? ==> Run(p, s + more, i) == Run(p, s, i)
    ensures Run(p, s, i) == Error ==> !Run(p, s + more, i).Parsed?
    decreases |s| - i
  {
    hide Step;
    if i < |s| && !Ended(p.st) {
      StepLonger(p, s, more, i);
      RunLonger(Step(p, s, i), s, more, i + 1);
    } else if !Ended(p.st) && p.msg.badVersion {
      BadSticks(p, s + more, i);
    }
  }

  /** A head is not taken for one before it is whole, and an error is one whatever follows. */
  lemma Prefixes(s: string, more: string)
    ensures Parse(s).Parsed? ==> Parse(s + more) == Parse(s)
    ensures Parse(s) == Error ==> !Parse(s + more).Parsed?
    ensures Parse(s + more).Parsed? && Parse(s + more).used > |s| ==> Parse(s) == More
  {
    hide Run;
    RunLonger(Init(), s, more, 0);
    if Parse(s).Parsed? { RunBounds(Init(), s, 0); }
  }
}
