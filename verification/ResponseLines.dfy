/** What a response means, line by line: the parser of src/http/http_response_parser.rl on any response text,
    and what HttpResponse::dump (src/http/http.cpp) writes, in characters. */
module ResponseLines {
  import C = ChunkedBody
  import opened HttpResponse
  import opened ResponseParser

  // ---------------------------------------------------------------- the value of a line

  predicate Blank(c: char) {
    c == ' ' || c == '\t' || c as int == 11 || c as int == 12
  }

  /** `t` is `v` without the white space in front. */
  predicate Behind(v: string, t: string) {
    && |t| <= |v| && v[|v| - |t|..] == t
    && (forall i :: 0 <= i < |v| - |t| ==> Blank(v[i]))
    && (t != "" ==> !Blank(t[0]))
  }

  lemma TrimIs(v: string, t: string)
    ensures Behind(v, t) <==> t == TrimLeft(v)
  {
    hide Blanks;
    var n := Blanks(v);
    assert |v[n..]| == |v| - n;
    if Behind(v, t) {
      var m := |v| - |t|;
      assert t != "" ==> t[0] == v[m];
      assert m == n;
    }
  }

  /** The line has that name and that value, up to the case of letters. */
  predicate Says(h: Header, name: string, value: string) {
    && SameText(h.name, name) && |value| <= |h.value|
    && var t := h.value[|h.value| - |value|..]; Behind(h.value, t) && SameText(t, value)
  }

  lemma SaysIs(h: Header, name: string, value: string)
    ensures Says(h, name, value) <==> Lower(h.name) == Lower(name) && Lower(TrimLeft(h.value)) == Lower(value)
  {
    hide TrimLeft, Lower, Behind, SameText;
    LowerIff(h.name, name);
    var t := TrimLeft(h.value);
    TrimIs(h.value, t);
    LowerIff(t, value);
    Suffix(h.value, t);
    if |value| <= |h.value| {
      var u := h.value[|h.value| - |value|..];
      TrimIs(h.value, u);
      LowerIff(u, value);
      SameLength(t, value);
    } else {
      SameLength(t, value);
    }
  }

  lemma Suffix(v: string, t: string)
    ensures Behind(v, t) ==> |t| <= |v| && v[|v| - |t|..] == t
  {
  }

  lemma SameLength(a: string, b: string)
    ensures SameText(a, b) ==> |a| == |b|
  {
  }

  // ---------------------------------------------------------------- a block of lines

  /** The response counts as chunked exactly if one of its lines says so. */
  lemma {:induction false} FieldsChunked(m: Message, hs: seq<Header>)
    requires AllValid(hs)
    ensures Fields(m, hs).chunked
            <==> m.chunked || exists k :: 0 <= k < |hs| && Says(hs[k], "transfer-encoding", "chunked")
    decreases hs
  {
    hide *;
    if hs == [] {
      NoLines(m);
    } else {
      Unfold(hs, m);
      ValidStep(hs);
      SaysIs(hs[0], "transfer-encoding", "chunked");
      OneChunked(m, hs[0]);
      var m' := OnField(m, hs[0].name, TrimLeft(hs[0].value));
      FieldsChunked(m', hs[1..]);
      forall k | 0 <= k < |hs|
        ensures hs[k] == if k == 0 then hs[0] else hs[1..][k - 1]
      {
      }
      if exists k :: 0 <= k < |hs[1..]| && Says(hs[1..][k], "transfer-encoding", "chunked") {
        var k :| 0 <= k < |hs[1..]| && Says(hs[1..][k], "transfer-encoding", "chunked");
        assert Says(hs[k + 1], "transfer-encoding", "chunked");
      }
    }
  }

  lemma OneChunked(m: Message, h: Header)
    requires h.name != ""
    ensures OnField(m, h.name, TrimLeft(h.value)).chunked
            <==> m.chunked || (Lower(h.name) == Lower("transfer-encoding") && Lower(TrimLeft(h.value)) == Lower("chunked"))
  {
    hide TrimLeft;
    assert Lower("transfer-encoding") == "transfer-encoding" && Lower("chunked") == "chunked";
  }

  /** The value the last line of that name gives, or else `was`. */
  function LastValue(hs: seq<Header>, name: string, was: string): string
    decreases hs
  {
    if hs == [] then was
    else LastValue(hs[1..], name, if Lower(hs[0].name) == Lower(name) then TrimLeft(hs[0].value) else was)
  }

  lemma {:induction false} FieldsLookup(m: Message, hs: seq<Header>, name: string, def: string)
    requires AllValid(hs) && Sorted(m.headers)
    ensures GetHeader(Fields(m, hs).headers, name, def) == LastValue(hs, name, GetHeader(m.headers, name, def))
    decreases hs
  {
    hide GetHeader, SetHeader, Sorted, Lower, TrimLeft, AllValid;
    if hs == [] {
      NoLines(m);
    } else {
      ValidStep(hs);
      FieldsStep(m, hs);
      var m' := OnField(m, hs[0].name, TrimLeft(hs[0].value));
      hide OnField, Fields;
      GetAfterSet(m.headers, hs[0].name, TrimLeft(hs[0].value), name, def);
      SetKeepsSorted(m.headers, hs[0].name, TrimLeft(hs[0].value));
      FieldsLookup(m', hs[1..], name, def);
    }
  }

  /** The last line of that name gives the value, or none has it. */
  lemma {:induction false} LastValueIs(hs: seq<Header>, name: string, was: string)
    ensures (forall k :: 0 <= k < |hs| ==> !SameText(hs[k].name, name)) ==> LastValue(hs, name, was) == was
    ensures forall k :: 0 <= k < |hs| && SameText(hs[k].name, name) && (forall j :: k < j < |hs| ==> !SameText(hs[j].name, name)) ==>
                          Behind(hs[k].value, LastValue(hs, name, was))
    decreases hs
  {
    hide SameText, Behind, Lower, TrimLeft;
    if hs != [] {
      var own := SameText(hs[0].name, name);
      var next := if own then TrimLeft(hs[0].value) else was;
      LowerIff(hs[0].name, name);
      TrimIs(hs[0].value, TrimLeft(hs[0].value));
      LastValueIs(hs[1..], name, next);
      var v := LastValue(hs[1..], name, next);
      assert LastValue(hs, name, was) == v;
      hide LastValue;
      forall k | 0 < k < |hs|
        ensures hs[k] == hs[1..][k - 1]
      {
      }
      if forall k :: 0 <= k < |hs[1..]| ==> !SameText(hs[1..][k].name, name) {
        assert v == next;
      }
      forall k | 0 <= k < |hs| && SameText(hs[k].name, name) && (forall j :: k < j < |hs| ==> !SameText(hs[j].name, name))
        ensures Behind(hs[k].value, v)
      {
        forall i | k <= i < |hs[1..]|
          ensures !SameText(hs[1..][i].name, name)
        {
          assert hs[1..][i] == hs[i + 1];
        }
        if k > 0 { assert SameText(hs[1..][k - 1].name, name); }
      }
    }
  }

  // ---------------------------------------------------------------- the whole response

  /** What is parsed of a response with these lines: the number and the reason, chunked exactly if a line says
      so, and under each name what its last line says, less the white space in front. */
  ghost predicate Means(m: Message, version: nat, status: int, reason: string, hs: seq<Header>) {
    && m.version == version && m.status == status && m.reason == reason
    && (m.chunked <==> exists k :: 0 <= k < |hs| && Says(hs[k], "transfer-encoding", "chunked"))
    && (forall name, def :: (forall k :: 0 <= k < |hs| ==> !SameText(hs[k].name, name)) ==> GetHeader(m.headers, name, def) == def)
    && (forall name, def, k :: 0 <= k < |hs| && SameText(hs[k].name, name) && (forall j :: k < j < |hs| ==> !SameText(hs[j].name, name)) ==>
                                 Behind(hs[k].value, GetHeader(m.headers, name, def)))
  }

  lemma FieldsMean(version: nat, status: int, reason: string, hs: seq<Header>)
    requires AllValid(hs)
    ensures Means(Fields(Message(version, status, reason, [], false, false), hs), version, status, reason, hs)
  {
    hide GetHeader, Fields, Says, SameText, Behind, AllValid, LastValue;
    var m0 := Message(version, status, reason, [], false, false);
    FieldsKeep(m0, hs);
    FieldsChunked(m0, hs);
    forall name, def
      ensures GetHeader(Fields(m0, hs).headers, name, def) == LastValue(hs, name, def)
    {
      FieldsLookup(m0, hs, name, def);
      NoHeaders(name, def);
    }
    forall name, def
      ensures (forall k :: 0 <= k < |hs| ==> !SameText(hs[k].name, name)) ==> LastValue(hs, name, def) == def
      ensures forall k :: 0 <= k < |hs| && SameText(hs[k].name, name) && (forall j :: k < j < |hs| ==> !SameText(hs[j].name, name)) ==>
                            Behind(hs[k].value, LastValue(hs, name, def))
    {
      LastValueIs(hs, name, def);
    }
  }

  lemma NoHeaders(name: string, def: string)
    ensures GetHeader([], name, def) == def
  {
  }

  // ---------------------------------------------------------------- what dump writes

  lemma {:induction false} LastValueJoin(a: seq<Header>, b: seq<Header>, name: string, was: string)
    ensures LastValue(a + b, name, was) == LastValue(b, name, LastValue(a, name, was))
    decreases a
  {
    hide TrimLeft, Lower;
    if a == [] {
      assert a + b == b;
    } else {
      assert (a + b)[1..] == a[1..] + b;
      LastValueJoin(a[1..], b, name, if Lower(a[0].name) == Lower(name) then TrimLeft(a[0].value) else was);
    }
  }

  /** The lines dump writes of its own. */
  lemma OwnValues(r: Response, name: string, was: string)
    ensures LastValue(Own(r), name, was)
            == if SameText(name, "connection") && !r.websocket then (if r.close then "close" else "keep-alive")
               else if SameText(name, "content-length") && r.body != "" then Decimal(|r.body|)
               else was
  {
    hide TrimLeft, Lower, Decimal, SameText, AllValid;
    OwnValid(r);
    LowerIff(name, "connection");
    LowerIff(name, "content-length");
    LowerOwn();
    var c := if r.websocket then [] else [Header("connection", if r.close then "close" else "keep-alive")];
    var l := if r.body == "" then [] else [Header("content-length", Decimal(|r.body|))];
    assert Own(r) == c + l;
    LastValueJoin(c, l, name, was);
    assert c != [] ==> c[0] in Own(r) && c[1..] == [];
    assert l != [] ==> l[0] in Own(r) && l[1..] == [];
    LastOfNone(name, LastValue(c, name, was));
    LastOfNone(name, was);
    LastOfNone(name, if r.close then "close" else "keep-alive");
    LastOfNone(name, Decimal(|r.body|));
  }

  lemma LastOfNone(name: string, was: string)
    ensures LastValue([], name, was) == was
  {
  }

  lemma LowerOwn()
    ensures Lower("connection") == "connection" && Lower("content-length") == "content-length" && "connection" != "content-length"
  {
    assert |"connection"| != |"content-length"|;
  }

  /** What is printed of the map: all of it, without the connection line if there is no websocket. */
  lemma PrintedValues(hs: seq<Header>, websocket: bool, name: string, def: string)
    requires Sorted(hs) && (websocket || !SameText(name, "connection"))
    ensures var v := LastValue(Printed(hs, websocket), name, def);
            && ((forall k :: 0 <= k < |hs| ==> !SameText(hs[k].name, name)) ==> v == def)
            && forall k :: 0 <= k < |hs| && SameText(hs[k].name, name) ==> Behind(hs[k].value, v)
  {
    hide SameText, Behind, Lower, Printed, LastValue, Sorted;
    var ps := Printed(hs, websocket);
    PrintedSorted(hs, websocket);
    LastValueIs(ps, name, def);
    SortedDiffer(ps);
    LowerOwn();
    forall h: Header
      ensures SameText(h.name, name) <==> Lower(h.name) == Lower(name)
    {
      LowerIff(h.name, name);
    }
    LowerIff(name, "connection");
    forall k | 0 <= k < |hs| && SameText(hs[k].name, name)
      ensures Behind(hs[k].value, LastValue(ps, name, def))
    {
      assert hs[k] in hs && hs[k] in ps;
      var i :| 0 <= i < |ps| && ps[i] == hs[k];
      assert SameText(ps[i].name, name);
    }
    if forall k :: 0 <= k < |hs| ==> !SameText(hs[k].name, name) {
      forall i | 0 <= i < |ps|
        ensures !SameText(ps[i].name, name)
      {
        assert ps[i] in ps && ps[i] in hs;
      }
    }
  }

  lemma SortedDiffer(hs: seq<Header>)
    requires Sorted(hs)
    ensures forall i, j :: 0 <= i < j < |hs| ==> Lower(hs[i].name) != Lower(hs[j].name)
  {
    forall i, j | 0 <= i < j < |hs|
      ensures Lower(hs[i].name) != Lower(hs[j].name)
    {
      LessTotal(Lower(hs[i].name), Lower(hs[j].name));
      assert CaseLess(hs[i].name, hs[j].name);
    }
  }

  /** Over the whole trip, for every response and every name: the connection line as dump writes it, a
      content-length equal to the body size if there is a body, and any other header as it was set, less the
      white space in front, or none if none was set.  So a value comes back exactly if there is none. */
  lemma LookupsComeBack(r: Response, phrase: nat -> string, name: string, def: string)
    requires ValidResponse(r, phrase) && Sorted(r.headers)
    ensures var o := Parse(Dump(r, phrase));
            o.Parsed? &&
            var v := GetHeader(o.msg.headers, name, def);
            if SameText(name, "connection") && !r.websocket then v == if r.close then "close" else "keep-alive"
            else if SameText(name, "content-length") && r.body != "" then v == Decimal(|r.body|)
            else
              && ((forall k :: 0 <= k < |r.headers| ==> !SameText(r.headers[k].name, name)) ==> v == def)
              && forall k :: 0 <= k < |r.headers| && SameText(r.headers[k].name, name) ==>
                               Behind(r.headers[k].value, v)
                               && (v == r.headers[k].value <==> r.headers[k].value == "" || !Blank(r.headers[k].value[0]))
  {
    hide *;
    var m := Message(r.version, r.status, Reason(r, phrase), [], false, false);
    var hs := Printed(r.headers, r.websocket);
    PrintThenParse(r, phrase);
    OwnValid(r);
    HeadersValid(r, phrase);
    PrintedValid(r.headers, r.websocket, Own(r));
    NothingSorted();
    FieldsLookup(m, hs + Own(r), name, def);
    NoHeaders(name, def);
    LastValueJoin(hs, Own(r), name, def);
    OwnValues(r, name, LastValue(hs, name, def));
    if !(SameText(name, "connection") && !r.websocket) { PrintedValues(r.headers, r.websocket, name, def); }
    forall v: string, t: string
      ensures Behind(v, t) ==> (t == v <==> v == "" || !Blank(v[0]))
    {
      WholeIff(v, t);
    }
  }

  lemma NothingSorted()
    ensures Sorted([])
  {
  }

  lemma WholeIff(v: string, t: string)
    ensures Behind(v, t) ==> (t == v <==> v == "" || !Blank(v[0]))
  {
  }

  /** The rest of the head comes back too: version, status, and the reason set or else the standard one; the
      response counts as chunked exactly if a header printed says so. */
  lemma HeadComesBack(r: Response, phrase: nat -> string)
    requires ValidResponse(r, phrase)
    ensures var o := Parse(Dump(r, phrase));
            && o.Parsed? && o.msg.version == r.version && o.msg.status == r.status
            && o.msg.reason == (if r.reason != "" then r.reason else phrase(r.status))
            && (o.msg.chunked <==> exists k :: 0 <= k < |r.headers| && Says(r.headers[k], "transfer-encoding", "chunked"))
  {
    hide *;
    PrintThenParse(r, phrase);
    var m := Message(r.version, r.status, Reason(r, phrase), [], false, false);
    var hs := Printed(r.headers, r.websocket) + Own(r);
    OwnValid(r);
    HeadersValid(r, phrase);
    PrintedValid(r.headers, r.websocket, Own(r));
    FieldsKeep(m, hs);
    FieldsChunked(m, hs);
    ReasonIs(r, phrase);
    forall h | h in Own(r)
      ensures !Says(h, "transfer-encoding", "chunked")
    {
      OwnSaysNothing(r, h);
    }
    ChunkedLines(r.headers, r.websocket, Own(r));
  }

  lemma ReasonIs(r: Response, phrase: nat -> string)
    ensures Reason(r, phrase) == if r.reason != "" then r.reason else phrase(r.status)
  {
  }

  lemma OwnSaysNothing(r: Response, h: Header)
    requires h in Own(r)
    ensures !Says(h, "transfer-encoding", "chunked")
  {
    hide Behind, Decimal;
    assert h.name == "connection" || h.name == "content-length";
    assert |"connection"| != |"transfer-encoding"| && |"content-length"| != |"transfer-encoding"|;
  }

  lemma {:induction false} PrintedIn(hs: seq<Header>, websocket: bool, h: Header)
    ensures h in Printed(hs, websocket) <==> h in hs && (websocket || !IsConnection(h.name))
  {
    hide IsConnection;
    if hs != [] {
      PrintedIn(hs[1..], websocket, h);
      assert h in hs <==> h == hs[0] || h in hs[1..];
    }
  }

  /** A transfer-encoding line is no connection line. */
  lemma ChunkedLines(hs: seq<Header>, websocket: bool, own: seq<Header>)
    requires forall h :: h in own ==> !Says(h, "transfer-encoding", "chunked")
    ensures (exists k :: 0 <= k < |Printed(hs, websocket) + own| && Says((Printed(hs, websocket) + own)[k], "transfer-encoding", "chunked"))
            <==> exists k :: 0 <= k < |hs| && Says(hs[k], "transfer-encoding", "chunked")
  {
    hide Printed, Behind, Lower;
    var ps := Printed(hs, websocket);
    forall h | Says(h, "transfer-encoding", "chunked")
      ensures h in ps + own <==> h in hs
    {
      PrintedIn(hs, websocket, h);
      assert |"connection"| != |"transfer-encoding"|;
    }
    SomeLine(ps + own, hs, "transfer-encoding", "chunked");
    SomeLine(hs, ps + own, "transfer-encoding", "chunked");
  }

  lemma SomeLine(a: seq<Header>, b: seq<Header>, name: string, value: string)
    requires forall h :: Says(h, name, value) && h in a ==> h in b
    ensures (exists k :: 0 <= k < |a| && Says(a[k], name, value)) ==> exists k :: 0 <= k < |b| && Says(b[k], name, value)
  {
    hide Says;
    if k :| 0 <= k < |a| && Says(a[k], name, value) {
      assert a[k] in a;
      var i :| 0 <= i < |b| && b[i] == a[k];
    }
  }

  // ---------------------------------------------------------------- in characters

  /** The last digit of a number, and those before it. */
  lemma DecimalDigits(n: nat)
    ensures var s := Decimal(n);
            && s[|s| - 1] == "0123456789"[n % 10] && s[..|s| - 1] == if n < 10 then "" else Decimal(n / 10)
  {
    DigitIs(n % 10);
    var s := Decimal(n);
    assert s == (if n < 10 then "" else Decimal(n / 10)) + [DigitChar(n % 10)];
  }

  lemma DigitIs(d: nat)
    requires d < 10
    ensures DigitChar(d) == "0123456789"[d]
  {
  }

  /** One line after the other: the name, a colon and a blank, the value, the line end. */
  lemma LinesAre(name: string, value: string, hs: seq<Header>)
    ensures HeaderLines([]) == ""
    ensures HeaderLines([Header(name, value)] + hs) == name + ": " + value + "\r\n" + HeaderLines(hs)
  {
    assert ([Header(name, value)] + hs)[1..] == hs;
  }

  /** The whole text of a response. */
  lemma DumpIs(r: Response, phrase: nat -> string)
    requires r.version == 0x10 || r.version == 0x11
    ensures Dump(r, phrase)
            == (if r.version == 0x11 then "HTTP/1.1 " else "HTTP/1.0 ")
               + ((Decimal(r.status) + " ")
                  + (((if r.reason != "" then r.reason else phrase(r.status)) + "\r\n")
                     + ((HeaderLines(Printed(r.headers, r.websocket))
                         + ((if r.websocket then "" else if r.close then "connection: close\r\n" else "connection: keep-alive\r\n")
                            + if r.body == "" then "" else "content-length: " + Decimal(|r.body|) + "\r\n"))
                        + ("\r\n" + r.body))))
  {
    hide Decimal, HeaderLines, HeaderLine, Printed, Dump, Own, VersionText, Reason;
    DumpShape(r, phrase);
    LinesJoin(Printed(r.headers, r.websocket), Own(r));
    OwnLines(r);
    ReasonIs(r, phrase);
    VersionWords(r.version);
    LineIs("connection", "close");
    LineIs("connection", "keep-alive");
    LineIs("content-length", Decimal(|r.body|));
  }

  lemma LineIs(name: string, value: string)
    ensures HeaderLine(Header(name, value)) == name + ": " + value + "\r\n"
    ensures name == "connection" && value == "close" ==> name + ": " + value + "\r\n" == "connection: close\r\n"
    ensures name == "connection" && value == "keep-alive" ==> name + ": " + value + "\r\n" == "connection: keep-alive\r\n"
    ensures name == "content-length" ==> name + ": " + value + "\r\n" == "content-length: " + value + "\r\n"
  {
    assert "connection" + ": " + "close" + "\r\n" == "connection: close\r\n";
    assert "connection" + ": " + "keep-alive" + "\r\n" == "connection: keep-alive\r\n";
    assert "content-length" + ": " == "content-length: ";
  }

  lemma VersionWords(version: nat)
    requires version == 0x10 || version == 0x11
    ensures VersionText(version) + " " == if version == 0x11 then "HTTP/1.1 " else "HTTP/1.0 "
  {
  }
}
