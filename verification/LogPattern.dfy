/** The log pattern parser (LogFormatter::init in src/log.cpp). */
module LogPattern {
  import opened Wrappers

  /** An entry of `vec`: literal text, or an item with its braces' content. */
  datatype Piece = Text(text: string) | Item(name: string, fmt: string)

  datatype Parsed = Parsed(vec: seq<Piece>, error: bool)

  const PATTERN_ERROR: string := "<<pattern_error>>"

  predicate IsAlpha(c: char) {
    'a' <= c <= 'z' || 'A' <= c <= 'Z'
  }

  const SMALL_LETTERS: string := "abcdefghijklmnopqrstuvwxyz"
  const LARGE_LETTERS: string := "ABCDEFGHIJKLMNOPQRSTUVWXYZ"

  /** The characters of a name. */
  lemma AlphaIs(c: char)
    ensures IsAlpha(c) <==> exists k :: 0 <= k < 26 && (SMALL_LETTERS[k] == c || LARGE_LETTERS[k] == c)
  {
    forall k | 0 <= k < 26
      ensures SMALL_LETTERS[k] as int == 97 + k && LARGE_LETTERS[k] as int == 65 + k
    {
    }
    if 'a' <= c <= 'z' { assert SMALL_LETTERS[c as int - 97] == c; }
    if 'A' <= c <= 'Z' { assert LARGE_LETTERS[c as int - 65] == c; }
  }

  /** Unclosed: the end of the pattern inside braces. */
  datatype Scan = Found(name: string, fmt: string, next: nat) | Unclosed

  /** From inside the braces: up to the closing one. */
  function ScanFmt(p: string, name: string, begin: nat, n: nat): (s: Scan)
    requires begin <= n <= |p|
    ensures s.Found? ==> n < s.next <= |p| && s.name == name
    decreases |p| - n
  {
    if n == |p| then Unclosed
    else if p[n] == '}' then Found(name, p[begin..n], n + 1)
    else ScanFmt(p, name, begin, n + 1)
  }

  /** From behind the percent sign: letters, and stray closing braces, belong to the name. */
  function ScanName(p: string, i: nat, n: nat): (s: Scan)
    requires i <= n <= |p|
    ensures s.Found? ==> n <= s.next <= |p|
    decreases |p| - n
  {
    if n == |p| then Found(p[i..], "", n)
    else if p[n] == '{' then ScanFmt(p, p[i..n], n + 1, n + 1)
    else if IsAlpha(p[n]) || p[n] == '}' then ScanName(p, i, n + 1)
    else Found(p[i..n], "", n)
  }

  function Flush(vec: seq<Piece>, nstr: string): seq<Piece> {
    if nstr == "" then vec else vec + [Text(nstr)]
  }

  /** The main loop from position i. */
  function Parse(p: string, i: nat, nstr: string, vec: seq<Piece>, error: bool): Parsed
    requires i <= |p|
    decreases |p| - i
  {
    if i == |p| then Parsed(Flush(vec, nstr), error)
    else if p[i] != '%' then Parse(p, i + 1, nstr + [p[i]], vec, error)
    else if i + 1 < |p| && p[i + 1] == '%' then Parse(p, i + 2, nstr + "%", vec, error)
    else match ScanName(p, i + 1, i + 1)
      case Found(name, fmt, next) => Parse(p, next, "", Flush(vec, nstr) + [Item(name, fmt)], error)
      case Unclosed => Parse(p, i + 1, nstr, vec + [Text(PATTERN_ERROR)], true)
  }

  // ---------------------------------------------------------------- the loops

  /** The inner loop, with its three variables of state. */
  method ScanItem(p: string, i: nat) returns (n: nat, closed: bool, str: string, fmt: string)
    requires i < |p|
    ensures closed <==> ScanName(p, i + 1, i + 1).Found?
    ensures closed ==> n <= |p| && ScanName(p, i + 1, i + 1) == Found(str, fmt, n)
  {
    n, str, fmt := i + 1, "", "";
    var fmtStatus, fmtBegin := 0, 0;
    var whole := ScanName(p, i + 1, i + 1);
    if n == |p| {
      assert p[i + 1..] == "";
    }
    while n < |p|
      invariant i + 1 <= n <= |p| && (fmtStatus == 0 || fmtStatus == 1)
      invariant fmtStatus == 0 ==> fmt == "" && whole == ScanName(p, i + 1, n) && str == if n == |p| then p[i + 1..] else ""
      invariant fmtStatus == 1 ==> i + 1 <= fmtBegin
      invariant fmtStatus == 1 ==> fmtBegin < n && fmt == "" && whole == ScanFmt(p, p[i + 1..fmtBegin], fmtBegin + 1, n)
      invariant fmtStatus == 1 && n < |p| ==> str == p[i + 1..fmtBegin]
      decreases |p| - n
    {
      if fmtStatus == 0 && !IsAlpha(p[n]) && p[n] != '{' && p[n] != '}' {
        str := p[i + 1..n];
        break;
      }
      if fmtStatus == 0 {
        if p[n] == '{' {
          str := p[i + 1..n];
          fmtStatus, fmtBegin := 1, n;
          n := n + 1;
          continue;
        }
      } else if p[n] == '}' {
        fmt := p[fmtBegin + 1..n];
        fmtStatus := 0;
        n := n + 1;
        break;
      }
      n := n + 1;
      if n == |p| {
        if str == "" {
          str := p[i + 1..];
        }
      }
    }
    closed := fmtStatus == 0;
  }

  /** The outer loop over the pattern. */
  method ParsePattern(pattern: string) returns (vec: seq<Piece>, error: bool)
    ensures Parsed(vec, error) == Parse(pattern, 0, "", [], false)
  {
    hide ScanName;
    vec, error := [], false;
    var nstr, i := "", 0;
    while i < |pattern|
      invariant i <= |pattern| && Parse(pattern, i, nstr, vec, error) == Parse(pattern, 0, "", [], false)
    {
      if pattern[i] != '%' {
        nstr := nstr + [pattern[i]];
        i := i + 1;
        continue;
      }
      if i + 1 < |pattern| && pattern[i + 1] == '%' {
        nstr := nstr + "%";
        i := i + 2;
        continue;
      }
      var n, closed, str, fmt := ScanItem(pattern, i);
      if closed {
        if nstr != "" {
          vec := vec + [Text(nstr)];
          nstr := "";
        }
        vec := vec + [Item(str, fmt)];
        i := n;
      } else {
        error := true;
        vec := vec + [Text(PATTERN_ERROR)];
        i := i + 1;
      }
    }
    if nstr != "" {
      vec := vec + [Text(nstr)];
    }
  }

  // ---------------------------------------------------------------- the items

  const NAMES: set<string> := {"m", "p", "r", "c", "t", "n", "d", "f", "l", "T", "F", "N"}

  datatype FormatItem = StringItem(text: string) | KnownItem(name: string, fmt: string)

  function ItemOf(piece: Piece): FormatItem {
    match piece
    case Text(text) => StringItem(text)
    case Item(name, fmt) => if name in NAMES then KnownItem(name, fmt) else StringItem("<<error_format %" + name + ">>")
  }

  predicate Unknown(piece: Piece) {
    piece.Item? && piece.name !in NAMES
  }

  /** init: the items in order, and m_error set exactly when a brace was left open or a name is unknown. */
  method Init(pattern: string) returns (items: seq<FormatItem>, error: bool)
    ensures var r := Parse(pattern, 0, "", [], false);
            && |items| == |r.vec| && (forall k :: 0 <= k < |items| ==> items[k] == ItemOf(r.vec[k]))
            && (error <==> r.error || exists k :: 0 <= k < |r.vec| && Unknown(r.vec[k]))
  {
    var vec;
    vec, error := ParsePattern(pattern);
    ghost var open := error;
    items := [];
    var k := 0;
    while k < |vec|
      invariant k == |items| <= |vec| && forall j :: 0 <= j < k ==> items[j] == ItemOf(vec[j])
      invariant error <==> open || exists j :: 0 <= j < k && Unknown(vec[j])
    {
      if vec[k].Text? {
        items := items + [StringItem(vec[k].text)];
      } else if vec[k].name !in NAMES {
        items := items + [StringItem("<<error_format %" + vec[k].name + ">>")];
        assert Unknown(vec[k]);
        error := true;
      } else {
        items := items + [KnownItem(vec[k].name, vec[k].fmt)];
      }
      k := k + 1;
    }
  }

  const ITEM_LETTERS: string := "mprctndflTFN"

  /** The items there are: one letter each, out of twelve; any other name is printed as an error text. */
  lemma ItemsAre(name: string, fmt: string)
    ensures var known := |name| == 1 && exists k :: 0 <= k < |ITEM_LETTERS| && ITEM_LETTERS[k] == name[0];
            ItemOf(Item(name, fmt)) == if known then KnownItem(name, fmt) else StringItem("<<error_format %" + name + ">>")
    ensures ItemOf(Text(name)) == StringItem(name)
  {
    assert forall k :: 0 <= k < |ITEM_LETTERS| ==> [ITEM_LETTERS[k]] in NAMES;
    if name in NAMES {
      assert |name| == 1;
      var c := name[0];
      assert name == [c];
      assert ITEM_LETTERS[0] == c || ITEM_LETTERS[1] == c || ITEM_LETTERS[2] == c || ITEM_LETTERS[3] == c || ITEM_LETTERS[4] == c
             || ITEM_LETTERS[5] == c || ITEM_LETTERS[6] == c || ITEM_LETTERS[7] == c || ITEM_LETTERS[8] == c || ITEM_LETTERS[9] == c
             || ITEM_LETTERS[10] == c || ITEM_LETTERS[11] == c;
    } else if |name| == 1 {
      assert name == [name[0]];
    }
  }

  // ---------------------------------------------------------------- printing, and back

  datatype Part = Lit(text: string) | Fmt(name: string, braces: Option<string>)

  function Double(t: string): string {
    if t == "" then "" else (if t[0] == '%' then "%%" else [t[0]]) + Double(t[1..])
  }

  function PrintPart(part: Part): string {
    match part
    case Lit(text) => Double(text)
    case Fmt(name, braces) => "%" + name + (if braces.Some? then "{" + braces.value + "}" else "")
  }

  function Print(parts: seq<Part>): string {
    if parts == [] then "" else PrintPart(parts[0]) + Print(parts[1..])
  }

  function PieceOf(part: Part): Piece {
    match part
    case Lit(text) => Text(text)
    case Fmt(name, braces) => Item(name, if braces.Some? then braces.value else "")
  }

  function Pieces(parts: seq<Part>): seq<Piece> {
    if parts == [] then [] else [PieceOf(parts[0])] + Pieces(parts[1..])
  }

  predicate Letters(s: string) {
    s != "" && forall i :: 0 <= i < |s| ==> IsAlpha(s[i])
  }

  predicate FirstOk(parts: seq<Part>)
    requires parts != []
  {
    match parts[0]
    case Lit(text) => text != "" && (|parts| > 1 ==> parts[1].Fmt?)
    case Fmt(name, _) => Letters(name)
  }

  /** Literals are not empty and never next to each other; names are letters. */
  predicate Merged(parts: seq<Part>) {
    parts == [] || (FirstOk(parts) && Merged(parts[1..]))
  }

  /** The first part can be told from what follows. */
  predicate Clear(parts: seq<Part>)
    requires parts != []
  {
    match parts[0]
    case Lit(_) => true
    case Fmt(_, Some(f)) => '}' !in f
    case Fmt(_, None) =>
      |parts| > 1 && parts[1].Lit? && parts[1].text != "" ==>
        !IsAlpha(parts[1].text[0]) && parts[1].text[0] != '{' && parts[1].text[0] != '}'
  }

  predicate AllClear(parts: seq<Part>) {
    parts == [] || (Clear(parts) && AllClear(parts[1..]))
  }

  /** What has been pushed stays, and an error stays. */
  lemma {:induction false} ParseGrows(p: string, i: nat, nstr: string, vec: seq<Piece>, error: bool)
    requires i <= |p|
    ensures Flush(vec, "") <= Parse(p, i, nstr, vec, error).vec
    ensures error ==> Parse(p, i, nstr, vec, error).error
    decreases |p| - i
  {
    hide ScanName;
    if i == |p| {
    } else if p[i] != '%' {
      ParseGrows(p, i + 1, nstr + [p[i]], vec, error);
    } else if i + 1 < |p| && p[i + 1] == '%' {
      ParseGrows(p, i + 2, nstr + "%", vec, error);
    } else {
      match ScanName(p, i + 1, i + 1)
      case Found(name, fmt, next) => ParseGrows(p, next, "", Flush(vec, nstr) + [Item(name, fmt)], error);
      case Unclosed => ParseGrows(p, i + 1, nstr, vec + [Text(PATTERN_ERROR)], true);
    }
  }

  lemma {:induction false} LitParsed(p: string, i: nat, t: string, rest: string, nstr: string, vec: seq<Piece>)
    requires i <= |p| && p[i..] == Double(t) + rest
    ensures i + |Double(t)| <= |p| && p[i + |Double(t)|..] == rest
    ensures Parse(p, i, nstr, vec, false) == Parse(p, i + |Double(t)|, nstr + t, vec, false)
    decreases t
  {
    hide Parse, At, Double;
    if t == "" {
      NothingDoubled(nstr, rest);
    } else {
      var d := DoubleIs(t, nstr, rest);
      Tail(p, i, d, Double(t[1..]) + rest);
      CharParsed(p, i, t[0], nstr, vec);
      LitParsed(p, i + |d|, t[1..], rest, nstr + [t[0]], vec);
    }
  }

  lemma NothingDoubled(nstr: string, rest: string)
    ensures Double("") == "" && Double("") + rest == rest && nstr + "" == nstr
  {
  }

  /** The first character of a literal, and what the two accumulators make of it. */
  lemma DoubleIs(t: string, nstr: string, rest: string) returns (d: string)
    requires t != ""
    ensures d == if t[0] == '%' then "%%" else [t[0]]
    ensures Double(t) + rest == d + (Double(t[1..]) + rest) && |Double(t)| == |d| + |Double(t[1..])|
    ensures (nstr + [t[0]]) + t[1..] == nstr + t
  {
    d := if t[0] == '%' then "%%" else [t[0]];
    Regroup(d, Double(t[1..]), rest);
    Regroup(nstr, [t[0]], t[1..]);
    assert [t[0]] + t[1..] == t;
  }

  /** One character of a literal, a percent sign doubled. */
  lemma CharParsed(p: string, i: nat, c: char, nstr: string, vec: seq<Piece>)
    requires i < |p| && p[i] == c && (c == '%' ==> i + 1 < |p| && p[i + 1] == '%')
    ensures Parse(p, i, nstr, vec, false) == Parse(p, i + (if c == '%' then 2 else 1), nstr + [c], vec, false)
  {
    hide ScanName;
  }

  /** Letters are read through. */
  lemma {:induction false} NameRun(p: string, i: nat, n: nat, m: nat)
    requires i <= n <= m <= |p| && forall k :: n <= k < m ==> IsAlpha(p[k])
    ensures ScanName(p, i, n) == ScanName(p, i, m)
    decreases m - n
  {
    if n < m { NameRun(p, i, n + 1, m); }
  }

  lemma {:induction false} FmtRun(p: string, name: string, b: nat, n: nat, m: nat)
    requires b <= n <= m < |p| && p[m] == '}' && forall k :: n <= k < m ==> p[k] != '}'
    ensures ScanFmt(p, name, b, n) == Found(name, p[b..m], m + 1)
    decreases m - n
  {
    if n < m { FmtRun(p, name, b, n + 1, m); }
  }

  lemma {:induction false} NameIsLonger(p: string, i: nat, n: nat)
    requires i <= n <= |p|
    ensures ScanName(p, i, n).Found? ==> |ScanName(p, i, n).name| >= n - i
    decreases |p| - n
  {
    if n < |p| && p[n] != '{' && (IsAlpha(p[n]) || p[n] == '}') { NameIsLonger(p, i, n + 1); }
  }

  /** p reads text at i. */
  predicate At(p: string, i: nat, text: string) {
    i + |text| <= |p| && p[i..i + |text|] == text
  }

  lemma Tail(p: string, i: nat, a: string, b: string)
    requires i <= |p| && p[i..] == a + b
    ensures At(p, i, a) && i + |a| <= |p| && p[i + |a|..] == b
    ensures forall k :: i <= k < i + |a| ==> p[k] == a[k - i]
    ensures b != "" ==> i + |a| < |p| && p[i + |a|] == b[0]
    ensures b == "" ==> i + |a| == |p|
  {
    assert p[i..i + |a|] == p[i..][..|a|];
    assert p[i + |a|..] == p[i..][|a|..];
    forall k | i <= k < i + |a|
      ensures p[k] == a[k - i]
    {
      assert p[k] == p[i..][k - i];
    }
    assert b != "" ==> p[i + |a|] == p[i + |a|..][0];
  }

  /** The name of an item is read up to what follows it. */
  lemma NameRead(p: string, i: nat, name: string, rest: string)
    requires i <= |p| && p[i..] == "%" + name + rest && Letters(name)
    ensures i + 1 + |name| <= |p| && p[i] == '%' && i + 1 < |p| && p[i + 1] != '%'
    ensures p[i + 1..i + 1 + |name|] == name && p[i + 1 + |name|..] == rest
    ensures ScanName(p, i + 1, i + 1) == ScanName(p, i + 1, i + 1 + |name|)
  {
    assert "%" + name + rest == "%" + (name + rest);
    Tail(p, i, "%", name + rest);
    Tail(p, i + 1, name, rest);
    NameRun(p, i + 1, i + 1, i + 1 + |name|);
  }

  predicate Ends(rest: string) {
    rest == "" || (!IsAlpha(rest[0]) && rest[0] != '{' && rest[0] != '}')
  }

  lemma PlainParsed(p: string, i: nat, name: string, rest: string, nstr: string, vec: seq<Piece>)
    requires i <= |p| && p[i..] == "%" + name + rest && Letters(name) && Ends(rest)
    ensures i + 1 + |name| <= |p| && p[i + 1 + |name|..] == rest
    ensures Parse(p, i, nstr, vec, false) == Parse(p, i + 1 + |name|, "", Flush(vec, nstr) + [Item(name, "")], false)
  {
    NameRead(p, i, name, rest);
    var n := i + 1 + |name|;
    assert rest != "" ==> p[n] == p[n..][0];
    assert rest == "" ==> p[i + 1..] == p[i + 1..n];
  }

  /** The pieces of "{f}rest" in place. */
  lemma BracesAt(p: string, n: nat, f: string, rest: string)
    requires n <= |p| && p[n..] == "{" + f + "}" + rest
    ensures n + |f| + 2 <= |p| && p[n] == '{' && p[n + 1..n + 1 + |f|] == f && p[n + 1 + |f|] == '}' && p[n + |f| + 2..] == rest
    ensures forall k :: n + 1 <= k < n + 1 + |f| ==> p[k] == f[k - (n + 1)]
  {
    BracesShape(f, rest);
    Tail(p, n, "{", f + ("}" + rest));
    FmtAt(p, n + 1, f, rest);
  }

  lemma BracesShape(f: string, rest: string)
    ensures "{" + f + "}" + rest == "{" + (f + ("}" + rest))
  {
  }

  lemma FmtAt(p: string, n: nat, f: string, rest: string)
    requires n <= |p| && p[n..] == f + ("}" + rest)
    ensures n + |f| + 1 <= |p| && p[n..n + |f|] == f && p[n + |f|] == '}' && p[n + |f| + 1..] == rest
    ensures forall k :: n <= k < n + |f| ==> p[k] == f[k - n]
  {
    Tail(p, n, f, "}" + rest);
    Tail(p, n + |f|, "}", rest);
  }

  /** A braced item ends at the first closing brace. */
  lemma BracedScan(p: string, i: nat, name: string, f: string, rest: string)
    requires i <= |p| && p[i..] == "%" + name + ("{" + f + "}" + rest) && Letters(name) && '}' !in f
    ensures var j := i + |name| + |f| + 3;
            && j <= |p| && p[j..] == rest && p[i] == '%' && p[i + 1] != '%'
            && ScanName(p, i + 1, i + 1) == Found(name, f, j)
  {
    hide Letters, IsAlpha, Parse;
    NameRead(p, i, name, "{" + f + "}" + rest);
    var n := i + 1 + |name|;
    BracesAt(p, n, f, rest);
    FmtRun(p, name, n + 1, n + 1, n + 1 + |f|);
  }

  lemma ParseFound(p: string, i: nat, nstr: string, vec: seq<Piece>, name: string, fmt: string, next: nat)
    requires i < |p| && p[i] == '%' && (i + 1 < |p| ==> p[i + 1] != '%') && ScanName(p, i + 1, i + 1) == Found(name, fmt, next)
    ensures next <= |p| && Parse(p, i, nstr, vec, false) == Parse(p, next, "", Flush(vec, nstr) + [Item(name, fmt)], false)
  {
    hide ScanName;
  }

  lemma BracedParsed(p: string, i: nat, name: string, f: string, rest: string, nstr: string, vec: seq<Piece>)
    requires i <= |p| && p[i..] == "%" + name + ("{" + f + "}" + rest) && Letters(name) && '}' !in f
    ensures var j := i + |name| + |f| + 3;
            && j <= |p| && p[j..] == rest
            && Parse(p, i, nstr, vec, false) == Parse(p, j, "", Flush(vec, nstr) + [Item(name, f)], false)
  {
    hide Parse, ScanName, Flush;
    BracedScan(p, i, name, f, rest);
    ParseFound(p, i, nstr, vec, name, f, i + |name| + |f| + 3);
  }

  lemma PrintStart(parts: seq<Part>)
    requires Merged(parts)
    ensures parts != [] && parts[0].Fmt? ==> Print(parts) != "" && Print(parts)[0] == '%'
    ensures parts != [] && parts[0].Lit? ==> Print(parts) != "" && Print(parts)[0] == parts[0].text[0]
    ensures parts == [] ==> Print(parts) == ""
  {
  }

  lemma ClearParsed(p: string, i: nat, nstr: string, vec: seq<Piece>, parts: seq<Part>)
    requires i <= |p| && parts != [] && parts[0].Fmt? && Merged(parts) && p[i..] == Print(parts) && Clear(parts)
    ensures var j := i + |PrintPart(parts[0])|;
            && j <= |p| && p[j..] == Print(parts[1..])
            && Parse(p, i, nstr, vec, false) == Parse(p, j, "", Flush(vec, nstr) + [PieceOf(parts[0])], false)
  {
    hide Parse, Print, Flush, ScanName, IsAlpha, Letters;
    var rest := Print(parts[1..]);
    MergedStep(parts);
    PrintStart(parts[1..]);
    var Fmt(name, braces) := parts[0];
    FmtText(parts);
    if braces.Some? {
      BracedParsed(p, i, name, braces.value, rest, nstr, vec);
    } else {
      ClearEnds(parts);
      PlainParsed(p, i, name, rest, nstr, vec);
    }
  }

  lemma ClearEnds(parts: seq<Part>)
    requires parts != [] && parts[0].Fmt? && parts[0].braces.None? && Merged(parts) && Clear(parts)
    ensures Ends(Print(parts[1..]))
  {
    PrintStart(parts[1..]);
  }

  lemma MergedStep(parts: seq<Part>)
    requires parts != [] && Merged(parts)
    ensures Merged(parts[1..]) && (parts[0].Fmt? ==> Letters(parts[0].name))
  {
  }

  lemma FmtText(parts: seq<Part>)
    requires parts != [] && parts[0].Fmt?
    ensures var Fmt(name, braces) := parts[0];
            && (braces.Some? ==> Print(parts) == "%" + name + ("{" + braces.value + "}" + Print(parts[1..]))
                                 && |PrintPart(parts[0])| == |name| + |braces.value| + 3)
            && (braces.None? ==> Print(parts) == "%" + name + Print(parts[1..]) && |PrintPart(parts[0])| == |name| + 1)
  {
    var Fmt(name, braces) := parts[0];
    Regroup("%" + name, if braces.Some? then "{" + braces.value + "}" else "", Print(parts[1..]));
  }

  lemma Regroup(a: string, b: string, c: string)
    ensures (a + b) + c == a + (b + c)
    ensures b == "" ==> b + c == c
  {
  }

  /** An item other than the one printed is pushed, or an error reported: the result cannot be right. */
  lemma WrongItem(p: string, i: nat, nstr: string, vec: seq<Piece>, right: Piece, more: seq<Piece>)
    requires i + 1 < |p| && p[i] == '%' && p[i + 1] != '%'
    requires match ScanName(p, i + 1, i + 1) case Found(name, fmt, _) => Item(name, fmt) != right case Unclosed => true
    ensures Parse(p, i, nstr, vec, false) != Parsed(Flush(vec, nstr) + ([right] + more), false)
  {
    hide ScanName;
    var flushed := Flush(vec, nstr);
    var r := Parse(p, i, nstr, vec, false);
    match ScanName(p, i + 1, i + 1)
    case Found(name, fmt, next) =>
      ParseGrows(p, next, "", flushed + [Item(name, fmt)], false);
      assert (flushed + [Item(name, fmt)])[|flushed|] == Item(name, fmt);
      assert r.vec[|flushed|] == Item(name, fmt);
      assert (flushed + ([right] + more))[|flushed|] == right;
    case Unclosed =>
      ParseGrows(p, i + 1, nstr, vec + [Text(PATTERN_ERROR)], true);
  }

  /** A closing brace inside the braces. */
  lemma BraceInside(p: string, i: nat, nstr: string, vec: seq<Piece>, name: string, f: string, rest: string, more: seq<Piece>)
    requires i <= |p| && p[i..] == "%" + name + ("{" + f + "}" + rest) && Letters(name) && '}' in f
    ensures Parse(p, i, nstr, vec, false) != Parsed(Flush(vec, nstr) + ([Item(name, f)] + more), false)
  {
    hide Parse, ScanName, Letters;
    var n := i + 1 + |name|;
    assert "{" + f + "}" + rest == "{" + (f + ("}" + rest));
    BraceRead(p, i, name, f + ("}" + rest));
    Tail(p, n + 1, f, "}" + rest);
    var k := FirstBrace(f);
    FmtRun(p, name, n + 1, n + 1, n + 1 + k);
    assert |p[n + 1..n + 1 + k]| == k;
    WrongItem(p, i, nstr, vec, Item(name, f), more);
  }

  lemma {:induction false} FirstBrace(f: string) returns (k: nat)
    requires '}' in f
    ensures k < |f| && f[k] == '}' && forall j :: 0 <= j < k ==> f[j] != '}'
  {
    if f[0] == '}' {
      k := 0;
    } else {
      assert '}' in f[1..];
      k := FirstBrace(f[1..]);
      assert forall j :: 1 <= j < k + 1 ==> f[j] == f[1..][j - 1];
      k := k + 1;
    }
  }

  /** A letter or a closing brace right behind the name. */
  lemma NameRunsOn(p: string, i: nat, nstr: string, vec: seq<Piece>, name: string, rest: string, more: seq<Piece>)
    requires i <= |p| && p[i..] == "%" + name + rest && Letters(name)
    requires rest != "" && (IsAlpha(rest[0]) || rest[0] == '}')
    ensures Parse(p, i, nstr, vec, false) != Parsed(Flush(vec, nstr) + ([Item(name, "")] + more), false)
  {
    NameRead(p, i, name, rest);
    var n := i + 1 + |name|;
    assert p[n] == p[n..][0];
    NameIsLonger(p, i + 1, n + 1);
    WrongItem(p, i, nstr, vec, Item(name, ""), more);
  }

  lemma DoubleStep(t: string, rest: string)
    requires t != "" && t[0] != '%'
    ensures Double(t) + rest == [t[0]] + (Double(t[1..]) + rest)
  {
  }

  lemma BraceRead(p: string, i: nat, name: string, rest: string)
    requires i <= |p| && Letters(name) && p[i..] == "%" + name + ("{" + rest)
    ensures var n := i + 1 + |name|;
            && n < |p| && p[n + 1..] == rest && i + 1 < |p| && p[i] == '%' && p[i + 1] != '%'
            && ScanName(p, i + 1, i + 1) == ScanFmt(p, name, n + 1, n + 1)
  {
    hide Letters, IsAlpha, ScanFmt;
    NameRead(p, i, name, "{" + rest);
    Tail(p, i + 1 + |name|, "{", rest);
  }

  /** An opening brace right behind the name: what follows is taken for braces. */
  lemma BraceOpens(p: string, i: nat, nstr: string, vec: seq<Piece>, name: string, t: string, parts: seq<Part>)
    requires i <= |p| && Letters(name) && t != "" && t[0] == '{' && Merged(parts) && (parts != [] ==> parts[0].Fmt?)
    requires p[i..] == "%" + name + (Double(t) + Print(parts))
    ensures Parse(p, i, nstr, vec, false) != Parsed(Flush(vec, nstr) + ([Item(name, "")] + ([Text(t)] + Pieces(parts))), false)
  {
    hide Parse, Double, Print, Flush, Pieces, Letters, IsAlpha, ScanName, ScanFmt, Merged;
    DoubleStep(t, Print(parts));
    BraceRead(p, i, name, Double(t[1..]) + Print(parts));
    var n := i + 1 + |name|;
    FmtNotEmpty(p, name, n + 1, n + 1);
    if n + 1 < |p| && p[n + 1] == '}' {
      ParseFound(p, i, nstr, vec, name, "", n + 2);
      var pushed := Flush(vec, nstr) + [Item(name, "")];
      EmptyBraces(p, n + 1, pushed, t, parts);
      assert Flush(vec, nstr) + ([Item(name, "")] + ([Text(t)] + Pieces(parts))) == pushed + ([Text(t)] + Pieces(parts));
    } else {
      WrongItem(p, i, nstr, vec, Item(name, ""), [Text(t)] + Pieces(parts));
    }
  }

  lemma FmtNotEmpty(p: string, name: string, b: nat, n: nat)
    requires b == n <= |p|
    ensures n < |p| && p[n] == '}' ==> ScanFmt(p, name, b, n) == Found(name, "", n + 1)
    ensures !(n < |p| && p[n] == '}') && ScanFmt(p, name, b, n).Found? ==> ScanFmt(p, name, b, n).fmt != ""
  {
    assert p[n..n] == "";
    if n < |p| { FmtGrows(p, name, b, n + 1); }
  }

  lemma {:induction false} FmtGrows(p: string, name: string, b: nat, n: nat)
    requires b <= n <= |p|
    ensures ScanFmt(p, name, b, n).Found? ==> |ScanFmt(p, name, b, n).fmt| >= n - b
    decreases |p| - n
  {
    if n < |p| && p[n] != '}' { FmtGrows(p, name, b, n + 1); }
  }

  lemma DoubleEmpty(t: string)
    ensures Double(t) == "" <==> t == ""
    ensures t != "" ==> Double(t)[0] == t[0]
  {
  }

  lemma SecondIsBrace(p: string, n: nat, t: string, parts: seq<Part>)
    requires n < |p| && t != "" && p[n] == '}' && p[n..] == Double(t[1..]) + Print(parts)
    requires Merged(parts) && (parts != [] ==> parts[0].Fmt?)
    ensures |t| > 1 && t[1] == '}'
  {
    hide Merged, Double, Print;
    DoubleEmpty(t[1..]);
    PrintStart(parts);
    assert p[n] == p[n..][0];
  }

  /** Behind "{}" only the rest of the literal is left. */
  lemma EmptyBraces(p: string, n: nat, vec: seq<Piece>, t: string, parts: seq<Part>)
    requires n < |p| && t != "" && p[n] == '}' && Merged(parts) && (parts != [] ==> parts[0].Fmt?)
    requires p[n..] == Double(t[1..]) + Print(parts)
    ensures Parse(p, n + 1, "", vec, false) != Parsed(vec + ([Text(t)] + Pieces(parts)), false)
  {
    hide Parse, Double, Print, Pieces, Merged;
    SecondIsBrace(p, n, t, parts);
    var t2 := t[2..];
    assert t[1..][1..] == t2;
    DoubleStep(t[1..], Print(parts));
    Tail(p, n, [t[1]], Double(t2) + Print(parts));
    LitParsed(p, n + 1, t2, Print(parts), "", vec);
    assert "" + t2 == t2;
    NotTheLiteral(p, n + 1 + |Double(t2)|, vec, t2, t, parts);
  }

  lemma NotTheLiteral(p: string, i: nat, vec: seq<Piece>, t2: string, t: string, parts: seq<Part>)
    requires i <= |p| && p[i..] == Print(parts) && Merged(parts) && (parts != [] ==> parts[0].Fmt?) && |t2| < |t|
    ensures Parse(p, i, t2, vec, false) != Parsed(vec + ([Text(t)] + Pieces(parts)), false)
  {
    hide ScanName, Pieces, Letters, IsAlpha, PrintPart;
    assert (vec + ([Text(t)] + Pieces(parts)))[|vec|] == Text(t);
    if parts == [] {
      assert i == |p|;
    } else {
      MergedStep(parts);
      FmtText(parts);
      var Fmt(name, braces) := parts[0];
      NameRead(p, i, name, if braces.Some? then "{" + braces.value + "}" + Print(parts[1..]) else Print(parts[1..]));
      PushedDiffers(p, i, vec, t2, Text(t), [Text(t)] + Pieces(parts));
    }
  }

  /** At an item, what is pushed next is the pending literal or the item, or an error is reported. */
  lemma PushedDiffers(p: string, i: nat, vec: seq<Piece>, t2: string, right: Piece, more: seq<Piece>)
    requires i + 1 < |p| && p[i] == '%' && p[i + 1] != '%' && right.Text? && right.text != t2 && more != [] && more[0] == right
    ensures Parse(p, i, t2, vec, false) != Parsed(vec + more, false)
  {
    hide ScanName;
    assert (vec + more)[|vec|] == right;
    match ScanName(p, i + 1, i + 1)
    case Found(name, fmt, next) =>
      var pushed := Flush(vec, t2) + [Item(name, fmt)];
      ParseGrows(p, next, "", pushed, false);
      assert pushed[|vec|] != right;
      assert Parse(p, i, t2, vec, false).vec[|vec|] == pushed[|vec|];
    case Unclosed =>
      ParseGrows(p, i + 1, t2, vec + [Text(PATTERN_ERROR)], true);
  }

  lemma NotClear(p: string, i: nat, nstr: string, vec: seq<Piece>, parts: seq<Part>)
    requires i <= |p| && parts != [] && parts[0].Fmt? && Merged(parts) && p[i..] == Print(parts) && !Clear(parts)
    ensures Parse(p, i, nstr, vec, false) != Parsed(Flush(vec, nstr) + Pieces(parts), false)
  {
    hide Parse, Print, Pieces, Flush, Letters, IsAlpha;
    var Fmt(name, braces) := parts[0];
    var rest := Print(parts[1..]);
    PiecesStep(parts);
    MergedStep(parts);
    FmtText(parts);
    if braces.Some? {
      BraceInside(p, i, nstr, vec, name, braces.value, rest, Pieces(parts[1..]));
    } else {
      var t := parts[1].text;
      PrintStart(parts[1..]);
      if t[0] == '{' {
        LitBehind(parts);
        BraceOpens(p, i, nstr, vec, name, t, parts[2..]);
      } else {
        NameRunsOn(p, i, nstr, vec, name, rest, Pieces(parts[1..]));
      }
    }
  }

  lemma PiecesStep(parts: seq<Part>)
    requires parts != []
    ensures Pieces(parts) == [PieceOf(parts[0])] + Pieces(parts[1..])
  {
  }

  lemma LitBehind(parts: seq<Part>)
    requires |parts| > 1 && parts[1].Lit? && Merged(parts)
    ensures Print(parts[1..]) == Double(parts[1].text) + Print(parts[2..])
    ensures Pieces(parts[1..]) == [Text(parts[1].text)] + Pieces(parts[2..])
    ensures Merged(parts[2..]) && (parts[2..] != [] ==> parts[2..][0].Fmt?)
  {
    assert parts[1..][1..] == parts[2..];
  }

  lemma {:induction false} ParsePrint(p: string, i: nat, nstr: string, vec: seq<Piece>, parts: seq<Part>)
    requires i <= |p| && p[i..] == Print(parts) && Merged(parts) && (nstr != "" && parts != [] ==> parts[0].Fmt?)
    ensures Parse(p, i, nstr, vec, false) == Parsed(Flush(vec, nstr) + Pieces(parts), false) <==> AllClear(parts)
    decreases |parts|
  {
    hide Parse, Clear, Double, PrintPart;
    if parts == [] {
      assert i == |p|;
      ParseEnd(p, nstr, vec);
      assert Flush(vec, nstr) + [] == Flush(vec, nstr);
    } else if parts[0].Lit? {
      var t := parts[0].text;
      LitStep(parts);
      LitParsed(p, i, t, Print(parts[1..]), nstr, vec);
      assert "" + t == t;
      ParsePrint(p, i + |Double(t)|, t, vec, parts[1..]);
      assert vec + [Text(t)] + Pieces(parts[1..]) == vec + ([Text(t)] + Pieces(parts[1..]));
    } else if Clear(parts) {
      ClearParsed(p, i, nstr, vec, parts);
      var flushed := Flush(vec, nstr) + [PieceOf(parts[0])];
      ParsePrint(p, i + |PrintPart(parts[0])|, "", flushed, parts[1..]);
      assert flushed + Pieces(parts[1..]) == Flush(vec, nstr) + ([PieceOf(parts[0])] + Pieces(parts[1..]));
    } else {
      NotClear(p, i, nstr, vec, parts);
    }
  }

  lemma ParseEnd(p: string, nstr: string, vec: seq<Piece>)
    ensures Parse(p, |p|, nstr, vec, false) == Parsed(Flush(vec, nstr), false)
  {
  }

  lemma LitStep(parts: seq<Part>)
    requires parts != [] && parts[0].Lit? && Merged(parts)
    ensures Print(parts) == Double(parts[0].text) + Print(parts[1..]) && Clear(parts)
    ensures parts[0].text != "" && (parts[1..] != [] ==> parts[1..][0].Fmt?)
  {
  }

  /** The parser undoes printing, for every merged list of parts, exactly when each can be told from what
      follows: braces without a closing brace inside, and no letter or brace at the start of a literal
      behind an item without braces. */
  lemma RoundTripIff(parts: seq<Part>)
    requires Merged(parts)
    ensures Parse(Print(parts), 0, "", [], false) == Parsed(Pieces(parts), false) <==> AllClear(parts)
  {
    ParsePrint(Print(parts), 0, "", [], parts);
    assert [] + Pieces(parts) == Pieces(parts);
  }

  // ---------------------------------------------------------------- a brace left open

  lemma {:induction false} Unending(p: string, name: string, b: nat, n: nat)
    requires b <= n <= |p| && forall k :: n <= k < |p| ==> p[k] != '}'
    ensures ScanFmt(p, name, b, n) == Unclosed
    decreases |p| - n
  {
    if n < |p| { Unending(p, name, b, n + 1); }
  }

  /** Without a percent sign everything is literal. */
  lemma {:induction false} PlainRun(p: string, i: nat, nstr: string, vec: seq<Piece>, error: bool)
    requires i <= |p| && forall k :: i <= k < |p| ==> p[k] != '%'
    ensures Parse(p, i, nstr, vec, error) == Parsed(Flush(vec, nstr + p[i..]), error)
    decreases |p| - i
  {
    if i == |p| {
      assert nstr + p[i..] == nstr;
    } else {
      PlainRun(p, i + 1, nstr + [p[i]], vec, error);
      assert nstr + [p[i]] + p[i + 1..] == nstr + p[i..];
    }
  }

  /** A brace left open, for every literal in front and every text inside: the error text comes first, and
      the literal that was pending runs on over the item's own characters. */
  lemma OpenBrace(t: string, name: string, f: string)
    requires Letters(name) && '}' !in f && '%' !in f
    ensures Parse(Double(t) + ("%" + name + ("{" + f)), 0, "", [], false)
            == Parsed([Text("<<pattern_error>>"), Text(t + (name + ("{" + f)))], true)
  {
    hide Letters, Double;
    var item := "%" + name + ("{" + f);
    var p, i := Double(t) + item, |Double(t)|;
    LitParsed(p, 0, t, item, "", []);
    assert "" + t == t;
    BraceRead(p, i, name, f);
    OpenScan(p, i, name, f);
    assert Parse(p, i, t, [], false) == Parse(p, i + 1, t, [] + [Text(PATTERN_ERROR)], true);
    NoPercent(p, i, name, f);
    PlainRun(p, i + 1, t, [Text(PATTERN_ERROR)], true);
    assert [] + [Text(PATTERN_ERROR)] == [Text(PATTERN_ERROR)];
    assert [Text(PATTERN_ERROR)] + [Text(t + p[i + 1..])] == [Text(PATTERN_ERROR), Text(t + (name + ("{" + f)))];
  }

  lemma OpenScan(p: string, i: nat, name: string, f: string)
    requires i <= |p| && p[i..] == "%" + name + ("{" + f) && Letters(name) && '}' !in f
    ensures i + 1 < |p| && p[i] == '%' && p[i + 1] != '%' && ScanName(p, i + 1, i + 1) == Unclosed
  {
    hide Letters;
    BraceRead(p, i, name, f);
    var n := i + 1 + |name|;
    assert forall k :: n + 1 <= k < |p| ==> p[k] == p[n + 1..][k - (n + 1)] && p[k] in f;
    Unending(p, name, n + 1, n + 1);
  }

  lemma NoPercent(p: string, i: nat, name: string, f: string)
    requires i <= |p| && p[i..] == "%" + name + ("{" + f) && Letters(name) && '%' !in f
    ensures i + 1 <= |p| && p[i + 1..] == name + ("{" + f) && forall k :: i + 1 <= k < |p| ==> p[k] != '%'
  {
    Regroup("%", name, "{" + f);
    Tail(p, i, "%", name + ("{" + f));
    forall k | i + 1 <= k < |p|
      ensures p[k] != '%'
    {
      var j := k - (i + 1);
      assert p[k] == p[i + 1..][j] == (name + ("{" + f))[j];
      if j >= |name| + 1 { assert p[k] == f[j - |name| - 1]; }
    }
  }

  // ---------------------------------------------------------------- an item without braces

  predicate BareName(name: string) {
    forall k :: 0 <= k < |name| ==> IsAlpha(name[k]) || name[k] == '}'
  }

  lemma {:induction false} BareRun(p: string, i: nat, n: nat, m: nat)
    requires i <= n <= m <= |p| && forall k :: n <= k < m ==> IsAlpha(p[k]) || p[k] == '}'
    ensures ScanName(p, i, n) == ScanName(p, i, m)
    decreases m - n
  {
    if n < m { BareRun(p, i, n + 1, m); }
  }

  /** Whatever letters and closing braces follow a percent sign, perhaps none, are the name of an item, up to any
      other character, which starts the next literal. */
  lemma BareItem(t: string, name: string, rest: string)
    requires BareName(name) && Ends(rest) && '%' !in rest
    ensures Parse(Double(t) + ("%" + (name + rest)), 0, "", [], false)
            == Parsed((if t == "" then [] else [Text(t)]) + [Item(name, "")] + (if rest == "" then [] else [Text(rest)]), false)
  {
    hide Parse, ScanName, Double, BareName, Ends;
    var tail := "%" + (name + rest);
    var p, i := Double(t) + tail, |Double(t)|;
    assert p[0..] == p && "" + t == t;
    LitParsed(p, 0, t, tail, "", []);
    var j := BareScan(p, i, name, rest);
    ParseFound(p, i, t, [], name, "", j);
    NoneAmong(p, j, rest);
    var vec := Flush([], t) + [Item(name, "")];
    PlainRun(p, j, "", vec, false);
    assert "" + p[j..] == rest;
    assert [] + [Text(t)] == [Text(t)];
  }

  lemma BareScan(p: string, i: nat, name: string, rest: string) returns (j: nat)
    requires i <= |p| && p[i..] == "%" + (name + rest) && BareName(name) && Ends(rest) && '%' !in rest
    ensures j <= |p| && p[j..] == rest && i < |p| && p[i] == '%' && (i + 1 < |p| ==> p[i + 1] != '%')
    ensures ScanName(p, i + 1, i + 1) == Found(name, "", j)
  {
    j := i + 1 + |name|;
    Tail(p, i, "%", name + rest);
    Tail(p, i + 1, name, rest);
    assert name != "" ==> p[i + 1] == name[0];
    BareRun(p, i + 1, i + 1, j);
  }

  lemma NoneAmong(p: string, j: nat, rest: string)
    requires j <= |p| && p[j..] == rest && '%' !in rest
    ensures forall k :: j <= k < |p| ==> p[k] != '%'
  {
    forall k | j <= k < |p|
      ensures p[k] != '%'
    {
      assert p[k] == rest[k - j];
    }
  }

  lemma {:induction false} PiecesAt(parts: seq<Part>)
    ensures |Pieces(parts)| == |parts|
    ensures forall k :: 0 <= k < |parts| ==> Pieces(parts)[k] == PieceOf(parts[k])
  {
    if parts != [] { PiecesAt(parts[1..]); }
  }

  /** And for those the error flag of init stays false exactly when every name is known. */
  lemma ErrorIffUnknown(parts: seq<Part>)
    requires Merged(parts) && AllClear(parts)
    ensures var r := Parse(Print(parts), 0, "", [], false);
            (r.error || exists k :: 0 <= k < |r.vec| && Unknown(r.vec[k]))
            <==> exists k :: 0 <= k < |parts| && parts[k].Fmt? && parts[k].name !in NAMES
  {
    RoundTripIff(parts);
    PiecesAt(parts);
    var vec := Pieces(parts);
    forall k | 0 <= k < |parts|
      ensures Unknown(vec[k]) <==> parts[k].Fmt? && parts[k].name !in NAMES
    {
      assert vec[k] == PieceOf(parts[k]);
    }
  }
}
