/** Printing a response (HttpResponse::dump in src/http/http.cpp) and parsing one (the Response rule of
    src/http/http_response_parser.rl with the callbacks of src/http/http_parser.cpp). */
module HttpResponse {

  // ---------------------------------------------------------------- the header map

  datatype Header = Header(name: string, value: string)

  function LowerChar(c: char): char {
    if 'A' <= c <= 'Z' then (c as int - 'A' as int + 'a' as int) as char else c
  }

  function Lower(s: string): (r: string)
    ensures |r| == |s|
  {
    seq(|s|, i requires 0 <= i < |s| => LowerChar(s[i]))
  }

  /** strcasecmp(a, b) < 0. */
  predicate CaseLess(a: string, b: string) {
    TextLess(Lower(a), Lower(b))
  }

  predicate TextLess(a: string, b: string) {
    if b == "" then false
    else if a == "" then true
    else a[0] < b[0] || (a[0] == b[0] && TextLess(a[1..], b[1..]))
  }

  predicate Sorted(hs: seq<Header>) {
    forall i, j :: 0 <= i < j < |hs| ==> CaseLess(hs[i].name, hs[j].name)
  }

  function Place(hs: seq<Header>, name: string): (p: nat)
    ensures p <= |hs|
    ensures forall i :: 0 <= i < p ==> CaseLess(hs[i].name, name)
    ensures p < |hs| ==> !CaseLess(hs[p].name, name)
  {
    if hs == [] || !CaseLess(hs[0].name, name) then 0 else 1 + Place(hs[1..], name)
  }

  /** m_headers[name] = value: an equivalent name keeps its spelling and gets the new value. */
  function SetHeader(hs: seq<Header>, name: string, value: string): seq<Header> {
    var p := Place(hs, name);
    if p < |hs| && !CaseLess(name, hs[p].name) then hs[p := Header(hs[p].name, value)]
    else hs[..p] + [Header(name, value)] + hs[p..]
  }

  function GetHeader(hs: seq<Header>, name: string, def: string): string {
    var p := Place(hs, name);
    if p < |hs| && !CaseLess(name, hs[p].name) then hs[p].value else def
  }

  const UPPER_LETTERS: string := "ABCDEFGHIJKLMNOPQRSTUVWXYZ"
  const LOWER_LETTERS: string := "abcdefghijklmnopqrstuvwxyz"

  /** The two cases of one letter. */
  predicate Cases(c: char, d: char) {
    exists k :: 0 <= k < 26 && c == UPPER_LETTERS[k] && d == LOWER_LETTERS[k]
  }

  /** Equal but for the case of letters. */
  predicate SameText(a: string, b: string) {
    |a| == |b| && forall i :: 0 <= i < |a| ==> a[i] == b[i] || Cases(a[i], b[i]) || Cases(b[i], a[i])
  }

  lemma LetterAt(k: nat)
    requires k < 26
    ensures UPPER_LETTERS[k] as int == 65 + k && LOWER_LETTERS[k] as int == 97 + k
  {
  }

  lemma CasesAre(c: char, d: char)
    ensures Cases(c, d) <==> 'A' <= c <= 'Z' && d as int == c as int + 32
  {
    forall k: nat | k < 26
      ensures UPPER_LETTERS[k] as int == 65 + k && LOWER_LETTERS[k] as int == 97 + k
    {
      LetterAt(k);
    }
    if 'A' <= c <= 'Z' && d as int == c as int + 32 {
      var k := c as int - 65;
      assert c == UPPER_LETTERS[k] && d == LOWER_LETTERS[k];
    }
  }

  /** Names are told apart up to the case of letters and no further. */
  lemma LowerIff(a: string, b: string)
    ensures Lower(a) == Lower(b) <==> SameText(a, b)
  {
    forall c, d
      ensures Cases(c, d) <==> 'A' <= c <= 'Z' && d as int == c as int + 32
    {
      CasesAre(c, d);
    }
    hide Cases;
    if SameText(a, b) {
      assert forall i :: 0 <= i < |a| ==> LowerChar(a[i]) == LowerChar(b[i]);
    } else if |a| == |b| {
      var i :| 0 <= i < |a| && a[i] != b[i] && !Cases(a[i], b[i]) && !Cases(b[i], a[i]);
      assert Lower(a)[i] != Lower(b)[i];
    }
  }

  /** One text is less than another exactly if at the first place where they differ its character is smaller,
      or it has ended. */
  lemma {:induction false} LessIff(a: string, b: string)
    ensures TextLess(a, b)
            <==> exists k: nat :: k <= |a| && k < |b| && a[..k] == b[..k] && (k == |a| || a[k] < b[k])
  {
    if b != "" && a == "" {
      assert a[..0] == b[..0];
    } else if b != "" && a[0] < b[0] {
      assert a[..0] == b[..0];
    } else if b != "" {
      LessIff(a[1..], b[1..]);
      if a[0] == b[0] && TextLess(a[1..], b[1..]) {
        var k: nat :| k <= |a[1..]| && k < |b[1..]| && a[1..][..k] == b[1..][..k] && (k == |a[1..]| || a[1..][k] < b[1..][k]);
        assert a[..k + 1] == [a[0]] + a[1..][..k] && b[..k + 1] == [b[0]] + b[1..][..k];
      }
      forall k: nat | k <= |a| && k < |b| && a[..k] == b[..k] && (k == |a| || a[k] < b[k])
        ensures TextLess(a, b)
      {
        assert k > 0;
        assert a[0] == a[..k][0] && b[0] == b[..k][0];
        assert a[1..][..k - 1] == a[..k][1..] && b[1..][..k - 1] == b[..k][1..];
      }
    }
  }

  lemma {:induction false} LessTrans(a: string, b: string, c: string)
    requires TextLess(a, b) && TextLess(b, c)
    ensures TextLess(a, c)
  {
    if a != "" && a[0] == b[0] == c[0] { LessTrans(a[1..], b[1..], c[1..]); }
  }

  /** Neither is less: the same text. */
  lemma {:induction false} LessTotal(a: string, b: string)
    ensures !TextLess(a, b) && !TextLess(b, a) <==> a == b
    ensures !(TextLess(a, b) && TextLess(b, a))
  {
    if a != "" && b != "" {
      LessTotal(a[1..], b[1..]);
      assert a == [a[0]] + a[1..] && b == [b[0]] + b[1..];
    }
  }

  lemma {:induction false} PlaceIs(hs: seq<Header>, name: string, p: nat)
    requires p <= |hs| && (forall i :: 0 <= i < p ==> CaseLess(hs[i].name, name))
    requires p < |hs| ==> !CaseLess(hs[p].name, name)
    ensures Place(hs, name) == p
  {
    if p > 0 { PlaceIs(hs[1..], name, p - 1); }
  }

  /** In a sorted list everything from the place on is greater, but for an equivalent name at the place. */
  lemma AfterPlace(hs: seq<Header>, name: string)
    requires Sorted(hs)
    ensures var p := Place(hs, name);
            && (p < |hs| && !CaseLess(name, hs[p].name) <==> exists i :: 0 <= i < |hs| && Lower(hs[i].name) == Lower(name))
            && (forall i :: p < i < |hs| ==> CaseLess(name, hs[i].name))
            && (p < |hs| && !CaseLess(name, hs[p].name) ==> Lower(hs[p].name) == Lower(name))
  {
    var p := Place(hs, name);
    if p < |hs| { LessTotal(Lower(hs[p].name), Lower(name)); }
    forall i | p < i < |hs|
      ensures CaseLess(name, hs[i].name)
    {
      assert CaseLess(hs[p].name, hs[i].name);
      if CaseLess(name, hs[p].name) { LessTrans(Lower(name), Lower(hs[p].name), Lower(hs[i].name)); }
    }
    forall i | 0 <= i < |hs|
      ensures Lower(hs[i].name) == Lower(name) ==> i == p
    {
      LessTotal(Lower(hs[i].name), Lower(name));
    }
  }

  lemma SamePlace(hs: seq<Header>, name: string, i: nat)
    requires Sorted(hs) && i < |hs| && Lower(hs[i].name) == Lower(name)
    ensures i == Place(hs, name) && !CaseLess(name, hs[i].name)
  {
    var p := Place(hs, name);
    LessTotal(Lower(hs[i].name), Lower(name));
    assert i < p ==> CaseLess(hs[i].name, name);
    assert p < i ==> CaseLess(hs[p].name, hs[i].name);
  }

  lemma SetKeepsSorted(hs: seq<Header>, name: string, value: string)
    requires Sorted(hs)
    ensures Sorted(SetHeader(hs, name, value))
  {
    hide CaseLess;
    AfterPlace(hs, name);
    var p := Place(hs, name);
    var hs' := SetHeader(hs, name, value);
    if p < |hs| && !CaseLess(name, hs[p].name) {
      assert forall i :: 0 <= i < |hs| ==> hs'[i].name == hs[i].name;
    } else {
      assert forall i :: 0 <= i < |hs'| ==> hs'[i] == if i < p then hs[i] else if i == p then Header(name, value) else hs[i - 1];
    }
  }

  /** What setting an entry leaves: the entry, under its old spelling if it had one, and all the others. */
  lemma SetContents(hs: seq<Header>, name: string, value: string)
    requires Sorted(hs)
    ensures exists i :: 0 <= i < |SetHeader(hs, name, value)| && Lower(SetHeader(hs, name, value)[i].name) == Lower(name)
                        && SetHeader(hs, name, value)[i].value == value
    ensures forall h :: h in hs && Lower(h.name) == Lower(name) ==> Header(h.name, value) in SetHeader(hs, name, value)
    ensures forall h :: h in hs && Lower(h.name) != Lower(name) ==> h in SetHeader(hs, name, value)
    ensures forall h :: h in SetHeader(hs, name, value) && Lower(h.name) != Lower(name) ==> h in hs
  {
    AfterPlace(hs, name);
    hide CaseLess, Lower, Sorted;
    var p := Place(hs, name);
    var hs' := SetHeader(hs, name, value);
    assert Lower(hs'[p].name) == Lower(name) && hs'[p].value == value;
    forall h | h in hs && Lower(h.name) == Lower(name)
      ensures Header(h.name, value) in hs'
    {
      var i :| 0 <= i < |hs| && hs[i] == h;
      SamePlace(hs, name, i);
      assert hs'[p] == Header(h.name, value);
    }
    forall h | h in hs && Lower(h.name) != Lower(name)
      ensures h in hs'
    {
      var i :| 0 <= i < |hs| && hs[i] == h;
      assert |hs'| == |hs| ==> hs'[i] == h;
      assert |hs'| != |hs| ==> hs'[if i < p then i else i + 1] == h;
    }
  }

  /** The map is case-insensitive: a set value is found under any spelling, and no other entry changes. */
  lemma GetAfterSet(hs: seq<Header>, name: string, value: string, other: string, def: string)
    requires Sorted(hs)
    ensures GetHeader(SetHeader(hs, name, value), other, def)
            == if Lower(other) == Lower(name) then value else GetHeader(hs, other, def)
  {
    hide Place, SetHeader, GetHeader, CaseLess, Lower, Sorted;
    SetKeepsSorted(hs, name, value);
    SetContents(hs, name, value);
    var hs' := SetHeader(hs, name, value);
    GetIs(hs', other, def);
    GetIs(hs, other, def);
    if Lower(other) != Lower(name) && exists i :: 0 <= i < |hs| && Lower(hs[i].name) == Lower(other) {
      var i :| 0 <= i < |hs| && Lower(hs[i].name) == Lower(other);
      assert hs[i] in hs;
      var j :| 0 <= j < |hs'| && hs'[j] == hs[i];
    } else if Lower(other) != Lower(name) {
      forall j | 0 <= j < |hs'|
        ensures Lower(hs'[j].name) != Lower(other)
      {
        assert hs'[j] in hs' && (hs'[j] in hs ==> exists i :: 0 <= i < |hs| && hs[i] == hs'[j]);
      }
    }
  }

  lemma GetIs(hs: seq<Header>, name: string, def: string)
    requires Sorted(hs)
    ensures (forall i :: 0 <= i < |hs| && Lower(hs[i].name) == Lower(name) ==> GetHeader(hs, name, def) == hs[i].value)
    ensures (forall i :: 0 <= i < |hs| ==> Lower(hs[i].name) != Lower(name)) ==> GetHeader(hs, name, def) == def
  {
    AfterPlace(hs, name);
    forall i | 0 <= i < |hs|
      ensures Lower(hs[i].name) == Lower(name) ==> i == Place(hs, name)
    {
      LessTotal(Lower(hs[i].name), Lower(name));
    }
  }
}
