/** Percent coding (StringUtils::UrlEncode and UrlDecode in src/util.cpp), on bytes. */
module UrlCoding {
  import opened Wrappers

  type byte = x: int | 0 <= x < 256

  const SPACE: byte := 32
  const PERCENT: byte := 37
  const PLUS: byte := 43

  /** The table of bytes left as they are; it has '=' beside the unreserved ones of RFC 3986. */
  predicate Unreserved(c: byte) {
    c == 45 || c == 46 || 48 <= c <= 57 || c == 61 || 65 <= c <= 90 || c == 95 || 97 <= c <= 122 || c == 126
  }

  function HexDigit(d: nat): byte
    requires d < 16
  {
    if d < 10 then 48 + d else 55 + d
  }

  predicate IsDigit(c: byte) {
    48 <= c <= 57
  }

  predicate IsHexDigit(c: byte) {
    IsDigit(c) || 65 <= c <= 70 || 97 <= c <= 102
  }

  /** xdigitChars. */
  function HexValue(c: byte): (d: nat)
    ensures d < 16
  {
    if IsDigit(c) then c - 48 else if 65 <= c <= 70 then c - 55 else if 97 <= c <= 102 then c - 87 else 0
  }

  /** What becomes of one byte. */
  function EncodeByte(c: byte, spaceAsPlus: bool): seq<byte> {
    if Unreserved(c) then [c]
    else if c == SPACE && spaceAsPlus then [PLUS]
    else [PERCENT, HexDigit(c / 16), HexDigit(c % 16)]
  }

  function Encoded(s: seq<byte>, spaceAsPlus: bool): seq<byte> {
    if s == [] then [] else Encoded(s[..|s| - 1], spaceAsPlus) + EncodeByte(s[|s| - 1], spaceAsPlus)
  }

  /** An escape the decoder takes: it asks for a hexadecimal digit and then a decimal one. */
  predicate IsEscape(s: seq<byte>) {
    |s| >= 3 && s[0] == PERCENT && IsHexDigit(s[1]) && IsDigit(s[2])
  }

  function Decoded(s: seq<byte>, spaceAsPlus: bool): seq<byte>
    decreases |s|
  {
    if s == [] then []
    else if s[0] == PLUS && spaceAsPlus then [SPACE] + Decoded(s[1..], spaceAsPlus)
    else if IsEscape(s) then [HexValue(s[1]) * 16 + HexValue(s[2])] + Decoded(s[3..], spaceAsPlus)
    else [s[0]] + Decoded(s[1..], spaceAsPlus)
  }

  // ---------------------------------------------------------------- the loops

  lemma {:induction false} EncodedPlain(s: seq<byte>, spaceAsPlus: bool)
    requires forall i :: 0 <= i < |s| ==> Unreserved(s[i])
    ensures Encoded(s, spaceAsPlus) == s
  {
    if s != [] { EncodedPlain(s[..|s| - 1], spaceAsPlus); }
  }

  lemma EncodedNext(str: seq<byte>, c: nat, spaceAsPlus: bool)
    requires c < |str|
    ensures Encoded(str[..c + 1], spaceAsPlus) == Encoded(str[..c], spaceAsPlus) + EncodeByte(str[c], spaceAsPlus)
  {
    hide EncodeByte;
    assert str[..c + 1][..c] == str[..c];
  }

  /** The encoder copies nothing until the first byte it must change. */
  method UrlEncode(str: seq<byte>, spaceAsPlus: bool) returns (r: seq<byte>)
    ensures r == Encoded(str, spaceAsPlus)
  {
    hide Encoded, HexDigit, Unreserved;
    var ss: Option<seq<byte>> := None;
    var c := 0;
    while c < |str|
      invariant c <= |str|
      invariant ss.None? ==> forall i :: 0 <= i < c ==> Unreserved(str[i])
      invariant ss.Some? ==> ss.value == Encoded(str[..c], spaceAsPlus)
    {
      EncodedNext(str, c, spaceAsPlus);
      if !Unreserved(str[c]) {
        if ss.None? {
          EncodedPlain(str[..c], spaceAsPlus);
          ss := Some(str[..c]);
        }
        if str[c] == SPACE && spaceAsPlus {
          ss := Some(ss.value + [PLUS]);
        } else {
          ss := Some(ss.value + [PERCENT, HexDigit(str[c] / 16), HexDigit(str[c] % 16)]);
        }
      } else if ss.Some? {
        ss := Some(ss.value + [str[c]]);
      }
      c := c + 1;
    }
    assert str[..c] == str;
    if ss.None? {
      EncodedPlain(str, spaceAsPlus);
      return str;
    }
    return ss.value;
  }

  predicate EscapeAt(str: seq<byte>, c: nat) {
    c + 2 < |str| && str[c] == PERCENT && IsHexDigit(str[c + 1]) && IsDigit(str[c + 2])
  }

  /** One turn of the decoder. */
  lemma DecodedAt(done: seq<byte>, str: seq<byte>, c: nat, spaceAsPlus: bool)
    requires c < |str|
    ensures done + Decoded(str[c..], spaceAsPlus) ==
            if str[c] == PLUS && spaceAsPlus then done + [SPACE] + Decoded(str[c + 1..], spaceAsPlus)
            else if EscapeAt(str, c) then
              done + [HexValue(str[c + 1]) * 16 + HexValue(str[c + 2])] + Decoded(str[c + 3..], spaceAsPlus)
            else done + [str[c]] + Decoded(str[c + 1..], spaceAsPlus)
  {
    hide HexValue, IsHexDigit, IsDigit;
    var rest := str[c..];
    assert rest[1..] == str[c + 1..];
    assert |rest| >= 3 ==> rest[3..] == str[c + 3..];
    assert IsEscape(rest) <==> EscapeAt(str, c);
  }

  /** The decoder likewise. */
  method UrlDecode(str: seq<byte>, spaceAsPlus: bool) returns (r: seq<byte>)
    ensures r == Decoded(str, spaceAsPlus)
  {
    hide Decoded, HexValue, IsHexDigit, IsDigit;
    var ss: Option<seq<byte>> := None;
    var c := 0;
    assert str[0..] == str;
    while c < |str|
      invariant c <= |str|
      invariant (if ss.None? then str[..c] else ss.value) + Decoded(str[c..], spaceAsPlus) == Decoded(str, spaceAsPlus)
    {
      DecodedAt(if ss.None? then str[..c] else ss.value, str, c, spaceAsPlus);
      assert str[..c + 1] == str[..c] + [str[c]];
      if str[c] == PLUS && spaceAsPlus {
        if ss.None? {
          ss := Some(str[..c]);
        }
        ss := Some(ss.value + [SPACE]);
      } else if EscapeAt(str, c) {
        if ss.None? {
          ss := Some(str[..c]);
        }
        ss := Some(ss.value + [HexValue(str[c + 1]) * 16 + HexValue(str[c + 2])]);
        c := c + 2;
      } else if ss.Some? {
        ss := Some(ss.value + [str[c]]);
      }
      c := c + 1;
    }
    DecodedNothing(spaceAsPlus);
    assert str[c..] == [] && str[..c] == str;
    r := if ss.None? then str else ss.value;
    assert r + [] == r;
  }

  lemma DecodedNothing(spaceAsPlus: bool)
    ensures Decoded([], spaceAsPlus) == []
  {
  }

  // ---------------------------------------------------------------- in characters

  const UPPER_HEX: string := "0123456789ABCDEF"
  const LOWER_HEX: string := "0123456789abcdef"
  const KEPT_SIGNS: string := "-.=_~"
  const LETTERS: string := "ABCDEFGHIJKLMNOPQRSTUVWXYZ"
  const SMALL_LETTERS: string := "abcdefghijklmnopqrstuvwxyz"
  const DIGITS: string := "0123456789"

  predicate Among(c: byte, text: string) {
    exists k :: 0 <= k < |text| && text[k] as int == c
  }

  lemma TablesAre(k: nat)
    ensures k < 10 ==> DIGITS[k] as int == 48 + k
    ensures k < 16 ==> UPPER_HEX[k] as int == (if k < 10 then 48 + k else 55 + k)
    ensures k < 16 ==> LOWER_HEX[k] as int == (if k < 10 then 48 + k else 87 + k)
    ensures k < 26 ==> LETTERS[k] as int == 65 + k && SMALL_LETTERS[k] as int == 97 + k
    ensures k < 5 ==> KEPT_SIGNS[k] as int == [45, 46, 61, 95, 126][k]
  {
  }

  /** The bytes left as they are: letters, digits and five signs. */
  lemma UnreservedIs(c: byte)
    ensures Unreserved(c) <==> Among(c, LETTERS) || Among(c, SMALL_LETTERS) || Among(c, DIGITS) || Among(c, KEPT_SIGNS)
  {
    forall k: nat
      ensures k < 10 ==> DIGITS[k] as int == 48 + k
      ensures k < 26 ==> LETTERS[k] as int == 65 + k && SMALL_LETTERS[k] as int == 97 + k
      ensures k < 5 ==> KEPT_SIGNS[k] as int == [45, 46, 61, 95, 126][k]
    {
      TablesAre(k);
    }
    if 48 <= c <= 57 { assert DIGITS[c - 48] as int == c; }
    if 65 <= c <= 90 { assert LETTERS[c - 65] as int == c; }
    if 97 <= c <= 122 { assert SMALL_LETTERS[c - 97] as int == c; }
    assert KEPT_SIGNS[0] as int == 45 && KEPT_SIGNS[1] as int == 46 && KEPT_SIGNS[2] as int == 61
           && KEPT_SIGNS[3] as int == 95 && KEPT_SIGNS[4] as int == 126;
  }

  /** An escape is written with two upper-case digits, the high half first. */
  lemma EscapeWritten(c: byte, spaceAsPlus: bool)
    ensures EncodeByte(c, spaceAsPlus)
            == if Unreserved(c) then [c] else if c == 32 && spaceAsPlus then [43]
               else [37, UPPER_HEX[c / 16] as int, UPPER_HEX[c % 16] as int]
  {
    TablesAre(c / 16);
    TablesAre(c % 16);
  }

  /** An escape of either case is read as what it says if its second digit is a decimal one, else the percent
      sign is taken as it is; a plus sign is a blank or itself. */
  lemma EscapeRead(h: nat, l: nat, upper: bool, lowUpper: bool, rest: seq<byte>, spaceAsPlus: bool)
    requires h < 16 && l < 16
    ensures var hex, low := if upper then UPPER_HEX[h] else LOWER_HEX[h], if lowUpper then UPPER_HEX[l] else LOWER_HEX[l];
            var s := [37, hex as int, low as int] + rest;
            Decoded(s, spaceAsPlus) == if l <= 9 then [16 * h + l] + Decoded(rest, spaceAsPlus) else [37] + Decoded(s[1..], spaceAsPlus)
    ensures Decoded([43] + rest, spaceAsPlus) == (if spaceAsPlus then [32] else [43]) + Decoded(rest, spaceAsPlus)
  {
    TablesAre(h);
    TablesAre(l);
    var hex, low := if upper then UPPER_HEX[h] else LOWER_HEX[h], if lowUpper then UPPER_HEX[l] else LOWER_HEX[l];
    var s := [37, hex as int, low as int] + rest;
    assert s[3..] == rest && ([43] + rest)[1..] == rest;
  }

  // ---------------------------------------------------------------- round trip

  predicate Escaped(c: byte, spaceAsPlus: bool) {
    !Unreserved(c) && !(c == SPACE && spaceAsPlus)
  }

  /** What comes back of one byte: itself, or its escape undecoded. */
  function Back(c: byte, spaceAsPlus: bool): seq<byte> {
    if Escaped(c, spaceAsPlus) && c % 16 > 9 then EncodeByte(c, spaceAsPlus) else [c]
  }

  function AllBack(s: seq<byte>, spaceAsPlus: bool): seq<byte> {
    if s == [] then [] else Back(s[0], spaceAsPlus) + AllBack(s[1..], spaceAsPlus)
  }

  lemma {:induction false} EncodedCons(s: seq<byte>, spaceAsPlus: bool)
    requires s != []
    ensures Encoded(s, spaceAsPlus) == EncodeByte(s[0], spaceAsPlus) + Encoded(s[1..], spaceAsPlus)
  {
    hide EncodeByte;
    if |s| == 1 {
      assert s[..0] == [] && s[1..] == [];
    } else {
      EncodedCons(s[..|s| - 1], spaceAsPlus);
      assert s[..|s| - 1][1..] == s[1..][..|s[1..]| - 1];
    }
  }

  lemma HexIsPlain(d: nat)
    requires d < 16
    ensures IsHexDigit(HexDigit(d)) && HexValue(HexDigit(d)) == d && (IsDigit(HexDigit(d)) <==> d <= 9)
    ensures HexDigit(d) != PERCENT && HexDigit(d) != PLUS
  {
  }

  /** Decoding the code of a byte and whatever follows. */
  lemma DecodeByte(c: byte, rest: seq<byte>, spaceAsPlus: bool)
    ensures Decoded(EncodeByte(c, spaceAsPlus) + rest, spaceAsPlus) == Back(c, spaceAsPlus) + Decoded(rest, spaceAsPlus)
  {
    hide HexDigit, HexValue, IsHexDigit, IsDigit;
    if Escaped(c, spaceAsPlus) {
      DecodeEscape(c, rest, spaceAsPlus);
    } else {
      assert (EncodeByte(c, spaceAsPlus) + rest)[1..] == rest;
    }
  }

  lemma DecodeEscape(c: byte, rest: seq<byte>, spaceAsPlus: bool)
    requires Escaped(c, spaceAsPlus)
    ensures Decoded(EncodeByte(c, spaceAsPlus) + rest, spaceAsPlus) == Back(c, spaceAsPlus) + Decoded(rest, spaceAsPlus)
  {
    hide HexDigit, HexValue, IsHexDigit, IsDigit;
    var h, l := HexDigit(c / 16), HexDigit(c % 16);
    HexIsPlain(c / 16);
    HexIsPlain(c % 16);
    Spread(PERCENT, h, l, rest);
    if c % 16 > 9 {
      Spread(PERCENT, h, l, Decoded(rest, spaceAsPlus));
      PlainFirst(l, rest, spaceAsPlus);
      PlainFirst(h, [l] + rest, spaceAsPlus);
    }
  }

  lemma Spread(p: byte, h: byte, l: byte, rest: seq<byte>)
    ensures [p, h, l] + rest == [p] + ([h] + ([l] + rest))
    ensures ([p, h, l] + rest)[1..] == [h] + ([l] + rest) && ([p, h, l] + rest)[3..] == rest
  {
  }

  /** A byte that means nothing special is taken as it is. */
  lemma PlainFirst(x: byte, rest: seq<byte>, spaceAsPlus: bool)
    requires x != PERCENT && x != PLUS
    ensures Decoded([x] + rest, spaceAsPlus) == [x] + Decoded(rest, spaceAsPlus)
  {
    assert ([x] + rest)[1..] == rest;
  }

  lemma {:induction false} DecodeEncode(s: seq<byte>, spaceAsPlus: bool)
    ensures Decoded(Encoded(s, spaceAsPlus), spaceAsPlus) == AllBack(s, spaceAsPlus)
    decreases |s|
  {
    if s != [] {
      EncodedCons(s, spaceAsPlus);
      DecodeByte(s[0], Encoded(s[1..], spaceAsPlus), spaceAsPlus);
      DecodeEncode(s[1..], spaceAsPlus);
    }
  }

  lemma {:induction false} AllBackSize(s: seq<byte>, spaceAsPlus: bool)
    ensures |AllBack(s, spaceAsPlus)| >= |s|
    ensures AllBack(s, spaceAsPlus) == s <==> forall i :: 0 <= i < |s| ==> !(Escaped(s[i], spaceAsPlus) && s[i] % 16 > 9)
    ensures (exists i :: 0 <= i < |s| && Escaped(s[i], spaceAsPlus) && s[i] % 16 > 9) ==> |AllBack(s, spaceAsPlus)| > |s|
  {
    if s != [] {
      AllBackSize(s[1..], spaceAsPlus);
      assert s == [s[0]] + s[1..];
      assert forall i :: 1 <= i < |s| ==> s[i] == s[1..][i - 1];
      if exists i :: 0 <= i < |s| && Escaped(s[i], spaceAsPlus) && s[i] % 16 > 9 {
        var i :| 0 <= i < |s| && Escaped(s[i], spaceAsPlus) && s[i] % 16 > 9;
        if i > 0 { assert s[1..][i - 1] == s[i]; }
      }
    }
  }

  /** Decoding undoes encoding exactly on the texts in which no escaped byte has a low half above 9, for
      both ways of writing a blank. */
  lemma RoundTripIff(s: seq<byte>, spaceAsPlus: bool)
    ensures Decoded(Encoded(s, spaceAsPlus), spaceAsPlus) == s
            <==> forall i :: 0 <= i < |s| ==> Escaped(s[i], spaceAsPlus) ==> s[i] % 16 <= 9
  {
    DecodeEncode(s, spaceAsPlus);
    AllBackSize(s, spaceAsPlus);
  }
}
