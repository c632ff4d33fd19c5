/** String primitives the watch pass relies on: lower-casing of a title
    (Python's `str.lower`, restricted to ASCII), the substring test behind
    Python's `keyword in title`, and the decimal rendering of an `int` that
    an f-string produces. */
module Text {

  predicate IsUpper(c: char) {
    'A' <= c <= 'Z'
  }

  /** Maps an ASCII capital to its small letter; every other character is
      left alone. */
  function LowerChar(c: char): (r: char)
    ensures !IsUpper(r)
    ensures !IsUpper(c) ==> r == c
    ensures IsUpper(c) ==> 'a' <= r <= 'z' && r as int - c as int == 'a' as int - 'A' as int
  {
    if IsUpper(c) then (c as int - 'A' as int + 'a' as int) as char else c
  }

  /** `s.lower()`: the string with every character lower-cased in place. */
  function Lower(s: string): (r: string)
    ensures |r| == |s|
    ensures forall i :: 0 <= i < |s| ==> r[i] == LowerChar(s[i])
    ensures forall i :: 0 <= i < |r| ==> !IsUpper(r[i])
  {
    if s == [] then [] else [LowerChar(s[0])] + Lower(s[1..])
  }

  /** `needle` occurs in `hay` starting at position `i`. */
  predicate OccursAt(needle: string, hay: string, i: int) {
    0 <= i && i + |needle| <= |hay| && hay[i..i + |needle|] == needle
  }

  /** The meaning of Python's `needle in hay` on strings. */
  ghost predicate IsSubstring(needle: string, hay: string) {
    exists i :: OccursAt(needle, hay, i)
  }

  /** Python's `needle in hay`, computed by trying every start position. */
  function Contains(needle: string, hay: string): (r: bool)
    ensures r <==> IsSubstring(needle, hay)
  {
    ContainsFrom(needle, hay, 0)
  }

  function ContainsFrom(needle: string, hay: string, start: nat): (r: bool)
    ensures r <==> exists i :: start <= i && OccursAt(needle, hay, i)
    decreases |hay| - start
  {
    if start + |needle| > |hay| then false
    else if hay[start..start + |needle|] == needle then assert OccursAt(needle, hay, start); true
    else ContainsFrom(needle, hay, start + 1)
  }

  /** Whatever surrounds it, a string occurs in a concatenation it is the
      middle part of. */
  lemma OccursInMiddle(x: string, y: string, z: string)
    ensures OccursAt(y, x + y + z, |x|)
    ensures IsSubstring(y, x + y + z)
  {
    assert (x + y + z)[|x|..|x| + |y|] == y;
    assert OccursAt(y, x + y + z, |x|);
  }

  /** The pieces glued end to end, as an f-string does. */
  function Concat(parts: seq<string>): string {
    if parts == [] then [] else parts[0] + Concat(parts[1..])
  }

  lemma ConcatOfFour(a: string, b: string, c: string, d: string)
    ensures Concat([a, b, c, d]) == a + b + c + d
  {
    assert [a, b, c, d][1..] == [b, c, d] && [b, c, d][1..] == [c, d] && [c, d][1..] == [d];
    calc {
      Concat([a, b, c, d]);
      a + Concat([b, c, d]);
      a + (b + Concat([c, d]));
      a + (b + (c + Concat([d])));
      a + (b + (c + (d + Concat([]))));
      a + b + c + d;
    }
  }

  /** A string occurring in the right operand of a concatenation occurs in
      the whole. */
  lemma SubstringOfSuffix(needle: string, x: string, hay: string)
    requires IsSubstring(needle, hay)
    ensures IsSubstring(needle, x + hay)
  {
    var i :| OccursAt(needle, hay, i);
    assert (x + hay)[|x| + i..|x| + i + |needle|] == hay[i..i + |needle|];
    assert OccursAt(needle, x + hay, |x| + i);
  }

  /** Every piece of an f-string occurs in its result. */
  lemma {:induction false} PartOfConcat(parts: seq<string>, j: nat)
    requires j < |parts|
    ensures IsSubstring(parts[j], Concat(parts))
  {
    if j == 0 {
      OccursInMiddle([], parts[0], Concat(parts[1..]));
      assert [] + parts[0] + Concat(parts[1..]) == Concat(parts);
    } else {
      PartOfConcat(parts[1..], j - 1);
      SubstringOfSuffix(parts[j], parts[0], Concat(parts[1..]));
    }
  }

  /** A needle holding a character the haystack lacks does not occur in it. */
  lemma MissingCharNotSubstring(needle: string, hay: string, c: char)
    requires c in needle && c !in hay
    ensures !IsSubstring(needle, hay)
  {
  }

  predicate IsDigit(c: char) {
    '0' <= c <= '9'
  }

  function DigitChar(d: nat): (c: char)
    requires d < 10
    ensures IsDigit(c) && c as int - '0' as int == d
  {
    ('0' as int + d) as char
  }

  /** The decimal digits of `n`, most significant first, without leading
      zeros. */
  function NatToString(n: nat): (r: string)
    ensures 1 <= |r|
    ensures forall i :: 0 <= i < |r| ==> IsDigit(r[i])
    ensures r[0] == '0' ==> r == "0"
  {
    if n < 10 then [DigitChar(n)] else NatToString(n / 10) + [DigitChar(n % 10)]
  }

  /** `str(n)` (and `f"{n}"`) for a Python `int`. */
  function IntToString(n: int): (r: string)
    ensures 1 <= |r|
    ensures n < 0 <==> r[0] == '-'
  {
    if n < 0 then "-" + NatToString(-n) else NatToString(n)
  }

  /** Reads back a string of decimal digits. */
  function ParseNat(s: string): nat
    requires forall i :: 0 <= i < |s| ==> IsDigit(s[i])
  {
    if s == [] then 0
    else
      assert IsDigit(s[|s| - 1]);
      ParseNat(s[..|s| - 1]) * 10 + (s[|s| - 1] as int - '0' as int)
  }

  /** Reads back an optionally signed decimal numeral. */
  function ParseInt(s: string): int
    requires s != [] && s[0] == '-' ==> forall i :: 1 <= i < |s| ==> IsDigit(s[i])
    requires s == [] || s[0] != '-' ==> forall i :: 0 <= i < |s| ==> IsDigit(s[i])
  {
    if s != [] && s[0] == '-' then -(ParseNat(s[1..]) as int) else ParseNat(s)
  }

  lemma {:induction false} NatRoundTrip(n: nat)
    ensures ParseNat(NatToString(n)) == n
  {
    if n >= 10 {
      var r := NatToString(n);
      assert r[..|r| - 1] == NatToString(n / 10);
      NatRoundTrip(n / 10);
    }
  }

  /** The rendered score reads back as the score: the decimal text loses
      nothing. */
  lemma IntRoundTrip(n: int)
    ensures ParseInt(IntToString(n)) == n
  {
    if n < 0 {
      assert IntToString(n)[1..] == NatToString(-n);
      NatRoundTrip(-n);
    } else {
      NatRoundTrip(n);
    }
  }
}
