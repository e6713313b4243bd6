/** The string built-ins the views rely on, over `seq<char>`:
    `toLowerCase` (restricted to ASCII letters), `includes`, the decimal
    rendering of a number in a template literal, and `parseInt` on a string
    that starts with decimal digits. */
module Text {

  predicate IsUpper(c: char) { 'A' <= c <= 'Z' }

  predicate IsDigit(c: char) { '0' <= c <= '9' }

  predicate IsLower(c: char) { 'a' <= c <= 'z' }

  /** `c.toLowerCase()` on ASCII: an upper-case letter becomes the lower-case letter at the same place in the alphabet. */
  function LowerChar(c: char): (r: char)
    ensures !IsUpper(r)
    ensures !IsUpper(c) ==> r == c
    ensures IsUpper(c) ==> IsLower(r) && r as int - 'a' as int == c as int - 'A' as int
  {
    if IsUpper(c) then (c as int + 32) as char else c
  }

  /** `toLowerCase` on ASCII: every upper-case letter mapped, nothing else touched. */
  function Lower(s: string): (r: string)
    ensures |r| == |s|
    ensures forall i :: 0 <= i < |r| ==> !IsUpper(r[i])
    ensures forall i :: 0 <= i < |s| && !IsUpper(s[i]) ==> r[i] == s[i]
    ensures forall i :: 0 <= i < |s| && IsUpper(s[i]) ==>
      IsLower(r[i]) && r[i] as int - 'a' as int == s[i] as int - 'A' as int
  {
    seq(|s|, i requires 0 <= i < |s| => LowerChar(s[i]))
  }

  /** Two characters are the same letter in either case, or the same character. */
  predicate SameIgnoringCase(a: char, b: char)
  {
    a == b ||
    (IsUpper(a) && IsLower(b) && b as int - 'a' as int == a as int - 'A' as int) ||
    (IsLower(a) && IsUpper(b) && a as int - 'a' as int == b as int - 'A' as int)
  }

  lemma LowerCharIff(a: char, b: char)
    ensures LowerChar(a) == LowerChar(b) <==> SameIgnoringCase(a, b)
  {
  }

  /** Lower-cased strings are equal exactly when the strings agree position by position up to ASCII case. */
  lemma LowerEqualIff(s: string, t: string)
    ensures Lower(s) == Lower(t) <==>
      |s| == |t| && forall i :: 0 <= i < |s| ==> SameIgnoringCase(s[i], t[i])
  {
    if |s| == |t| {
      forall i | 0 <= i < |s| {
        LowerCharIff(s[i], t[i]);
      }
      if Lower(s) != Lower(t) {
        var i :| 0 <= i < |s| && Lower(s)[i] != Lower(t)[i];
      }
    }
  }

  /** `hay.includes(needle)`: the needle occurs in the haystack at some position. */
  predicate Contains(hay: string, needle: string)
    decreases |hay|
  {
    |needle| <= |hay| &&
    (hay[..|needle|] == needle || (0 < |hay| && Contains(hay[1..], needle)))
  }

  /** Independent definition of substring occurrence, by position. */
  ghost predicate OccursAt(hay: string, needle: string, i: int)
  {
    0 <= i && i + |needle| <= |hay| && hay[i..i + |needle|] == needle
  }

  lemma {:induction false} ContainsIff(hay: string, needle: string)
    ensures Contains(hay, needle) <==> exists i :: OccursAt(hay, needle, i)
  {
    if |needle| <= |hay| && hay[..|needle|] != needle && 0 < |hay| {
      ContainsIff(hay[1..], needle);
      if Contains(hay[1..], needle) {
        var i :| OccursAt(hay[1..], needle, i);
        assert hay[1..][i..i + |needle|] == hay[i + 1..i + 1 + |needle|];
        assert OccursAt(hay, needle, i + 1);
      } else {
        forall i | OccursAt(hay, needle, i) ensures false {
          assert i != 0;
          assert hay[1..][i - 1..i - 1 + |needle|] == hay[i..i + |needle|];
          assert OccursAt(hay[1..], needle, i - 1);
        }
      }
    } else if |needle| <= |hay| && hay[..|needle|] == needle {
      assert OccursAt(hay, needle, 0);
    } else if |needle| > |hay| {
      forall i | OccursAt(hay, needle, i) ensures false { }
    }
  }

  /** Every string contains itself and the empty string. */
  lemma ContainsTrivial(s: string)
    ensures Contains(s, s) && Contains(s, "")
  {
    assert s[..|s|] == s;
    assert s[..0] == "";
  }

  function DigitChar(d: nat): (c: char)
    requires d < 10
    ensures IsDigit(c)
  {
    ('0' as int + d) as char
  }

  function DigitValue(c: char): (d: nat)
    requires IsDigit(c)
    ensures d < 10 && DigitChar(d) == c
  {
    c as int - '0' as int
  }

  /** The decimal rendering of a natural number (`${n}`), without leading zeros. */
  function Decimal(n: nat): (r: string)
    ensures |r| > 0 && (r[0] == '0' ==> n == 0)
    ensures forall i :: 0 <= i < |r| ==> IsDigit(r[i])
  {
    if n < 10 then [DigitChar(n)] else Decimal(n / 10) + [DigitChar(n % 10)]
  }

  /** The longest prefix of `s` made of decimal digits. */
  function LeadingDigits(s: string): (r: string)
    ensures |r| <= |s| && r == s[..|r|]
    ensures forall i :: 0 <= i < |r| ==> IsDigit(r[i])
    ensures |r| < |s| ==> !IsDigit(s[|r|])
  {
    if s != [] && IsDigit(s[0]) then [s[0]] + LeadingDigits(s[1..]) else []
  }

  /** The number a string of decimal digits denotes. */
  function DigitsValue(d: string): nat
    requires forall i :: 0 <= i < |d| ==> IsDigit(d[i])
  {
    if d == [] then 0 else DigitsValue(d[..|d| - 1]) * 10 + DigitValue(d[|d| - 1])
  }

  /** `parseInt(s)` for a string that starts with a decimal digit; 0 otherwise. */
  function ParseLeadingInt(s: string): nat
  {
    DigitsValue(LeadingDigits(s))
  }

  lemma {:induction false} DecimalValue(n: nat)
    ensures DigitsValue(Decimal(n)) == n
  {
    if n >= 10 {
      var d := Decimal(n / 10) + [DigitChar(n % 10)];
      assert d[..|d| - 1] == Decimal(n / 10);
      DecimalValue(n / 10);
    }
  }

  lemma {:induction false} LeadingDigitsOfDigits(d: string, rest: string)
    requires forall i :: 0 <= i < |d| ==> IsDigit(d[i])
    requires rest == [] || !IsDigit(rest[0])
    ensures LeadingDigits(d + rest) == d
  {
    if d != [] {
      assert (d + rest)[1..] == d[1..] + rest;
      LeadingDigitsOfDigits(d[1..], rest);
    } else {
      assert d + rest == rest;
    }
  }

  /** Round trip: parsing a rendered number followed by a non-digit suffix yields the number. */
  lemma ParseDecimal(n: nat, suffix: string)
    requires suffix == [] || !IsDigit(suffix[0])
    ensures ParseLeadingInt(Decimal(n) + suffix) == n
  {
    LeadingDigitsOfDigits(Decimal(n), suffix);
    DecimalValue(n);
  }
}
