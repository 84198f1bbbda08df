/**
 * The few PHP string primitives the plugin relies on, over `string`
 * (a sequence of characters; PHP's byte strings are taken to be ASCII here).
 */
module PhpStrings {

  /** `strpos($haystack, $needle) !== false`: the needle occurs somewhere. */
  function Contains(haystack: string, needle: string): (found: bool)
    ensures found ==> |needle| <= |haystack|
    ensures OccursAt(haystack, needle, 0) ==> found
  {
    exists i | 0 <= i <= |haystack| - |needle| :: OccursAt(haystack, needle, i)
  }

  /** A needle that is not at the front occurs in the string exactly when it occurs in its tail. */
  lemma ContainsStep(haystack: string, needle: string)
    requires |haystack| > 0 && !OccursAt(haystack, needle, 0)
    ensures Contains(haystack, needle) <==> Contains(haystack[1..], needle)
  {
    if Contains(haystack, needle) {
      var i :| 0 <= i <= |haystack| - |needle| && OccursAt(haystack, needle, i);
      assert haystack[1..][i - 1..i - 1 + |needle|] == haystack[i..i + |needle|];
      assert OccursAt(haystack[1..], needle, i - 1);
    }
    if Contains(haystack[1..], needle) {
      var i :| 0 <= i <= |haystack| - 1 - |needle| && OccursAt(haystack[1..], needle, i);
      assert haystack[1..][i..i + |needle|] == haystack[i + 1..i + 1 + |needle|];
      assert OccursAt(haystack, needle, i + 1);
    }
  }

  /** The needle starts at position `i` of the haystack. */
  predicate OccursAt(haystack: string, needle: string, i: int) {
    0 <= i <= |haystack| - |needle| && haystack[i..i + |needle|] == needle
  }

  /** PHP's `empty()` on a string value: the empty string and "0" are empty. */
  function IsEmpty(s: string): (empty: bool)
    ensures empty <==> s == "" || s == IntToString(0)
  {
    s == "" || s == "0"
  }

  /** `strtoupper` on one ASCII character. */
  function UpperChar(c: char): (u: char)
    ensures 'a' <= c <= 'z' ==> u as int == c as int - 32
    ensures !('a' <= c <= 'z') ==> u == c
  {
    if 'a' <= c <= 'z' then (c as int - 32) as char else c
  }

  /** `strtoupper`: upper-cases the ASCII letters and keeps everything else. */
  function Upper(s: string): (r: string)
    ensures |r| == |s|
    ensures forall i | 0 <= i < |s| :: r[i] == UpperChar(s[i])
  {
    if s == [] then [] else [UpperChar(s[0])] + Upper(s[1..])
  }

  /** The only characters `strtoupper` turns into `c`: `c` itself and, for a capital letter, its lower-case form. */
  lemma UpperCharInverse(x: char, c: char)
    requires 'A' <= c <= 'Z'
    ensures UpperChar(x) == c <==> x == c || x as int == c as int + 32
  {
  }

  /** `strtoupper($s) === 'ASC'` holds exactly for the spellings of "asc" in any mix of cases. */
  lemma {:induction false} UpperIsAsc(s: string)
    ensures Upper(s) == "ASC" <==>
              |s| == 3 && (s[0] == 'a' || s[0] == 'A') && (s[1] == 's' || s[1] == 'S') && (s[2] == 'c' || s[2] == 'C')
  {
    if |s| == 3 {
      UpperCharInverse(s[0], 'A');
      UpperCharInverse(s[1], 'S');
      UpperCharInverse(s[2], 'C');
    }
  }

  predicate IsDigit(c: char) {
    '0' <= c <= '9'
  }

  predicate AllDigits(s: string) {
    forall i | 0 <= i < |s| :: IsDigit(s[i])
  }

  function DigitChar(d: nat): (c: char)
    requires d < 10
    ensures IsDigit(c) && c as int - '0' as int == d
  {
    ('0' as int + d) as char
  }

  /** The decimal digits of `n`, most significant first, without leading zeros. */
  function NatToString(n: nat): (s: string)
    ensures |s| > 0 && AllDigits(s)
    ensures n > 0 ==> s[0] != '0'
    ensures n == 0 ==> s == "0"
    decreases n
  {
    if n < 10 then [DigitChar(n)] else NatToString(n / 10) + [DigitChar(n % 10)]
  }

  /** The value of a string of decimal digits. */
  function ParseNat(s: string): (n: nat)
    requires AllDigits(s)
    decreases |s|
  {
    if s == [] then 0 else ParseNat(s[..|s| - 1]) * 10 + (s[|s| - 1] as int - '0' as int)
  }

  lemma {:induction false} ParseNatToString(n: nat)
    ensures ParseNat(NatToString(n)) == n
    decreases n
  {
    if n >= 10 {
      var s := NatToString(n);
      assert s[..|s| - 1] == NatToString(n / 10);
      ParseNatToString(n / 10);
    }
  }

  /** A well-formed decimal integer: digits, optionally after a minus sign. */
  predicate IsIntString(s: string) {
    if |s| > 0 && s[0] == '-' then |s| > 1 && AllDigits(s[1..]) else |s| > 0 && AllDigits(s)
  }

  /** How `echo` writes an `int`. */
  function IntToString(n: int): (s: string)
    ensures IsIntString(s)
    ensures s[0] == '-' <==> n < 0
    ensures n == 0 ==> s == "0"
    ensures n != 0 ==> s[if n < 0 then 1 else 0] != '0'
  {
    if n < 0 then "-" + NatToString(-n) else NatToString(n)
  }

  function ParseInt(s: string): (n: int)
    requires IsIntString(s)
  {
    if s[0] == '-' then -(ParseNat(s[1..]) as int) else ParseNat(s)
  }

  /** Reading back what `echo` wrote for an integer gives that integer. */
  lemma IntRoundTrip(n: int)
    ensures ParseInt(IntToString(n)) == n
  {
    if n < 0 {
      assert IntToString(n)[1..] == NatToString(-n);
      ParseNatToString(-n);
    } else {
      ParseNatToString(n);
    }
  }
}
