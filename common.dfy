// Shared vocabulary: an Option type, the decimal rendering of Python's str(int)
// together with the parser int() applies to the strings Redis hands back, and
// the substring tests that Python writes as `in` and `startswith`.
module Common {

  datatype Option<+T> = None | Some(value: T)

  /** How often `for _ in range(n)` runs: never for n <= 0. */
  function Times(n: int): nat
  {
    if n > 0 then n else 0
  }

  predicate IsDigit(c: char) { '0' <= c <= '9' }

  predicate IsDigits(s: string) { forall i :: 0 <= i < |s| ==> IsDigit(s[i]) }

  function DigitChar(d: int): (c: char)
    requires 0 <= d <= 9
    ensures IsDigit(c) && DigitValue(c) == d
  {
    ['0', '1', '2', '3', '4', '5', '6', '7', '8', '9'][d]
  }

  function DigitValue(c: char): int
    requires IsDigit(c)
  {
    c as int - '0' as int
  }

  /** str(n) for a natural number n: the shortest decimal numeral. */
  function NatToString(n: nat): (s: string)
    ensures s != [] && IsDigits(s)
    ensures |s| > 1 ==> s[0] != '0'
  {
    if n < 10 then [DigitChar(n)] else NatToString(n / 10) + [DigitChar(n % 10)]
  }

  /** str(i) for any integer: a minus sign in front of negative values. */
  function IntToString(i: int): (s: string)
    ensures s != []
    ensures i >= 0 <==> IsDigit(s[0])
  {
    if i < 0 then "-" + NatToString(-i) else NatToString(i)
  }

  /** The value of a string of decimal digits, most significant digit first. */
  function DigitsValue(s: string): (n: nat)
    requires IsDigits(s)
  {
    if s == [] then 0 else DigitsValue(s[..|s| - 1]) * 10 + DigitValue(s[|s| - 1])
  }

  /**
   * int(s) for the strings this system itself stores: None stands for the
   * ValueError int() raises on a string that is not a decimal numeral.
   */
  function ParseNat(s: string): (r: Option<nat>)
    ensures r.Some? <==> s != [] && IsDigits(s)
  {
    if s != [] && IsDigits(s) then Some(DigitsValue(s)) else None
  }

  lemma {:induction false} ParseNatToString(n: nat)
    ensures ParseNat(NatToString(n)) == Some(n)
  {
    var s := NatToString(n);
    if n >= 10 {
      ParseNatToString(n / 10);
      var front := NatToString(n / 10);
      assert s[..|s| - 1] == front;
      assert DigitsValue(s) == DigitsValue(front) * 10 + n % 10;
    }
  }

  /** The position of the first c in s, or |s| when c does not occur. */
  function FirstIndexOf(s: string, c: char): (i: nat)
    ensures i <= |s|
  {
    if s == [] || s[0] == c then 0 else 1 + FirstIndexOf(s[1..], c)
  }

  lemma {:induction false} FirstIndexAfter(before: string, c: char, after: string)
    requires c !in before
    ensures FirstIndexOf(before + [c] + after, c) == |before|
  {
    if before != [] {
      assert (before + [c] + after)[1..] == before[1..] + [c] + after;
      FirstIndexAfter(before[1..], c, after);
    }
  }

  /** Splitting at the first c is unique: when the part before it has no c, both parts are determined. */
  lemma SplitAtFirst(before1: string, after1: string, before2: string, after2: string, c: char)
    requires c !in before1 && c !in before2
    requires before1 + [c] + after1 == before2 + [c] + after2
    ensures before1 == before2 && after1 == after2
  {
    var s := before1 + [c] + after1;
    FirstIndexAfter(before1, c, after1);
    FirstIndexAfter(before2, c, after2);
    assert before1 == s[..|before1|] == before2;
    assert after1 == s[|before1| + 1..] == after2;
  }

  predicate StartsWith(s: string, prefix: string)
  {
    |prefix| <= |s| && s[..|prefix|] == prefix
  }

  /** Python's `sub in s` for strings: sub occurs somewhere in s. */
  predicate Contains(s: string, sub: string)
  {
    exists i :: 0 <= i <= |s| && StartsWith(s[i..], sub)
  }

  lemma ContainsSelf(s: string)
    ensures Contains(s, s)
  {
    assert StartsWith(s[0..], s);
  }

  /** An occurrence survives putting more text on either side. */
  lemma ContainsExtend(s: string, sub: string, t: string)
    requires Contains(s, sub)
    ensures Contains(s + t, sub) && Contains(t + s, sub)
  {
    var i :| 0 <= i <= |s| && StartsWith(s[i..], sub);
    assert (s + t)[i..][..|sub|] == s[i..][..|sub|];
    assert StartsWith((s + t)[i..], sub);
    assert (t + s)[|t| + i..] == s[i..];
  }
}

// The character classes of Python's `string` module that the generators draw
// from, and a random draw from an alphabet with the random source made explicit.
module Alphabets {

  /** The n consecutive characters starting at first. */
  function CharRange(first: char, n: nat): (r: string)
    requires first as int + n <= 0xD800
    ensures |r| == n
    ensures forall i :: 0 <= i < n ==> r[i] as int == first as int + i
  {
    seq(n, i requires 0 <= i < n => (first as int + i) as char)
  }

  /** string.ascii_lowercase, "abc...z". */
  const AsciiLowercase: string := CharRange('a', 26)
  /** string.ascii_uppercase, "ABC...Z". */
  const AsciiUppercase: string := CharRange('A', 26)
  /** string.ascii_letters: lower case first, then upper case. */
  const AsciiLetters: string := AsciiLowercase + AsciiUppercase
  /** string.digits, "0123456789". */
  const Digits: string := CharRange('0', 10)

  predicate IsAsciiUpper(c: char) { 'A' <= c <= 'Z' }
  predicate IsAsciiLetter(c: char) { 'a' <= c <= 'z' || 'A' <= c <= 'Z' }
  predicate IsDigitChar(c: char) { '0' <= c <= '9' }
  predicate IsHexDigit(c: char) { '0' <= c <= '9' || 'a' <= c <= 'f' }

  /** No character occurs twice. */
  predicate Distinct(s: string)
  {
    forall i, j :: 0 <= i < j < |s| ==> s[i] != s[j]
  }

  /** The picks are valid positions in the alphabet. */
  predicate ValidPicks(alphabet: string, picks: seq<int>)
  {
    forall i :: 0 <= i < |picks| ==> 0 <= picks[i] < |alphabet|
  }

  /**
   * ''.join(choice(alphabet) for _ in range(len(picks))), where the i-th
   * choice returned the character at position picks[i].
   */
  function Draw(alphabet: string, picks: seq<int>): (r: string)
    requires ValidPicks(alphabet, picks)
    ensures |r| == |picks|
    ensures forall i :: 0 <= i < |r| ==> r[i] in alphabet
  {
    seq(|picks|, i requires 0 <= i < |picks| => alphabet[picks[i]])
  }

  /**
   * Draws over ASCII letters followed by digits, the alphabet that
   * generate_mixed_code and generate_random_password both choose from.
   */
  function DrawLettersDigits(picks: seq<int>): (r: string)
    requires ValidPicks(AsciiLetters + Digits, picks)
    ensures |r| == |picks|
    ensures forall i :: 0 <= i < |r| ==> IsAsciiLetter(r[i]) || IsDigitChar(r[i])
  {
    LettersThenDigits();
    Draw(AsciiLetters + Digits, picks)
  }

  /** str.replace(c, ''): every occurrence of c removed, the rest kept in order. */
  function RemoveChar(s: string, c: char): (r: string)
    ensures c !in r
    ensures forall x :: x in r <==> x in s && x != c
  {
    if s == [] then []
    else if s[0] == c then RemoveChar(s[1..], c)
    else [s[0]] + RemoveChar(s[1..], c)
  }

  /** Removing a character from a string without repetitions shortens it by one exactly when it occurs. */
  lemma {:induction false} RemoveCharFromDistinct(s: string, c: char)
    requires Distinct(s)
    ensures Distinct(RemoveChar(s, c))
    ensures |RemoveChar(s, c)| == if c in s then |s| - 1 else |s|
  {
    if s != [] {
      assert Distinct(s[1..]);
      RemoveCharFromDistinct(s[1..], c);
      if s[0] == c {
        assert c !in s[1..];
      } else {
        var rest := RemoveChar(s[1..], c);
        assert s[0] !in rest;
        assert c in s <==> c in s[1..];
        assert forall j :: 0 < j < |[s[0]] + rest| ==> ([s[0]] + rest)[j] == rest[j - 1];
      }
    }
  }

  /** The alphabet generate_alphanumeric_code starts from: 36 characters, none repeated. */
  lemma UpperThenDigits()
    ensures Distinct(AsciiUppercase + Digits)
    ensures forall x :: x in AsciiUppercase + Digits <==> IsAsciiUpper(x) || IsDigitChar(x)
  {
    var s := AsciiUppercase + Digits;
    forall x | IsAsciiUpper(x) || IsDigitChar(x) ensures x in s {
      if IsAsciiUpper(x) {
        assert s[x as int - 'A' as int] == x;
      } else {
        assert s[26 + x as int - '0' as int] == x;
      }
    }
  }

  /** The alphabet of generate_mixed_code and generate_random_password: letters and digits. */
  lemma LettersThenDigits()
    ensures forall x :: x in AsciiLetters + Digits <==> IsAsciiLetter(x) || IsDigitChar(x)
  {
    var s := AsciiLetters + Digits;
    forall x | IsAsciiLetter(x) || IsDigitChar(x) ensures x in s {
      if 'a' <= x <= 'z' {
        assert s[x as int - 'a' as int] == x;
      } else if 'A' <= x <= 'Z' {
        assert s[26 + x as int - 'A' as int] == x;
      } else {
        assert s[52 + x as int - '0' as int] == x;
      }
    }
  }
}
