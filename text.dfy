/**
 * The two string operations of Python's `str` that the task store relies on:
 * `strip()` (api.py trims task names) and `lower()` (case-insensitive answers
 * and sort orders).
 */
module Text {

  /** The characters Python's `str.isspace()` accepts, i.e. what `str.strip()` removes. */
  predicate IsSpace(c: char)
  {
    || c == ' '
    || ('\t' <= c <= '\r')
    || ('\U{1C}' <= c <= '\U{1F}')
    || c == '\U{85}' || c == '\U{A0}' || c == '\U{1680}'
    || ('\U{2000}' <= c <= '\U{200A}')
    || c == '\U{2028}' || c == '\U{2029}' || c == '\U{202F}' || c == '\U{205F}' || c == '\U{3000}'
  }

  ghost predicate AllSpace(s: string)
  {
    forall i :: 0 <= i < |s| ==> IsSpace(s[i])
  }

  /** Length of the whitespace prefix of `s`. */
  function LeadingSpace(s: string): (n: nat)
    ensures n <= |s| && AllSpace(s[..n])
    ensures n < |s| ==> !IsSpace(s[n])
  {
    if s == [] || !IsSpace(s[0]) then 0
    else
      var k := LeadingSpace(s[1..]);
      assert s[..k + 1] == [s[0]] + s[1..][..k];
      k + 1
  }

  /** Length of the whitespace suffix of `s`. */
  function TrailingSpace(s: string): (n: nat)
    ensures n <= |s| && AllSpace(s[|s| - n..])
    ensures n < |s| ==> !IsSpace(s[|s| - n - 1])
  {
    if s == [] || !IsSpace(s[|s| - 1]) then 0
    else
      var init := s[..|s| - 1];
      var k := TrailingSpace(init);
      assert s[|s| - (k + 1)..] == init[|init| - k..] + [s[|s| - 1]];
      k + 1
  }

  /** Python's `s.strip()`: `s` without its leading and trailing whitespace. */
  function Strip(s: string): (r: string)
    ensures |r| <= |s|
    ensures r == [] || (!IsSpace(r[0]) && !IsSpace(r[|r| - 1]))
    ensures exists i, j :: 0 <= i <= j <= |s| && r == s[i..j] && AllSpace(s[..i]) && AllSpace(s[j..])
    ensures r == [] <==> AllSpace(s)
  {
    var lead := LeadingSpace(s);
    if lead == |s| then
      assert s[..lead] == s;
      assert s[lead..] == [];
      []
    else
      var trail := TrailingSpace(s);
      assert |s| - trail > lead;
      var r := s[lead..|s| - trail];
      assert r[0] == s[lead] && r[|r| - 1] == s[|s| - trail - 1];
      assert !AllSpace(s) by { assert !IsSpace(s[lead]); }
      r
  }

  /** Python's `c.lower()` on ASCII letters; every other character is left alone. */
  function LowerChar(c: char): char
  {
    if 'A' <= c <= 'Z' then (c as int + ('a' as int - 'A' as int)) as char else c
  }

  /** `s.lower()`, with the case mapping restricted to ASCII letters. */
  function Lower(s: string): (r: string)
    ensures |r| == |s|
  {
    if s == [] then [] else [LowerChar(s[0])] + Lower(s[1..])
  }

  /** Both cases of an ASCII lower-case letter. */
  predicate SameLetterIgnoringCase(c: char, lower: char)
    requires 'a' <= lower <= 'z'
  {
    c == lower || c as int == lower as int - ('a' as int - 'A' as int)
  }

  ghost predicate LowerLetters(t: string)
  {
    forall i :: 0 <= i < |t| ==> 'a' <= t[i] <= 'z'
  }

  /**
   * `s.lower() == t` for a lower-case word `t` holds exactly when `s` spells `t`
   * letter by letter in either case: "yes", "Yes", "YES", "DeSc" all qualify.
   */
  lemma {:induction false} LowerMatches(s: string, t: string)
    requires LowerLetters(t)
    ensures Lower(s) == t <==>
            |s| == |t| && forall i :: 0 <= i < |s| ==> SameLetterIgnoringCase(s[i], t[i])
  {
    if s != [] && t != [] {
      LowerMatches(s[1..], t[1..]);
      assert Lower(s) == [LowerChar(s[0])] + Lower(s[1..]);
      if |s| == |t| && forall i :: 0 <= i < |s| ==> SameLetterIgnoringCase(s[i], t[i]) {
        assert SameLetterIgnoringCase(s[0], t[0]);
        forall i | 0 <= i < |s| - 1 ensures SameLetterIgnoringCase(s[1..][i], t[1..][i]) {
          assert SameLetterIgnoringCase(s[i + 1], t[i + 1]);
        }
        assert t == [t[0]] + t[1..];
      }
      if Lower(s) == t {
        assert LowerChar(s[0]) == t[0];
        assert Lower(s[1..]) == t[1..];
        forall i | 0 <= i < |s| ensures SameLetterIgnoringCase(s[i], t[i]) {
          if i > 0 { assert SameLetterIgnoringCase(s[1..][i - 1], t[1..][i - 1]); }
        }
      }
    }
  }
}
