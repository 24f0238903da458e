/** The three Python `str` operations the ASN script applies to scraped text:
    `strip()`, `replace(old, "")` and `upper()`. */
module Text {

  /** The code points for which Python's `str.isspace()` holds: the ASCII
      controls TAB..CR, the separators U+001C..U+001F, SPACE, NEL, NBSP and
      the Unicode space separators. */
  const SpaceCodePoints: set<int> := {
    0x09, 0x0A, 0x0B, 0x0C, 0x0D, 0x1C, 0x1D, 0x1E, 0x1F, 0x20, 0x85, 0xA0, 0x1680,
    0x2000, 0x2001, 0x2002, 0x2003, 0x2004, 0x2005, 0x2006, 0x2007, 0x2008, 0x2009, 0x200A,
    0x2028, 0x2029, 0x202F, 0x205F, 0x3000
  }

  /** `c.isspace()`. */
  predicate IsSpace(c: char)
  {
    c as int in SpaceCodePoints
  }

  /** The number of whitespace characters `s` starts with. */
  function LeadingSpaces(s: string): (n: nat)
    ensures n <= |s|
    ensures forall k :: 0 <= k < n ==> IsSpace(s[k])
    ensures n < |s| ==> !IsSpace(s[n])
  {
    if s != [] && IsSpace(s[0]) then
      var m := LeadingSpaces(s[1..]);
      assert forall k :: 1 <= k < 1 + m ==> s[k] == s[1..][k - 1];
      1 + m
    else 0
  }

  /** The length of `s` without the whitespace it ends with. */
  function TrailingStart(s: string): (n: nat)
    ensures n <= |s|
    ensures forall k :: n <= k < |s| ==> IsSpace(s[k])
    ensures n > 0 ==> !IsSpace(s[n - 1])
  {
    if s != [] && IsSpace(s[|s| - 1]) then TrailingStart(s[..|s| - 1]) else |s|
  }

  /** `s.lstrip()`. */
  function StripLeft(s: string): string
  {
    s[LeadingSpaces(s)..]
  }

  /** `s.rstrip()`. */
  function StripRight(s: string): string
  {
    s[..TrailingStart(s)]
  }

  /** `s.strip()`: `lstrip()` followed by `rstrip()`. */
  function Strip(s: string): string
  {
    StripRight(StripLeft(s))
  }

  /** `Strip(s)` is the slice `s[i..j]` that remains after removing the leading
      and the trailing whitespace, and it neither starts nor ends with whitespace. */
  lemma StripIsTrim(s: string) returns (i: nat, j: nat)
    ensures i <= j <= |s| && Strip(s) == s[i..j]
    ensures forall k :: 0 <= k < i ==> IsSpace(s[k])
    ensures forall k :: j <= k < |s| ==> IsSpace(s[k])
    ensures i < j ==> !IsSpace(s[i]) && !IsSpace(s[j - 1])
  {
    i := LeadingSpaces(s);
    var l := s[i..];
    var t := TrailingStart(l);
    j := i + t;
    assert Strip(s) == l[..t] == s[i..j];
    assert forall k :: j <= k < |s| ==> IsSpace(s[k]) by {
      forall k | j <= k < |s| ensures IsSpace(s[k]) {
        assert s[k] == l[k - i];
      }
    }
    if i < j {
      assert s[j - 1] == l[t - 1];
    }
  }

  /** The result is empty exactly when `s` is all whitespace. */
  lemma StripEmptyIffBlank(s: string)
    ensures Strip(s) == [] <==> forall k :: 0 <= k < |s| ==> IsSpace(s[k])
  {
  }

  /** Stripping twice is stripping once. */
  lemma StripIdempotent(s: string)
    ensures Strip(Strip(s)) == Strip(s)
  {
  }

  /** `pat` occurs in `s` starting at position `i`. */
  predicate OccursAt(s: string, pat: string, i: nat)
  {
    i + |pat| <= |s| && s[i..i + |pat|] == pat
  }

  /** `s.replace(pat, "")`: scan left to right and delete each occurrence of
      `pat` that starts where the scan stands, as Python does. */
  function RemoveAll(s: string, pat: string): string
    requires pat != []
    decreases |s|
  {
    if |s| < |pat| then s
    else if s[..|pat|] == pat then RemoveAll(s[|pat|..], pat)
    else [s[0]] + RemoveAll(s[1..], pat)
  }

  /** `s.count(pat)`: the number of non-overlapping occurrences found by the
      same left-to-right scan. */
  function CountOf(s: string, pat: string): nat
    requires pat != []
    decreases |s|
  {
    if |s| < |pat| then 0
    else if s[..|pat|] == pat then 1 + CountOf(s[|pat|..], pat)
    else CountOf(s[1..], pat)
  }

  /** Deleting the occurrences removes exactly `|pat|` characters per
      occurrence counted by `str.count`. */
  lemma {:induction false} RemoveAllLength(s: string, pat: string)
    requires pat != []
    ensures |RemoveAll(s, pat)| == |s| - |pat| * CountOf(s, pat)
    decreases |s|
  {
    if |s| < |pat| {
    } else if s[..|pat|] == pat {
      var rest := s[|pat|..];
      RemoveAllLength(rest, pat);
      assert CountOf(s, pat) == 1 + CountOf(rest, pat);
      assert |pat| * (1 + CountOf(rest, pat)) == |pat| + |pat| * CountOf(rest, pat);
    } else {
      RemoveAllLength(s[1..], pat);
    }
  }

  /** When `pat` does not occur in `s`, `replace` leaves `s` as it is. */
  lemma {:induction false} RemoveAllAbsent(s: string, pat: string)
    requires pat != []
    requires forall i: nat :: !OccursAt(s, pat, i)
    ensures RemoveAll(s, pat) == s
    decreases |s|
  {
    if |s| < |pat| {
    } else {
      assert !OccursAt(s, pat, 0);
      assert s[..|pat|] != pat;
      forall i: nat ensures !OccursAt(s[1..], pat, i) {
        assert !OccursAt(s, pat, i + 1);
        if i + |pat| <= |s| - 1 {
          assert s[1..][i..i + |pat|] == s[i + 1..i + 1 + |pat|];
        }
      }
      RemoveAllAbsent(s[1..], pat);
    }
  }

  /** Removing `"AS"` once need not leave a string free of `"AS"`: the
      deletion can join an `A` and an `S` that were apart. */
  lemma RemoveAllCanLeavePattern()
    ensures RemoveAll("AASS", "AS") == "AS"
    ensures RemoveAll("ASAS", "AS") == ""
  {
  }

  /** `c.upper()` for the ASCII letters `a`..`z`; every other code point is
      left as it is. */
  function UpperChar(c: char): char
  {
    if 'a' <= c <= 'z' then (c as int - 32) as char else c
  }

  /** `s.upper()`, code point by code point. */
  function Upper(s: string): (r: string)
    ensures |r| == |s|
  {
    if s == [] then [] else [UpperChar(s[0])] + Upper(s[1..])
  }

  /** Each position of `Upper(s)` holds the upper-cased character of `s`. */
  lemma {:induction false} UpperAt(s: string, k: nat)
    requires k < |s|
    ensures Upper(s)[k] == UpperChar(s[k])
  {
    if k > 0 { UpperAt(s[1..], k - 1); }
  }

  /** Upper-casing an already upper-cased code is a no-op, so `generate_multiple`
      upper-casing a code before `generate_country_asn` upper-cases it again
      changes nothing. */
  lemma {:induction false} UpperIdempotent(s: string)
    ensures Upper(Upper(s)) == Upper(s)
  {
    if s != [] {
      UpperIdempotent(s[1..]);
    }
  }
}
