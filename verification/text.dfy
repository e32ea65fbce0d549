/**
 The string handling the page relies on: lower-casing a file name, testing a
 suffix, and the order Python's `sorted` puts strings in (code point by code
 point, a proper prefix first).
 */
module Text {

  predicate IsUpper(c: char) {
    'A' <= c <= 'Z'
  }

  predicate IsLowerLetter(c: char) {
    'a' <= c <= 'z'
  }

  /** `str.lower` on one character; only the ASCII capitals change. */
  function LowerChar(c: char): (d: char)
    ensures !IsUpper(d)
  {
    if IsUpper(c) then (c as int + 32) as char else c
  }

  /** The capital that a user may type in place of a lower-case letter. */
  function UpperChar(c: char): char {
    if IsLowerLetter(c) then (c as int - 32) as char else c
  }

  /** A capital lowers to a letter whose capital it is; anything else is left alone. */
  lemma LowerCharInverse(c: char)
    ensures IsUpper(c) ==> IsLowerLetter(LowerChar(c)) && UpperChar(LowerChar(c)) == c
    ensures !IsUpper(c) ==> LowerChar(c) == c
  {
  }

  /** `str.lower` on ASCII: same length, no capital left, each character its own lower case. */
  function Lower(s: string): (r: string)
    ensures |r| == |s|
    ensures forall i :: 0 <= i < |r| ==> !IsUpper(r[i])
  {
    seq(|s|, i requires 0 <= i < |s| => LowerChar(s[i]))
  }

  /** Each capital of `s` becomes the lower-case letter it is the capital of; every other character is kept. */
  lemma LowerSpec(s: string)
    ensures forall i :: 0 <= i < |s| && !IsUpper(s[i]) ==> Lower(s)[i] == s[i]
    ensures forall i :: 0 <= i < |s| && IsUpper(s[i]) ==> IsLowerLetter(Lower(s)[i]) && UpperChar(Lower(s)[i]) == s[i]
  {
    forall i | 0 <= i < |s| {
      LowerCharInverse(s[i]);
    }
  }

  /** Python's `str.endswith`. */
  predicate EndsWith(s: string, suffix: string) {
    |suffix| <= |s| && s[|s| - |suffix|..] == suffix
  }

  /** `s` ends with `suffix` exactly when it is some string followed by `suffix`. */
  lemma EndsWithIsSplit(s: string, suffix: string)
    ensures EndsWith(s, suffix) <==> exists p :: p + suffix == s
  {
    if |suffix| <= |s| {
      var p := s[..|s| - |suffix|];
      assert p + s[|s| - |suffix|..] == s;
    }
  }

  /**
   The user's view of "the name ends in this extension, in any case": each of
   the last |suffix| characters is the suffix character or its capital.
   */
  predicate EndsWithIgnoringCase(s: string, suffix: string) {
    && |suffix| <= |s|
    && forall j :: 0 <= j < |suffix| ==>
         s[|s| - |suffix| + j] == suffix[j] || s[|s| - |suffix| + j] == UpperChar(suffix[j])
  }

  lemma LowerCharMatches(c: char, d: char)
    requires !IsUpper(d)
    ensures LowerChar(c) == d <==> c == d || c == UpperChar(d)
  {
  }

  /** For a lower-case suffix, testing the lower-cased name is the same as a case-blind test. */
  lemma EndsWithLower(s: string, suffix: string)
    requires forall j :: 0 <= j < |suffix| ==> !IsUpper(suffix[j])
    ensures EndsWith(Lower(s), suffix) <==> EndsWithIgnoringCase(s, suffix)
  {
    var l := Lower(s);
    if |suffix| <= |s| {
      var k := |s| - |suffix|;
      forall j | 0 <= j < |suffix|
        ensures l[k..][j] == suffix[j] <==> s[k + j] == suffix[j] || s[k + j] == UpperChar(suffix[j])
      {
        LowerCharMatches(s[k + j], suffix[j]);
      }
      if EndsWithIgnoringCase(s, suffix) {
        assert l[k..] == suffix;
      }
    }
  }

  lemma LowerIdempotent(s: string)
    ensures Lower(Lower(s)) == Lower(s)
  {
  }

  /** Python's `<` on `str`: the first differing code point decides; a proper prefix comes first. */
  predicate Less(a: string, b: string) {
    if |a| == 0 then |b| > 0
    else if |b| == 0 then false
    else if a[0] == b[0] then Less(a[1..], b[1..])
    else a[0] < b[0]
  }

  /** A proper prefix sorts before the longer string. */
  lemma {:induction false} LessPrefix(a: string, b: string)
    requires |a| < |b| && a == b[..|a|]
    ensures Less(a, b)
  {
    if |a| > 0 {
      assert a[1..] == b[1..][..|a| - 1];
      LessPrefix(a[1..], b[1..]);
    }
  }

  lemma {:induction false} LessIrreflexive(a: string)
    ensures !Less(a, a)
  {
    if |a| > 0 {
      LessIrreflexive(a[1..]);
    }
  }

  lemma {:induction false} LessTransitive(a: string, b: string, c: string)
    requires Less(a, b) && Less(b, c)
    ensures Less(a, c)
  {
    if |a| > 0 && |b| > 0 && |c| > 0 && a[0] == b[0] && b[0] == c[0] {
      LessTransitive(a[1..], b[1..], c[1..]);
    }
  }

  /** Two different strings are always ordered one way or the other. */
  lemma {:induction false} LessTotal(a: string, b: string)
    requires a != b
    ensures Less(a, b) || Less(b, a)
  {
    if |a| > 0 && |b| > 0 && a[0] == b[0] {
      assert a == [a[0]] + a[1..];
      assert b == [b[0]] + b[1..];
      LessTotal(a[1..], b[1..]);
    }
  }
}
