/**
 The few Python string operations the installers rely on, written out over
 `seq<char>`: `str.split` on one separator, `str.strip`, `str.endswith`,
 `str.replace(pattern, "")`, and the truthiness of an optional string.
 */
module Text {
  import opened Wrappers

  /** Python's `if s:` on a value that may be `None`: absent or empty is false. */
  predicate Present(s: Option<string>) {
    s.Some? && s.value != ""
  }

  /** The characters Python's `str.strip()` removes (those for which `str.isspace()` holds). */
  predicate IsSpace(c: char) {
    || c == ' '
    || ('\t' <= c <= '\r')
    || ('\U{1C}' <= c <= '\U{1F}')
    || c == '\U{85}'
    || c == '\U{A0}'
    || c == '\U{1680}'
    || ('\U{2000}' <= c <= '\U{200A}')
    || c == '\U{2028}'
    || c == '\U{2029}'
    || c == '\U{202F}'
    || c == '\U{205F}'
    || c == '\U{3000}'
  }

  predicate AllSpace(s: string) {
    forall k :: 0 <= k < |s| ==> IsSpace(s[k])
  }

  function StripLeft(s: string): string {
    if |s| > 0 && IsSpace(s[0]) then StripLeft(s[1..]) else s
  }

  function StripRight(s: string): string {
    if |s| > 0 && IsSpace(s[|s| - 1]) then StripRight(s[..|s| - 1]) else s
  }

  /** Python's `str.strip()` with no argument. */
  function Strip(s: string): string {
    StripRight(StripLeft(s))
  }

  /** `r` is the slice of `s` starting at `i`, and everything around it is whitespace. */
  predicate IsTrimAt(s: string, r: string, i: int) {
    0 <= i <= |s| - |r| && r == s[i..i + |r|] && AllSpace(s[..i]) && AllSpace(s[i + |r|..])
  }

  /** `r` is `s` with a run of whitespace cut from each end. */
  ghost predicate IsTrimOf(s: string, r: string) {
    exists i :: IsTrimAt(s, r, i)
  }

  lemma {:induction false} StripLeftSpec(s: string)
    ensures var r := StripLeft(s);
      && |r| <= |s| && r == s[|s| - |r|..]
      && AllSpace(s[..|s| - |r|])
      && (r == [] || !IsSpace(r[0]))
    decreases |s|
  {
    if |s| > 0 && IsSpace(s[0]) {
      StripLeftSpec(s[1..]);
      var r := StripLeft(s[1..]);
      assert s[1..][..|s| - 1 - |r|] == s[1..|s| - |r|];
      assert s[..|s| - |r|] == [s[0]] + s[1..|s| - |r|];
    }
  }

  lemma {:induction false} StripRightSpec(s: string)
    ensures var r := StripRight(s);
      && |r| <= |s| && r == s[..|r|]
      && AllSpace(s[|r|..])
      && (r == [] || !IsSpace(r[|r| - 1]))
    decreases |s|
  {
    if |s| > 0 && IsSpace(s[|s| - 1]) {
      StripRightSpec(s[..|s| - 1]);
      var r := StripRight(s[..|s| - 1]);
      assert s[..|s| - 1][|r|..] == s[|r|..|s| - 1];
      assert s[|r|..] == s[|r|..|s| - 1] + [s[|s| - 1]];
    }
  }

  /** Stripping cuts whitespace from both ends and nothing else, and leaves no whitespace at either end. */
  lemma StripTrims(s: string)
    ensures IsTrimOf(s, Strip(s))
    ensures Strip(s) == [] || (!IsSpace(Strip(s)[0]) && !IsSpace(Strip(s)[|Strip(s)| - 1]))
  {
    var l := StripLeft(s);
    var r := StripRight(l);
    StripLeftSpec(s);
    StripRightSpec(l);
    var i := |s| - |l|;
    assert s[i..i + |r|] == l[..|r|];
    assert s[i + |r|..] == l[|r|..];
    assert IsTrimAt(s, r, i);
  }

  /** Python's `sep.join(parts)` for a one-character separator. */
  function Join(parts: seq<string>, sep: char): string {
    if |parts| == 0 then ""
    else if |parts| == 1 then parts[0]
    else parts[0] + [sep] + Join(parts[1..], sep)
  }

  /** Python's `s.split(sep)` for a one-character separator: never empty, keeps empty pieces. */
  function Split(s: string, sep: char): (parts: seq<string>)
    ensures |parts| >= 1
  {
    if |s| == 0 then [""]
    else
      var rest := Split(s[1..], sep);
      if s[0] == sep then
        [""] + rest
      else
        [[s[0]] + rest[0]] + rest[1..]
  }

  /** No piece contains the separator. */
  lemma {:induction false} SplitPiecesLackSeparator(s: string, sep: char)
    ensures forall i :: 0 <= i < |Split(s, sep)| ==> sep !in Split(s, sep)[i]
    decreases |s|
  {
    if |s| > 0 {
      SplitPiecesLackSeparator(s[1..], sep);
    }
  }

  /** Joining the pieces back with the separator gives the original string. */
  lemma {:induction false} SplitJoin(s: string, sep: char)
    ensures Join(Split(s, sep), sep) == s
    decreases |s|
  {
    if |s| > 0 {
      var rest := Split(s[1..], sep);
      SplitJoin(s[1..], sep);
      if s[0] == sep {
        assert Split(s, sep) == [""] + rest;
        assert ([""] + rest)[1..] == rest;
      } else {
        var parts := [[s[0]] + rest[0]] + rest[1..];
        assert Split(s, sep) == parts;
        if |rest| == 1 {
          assert parts == [[s[0]] + rest[0]];
        } else {
          assert parts[1..] == rest[1..];
          assert Join(rest, sep) == rest[0] + [sep] + Join(rest[1..], sep);
        }
      }
    }
  }

  /** Splitting at a separator character splits the two sides independently. */
  lemma {:induction false} SplitAround(a: string, b: string, sep: char)
    ensures Split(a + [sep] + b, sep) == Split(a, sep) + Split(b, sep)
    decreases |a|
  {
    if |a| == 0 {
      assert a + [sep] + b == [sep] + b;
      assert ([sep] + b)[1..] == b;
    } else {
      assert (a + [sep] + b)[1..] == a[1..] + [sep] + b;
      SplitAround(a[1..], b, sep);
    }
  }

  /** A string with no separator in it is a single piece. */
  lemma {:induction false} SplitWithoutSeparator(s: string, sep: char)
    requires sep !in s
    ensures Split(s, sep) == [s]
    decreases |s|
  {
    if |s| > 0 {
      assert sep !in s[1..] by {
        assert forall k :: 0 <= k < |s| - 1 ==> s[1..][k] == s[k + 1];
      }
      SplitWithoutSeparator(s[1..], sep);
      assert [s[0]] + s[1..] == s;
    }
  }

  predicate StartsWith(s: string, prefix: string) {
    |prefix| <= |s| && s[..|prefix|] == prefix
  }

  /** Python's `s.endswith(suffix)`. */
  predicate EndsWith(s: string, suffix: string) {
    |suffix| <= |s| && s[|s| - |suffix|..] == suffix
  }

  /** `pat` occurs in `s` starting at index `k`. */
  predicate OccursAt(s: string, pat: string, k: int) {
    0 <= k && k + |pat| <= |s| && s[k..k + |pat|] == pat
  }

  /**
   Python's `s.replace(pat, "")`: scanning left to right, every non-overlapping
   occurrence of `pat` is deleted; the text left behind is not scanned again.
   */
  function RemoveAll(s: string, pat: string): (r: string)
    requires |pat| > 0
    ensures |r| <= |s|
    ensures (forall k :: 0 <= k < |s| ==> !OccursAt(s, pat, k)) ==> r == s
    decreases |s|
  {
    if |s| < |pat| then s
    else if s[..|pat|] == pat then
      assert OccursAt(s, pat, 0);
      RemoveAll(s[|pat|..], pat)
    else
      assert forall k :: 0 <= k < |s| - 1 ==> (OccursAt(s[1..], pat, k) ==> OccursAt(s, pat, k + 1)) by {
        forall k | 0 <= k < |s| - 1 && OccursAt(s[1..], pat, k)
          ensures OccursAt(s, pat, k + 1)
        {
          assert s[1..][k..k + |pat|] == s[k + 1..k + 1 + |pat|];
        }
      }
      [s[0]] + RemoveAll(s[1..], pat)
  }

  /** A leading occurrence of the pattern is deleted and scanning resumes after it. */
  lemma RemoveAllLeading(pat: string, s: string)
    requires |pat| > 0
    ensures RemoveAll(pat + s, pat) == RemoveAll(s, pat)
  {
    assert (pat + s)[..|pat|] == pat;
    assert (pat + s)[|pat|..] == s;
  }

  /** Where the pattern does not start at the front, the first character is kept and scanning moves on. */
  lemma RemoveAllSkip(s: string, pat: string)
    requires |pat| > 0 && |s| > 0 && !OccursAt(s, pat, 0)
    ensures RemoveAll(s, pat) == [s[0]] + RemoveAll(s[1..], pat)
  {
    assert [s[0]] + s[1..] == s;
  }

  /** An occurrence-free prefix stays occurrence-free after dropping its first character. */
  lemma NoOccurrenceInTail(a: string, pat: string)
    requires |a| > 0
    requires forall k :: 0 <= k < |a| ==> !OccursAt(a + pat, pat, k)
    ensures forall k :: 0 <= k < |a[1..]| ==> !OccursAt(a[1..] + pat, pat, k)
  {
    forall k | 0 <= k < |a[1..]|
      ensures !OccursAt(a[1..] + pat, pat, k)
    {
      assert (a[1..] + pat)[k..k + |pat|] == (a + pat)[k + 1..k + 1 + |pat|];
      assert !OccursAt(a + pat, pat, k + 1);
    }
  }

  /** Putting the first character back in front of the rest of `a`, then `x`. */
  lemma ConsTail(a: string, x: string)
    requires |a| > 0
    ensures [a[0]] + (a[1..] + x) == a + x
  {
    assert [a[0]] + a[1..] == a;
  }

  /** Before the first occurrence, characters are kept one at a time. */
  lemma SkipFront(a: string, pat: string, b: string)
    requires |pat| > 0 && |a| > 0 && !OccursAt(a + pat, pat, 0)
    ensures RemoveAll(a + pat + b, pat) == [a[0]] + RemoveAll(a[1..] + pat + b, pat)
  {
    var s := a + pat + b;
    assert s[..|pat|] == (a + pat)[..|pat|];
    RemoveAllSkip(s, pat);
    assert s[1..] == a[1..] + pat + b;
  }

  /**
   The first occurrence of the pattern is deleted with the text before it kept,
   and scanning resumes right after it. With the clause of `RemoveAll` for a
   string without occurrences, this fixes the result on every input.
   */
  lemma {:induction false} RemoveAllFirst(a: string, pat: string, b: string)
    requires |pat| > 0
    requires forall k :: 0 <= k < |a| ==> !OccursAt(a + pat, pat, k)
    ensures RemoveAll(a + pat + b, pat) == a + RemoveAll(b, pat)
    decreases |a|
  {
    var rest := RemoveAll(b, pat);
    if a == [] {
      assert a + pat + b == pat + b;
      RemoveAllLeading(pat, b);
      assert a + rest == rest;
    } else {
      SkipFront(a, pat, b);
      NoOccurrenceInTail(a, pat);
      RemoveAllFirst(a[1..], pat, b);
      assert RemoveAll(a + pat + b, pat) == [a[0]] + (a[1..] + rest);
      ConsTail(a, rest);
    }
  }

  /** Lower-case hexadecimal digits, the alphabet of `hashlib`'s `hexdigest()`. */
  predicate IsLowerHex(s: string) {
    forall k :: 0 <= k < |s| ==> s[k] in "0123456789abcdef"
  }
}
