/** Character-string helpers: C's strcmp as used to order names, the
    standard string search, and the find-and-replace loop behind URL encoding
    (collada_utils.cpp). */
module Strings {

  /** strcmp, reduced to the sign of its result: negative, zero or positive as
      `a` sorts before, equal to or after `b`; a proper prefix sorts first. */
  function StrCmp(a: string, b: string): (r: int)
    ensures -1 <= r <= 1
    ensures r == 0 <==> a == b
    decreases |a|
  {
    if |a| == 0 && |b| == 0 then 0
    else if |a| == 0 then -1
    else if |b| == 0 then 1
    else if a[0] < b[0] then -1
    else if a[0] > b[0] then 1
    else
      assert a == [a[0]] + a[1..] && b == [b[0]] + b[1..];
      StrCmp(a[1..], b[1..])
  }

  /** Swapping the arguments flips the sign. */
  lemma {:induction false} StrCmpAntisymmetric(a: string, b: string)
    ensures StrCmp(b, a) == -StrCmp(a, b)
    decreases |a|
  {
    if |a| > 0 && |b| > 0 && a[0] == b[0] {
      StrCmpAntisymmetric(a[1..], b[1..]);
    }
  }

  /** "Sorts no later than" is transitive. */
  lemma {:induction false} StrCmpTransitive(a: string, b: string, c: string)
    requires StrCmp(a, b) <= 0 && StrCmp(b, c) <= 0
    ensures StrCmp(a, c) <= 0
    decreases |a|
  {
    if |a| > 0 && |b| > 0 && |c| > 0 && a[0] == b[0] == c[0] {
      StrCmpTransitive(a[1..], b[1..], c[1..]);
    }
  }

  /** `pat` occurs in `s` starting at index `i`. */
  predicate OccursAt(s: string, pat: string, i: nat)
  {
    i + |pat| <= |s| && s[i..i + |pat|] == pat
  }

  /** The value std::string::find returns when there is no match. */
  const NPOS: int := -1

  /** std::string::find(pat, from): the first index at or after `from` where
      `pat` occurs, or NPOS when there is none. */
  function Find(s: string, pat: string, from: nat): (r: int)
    ensures r == NPOS || (from <= r && OccursAt(s, pat, r))
    ensures r == NPOS ==> forall i: nat :: from <= i ==> !OccursAt(s, pat, i)
    ensures r != NPOS ==> forall i: nat :: from <= i < r ==> !OccursAt(s, pat, i)
    decreases |s| - from
  {
    if from + |pat| > |s| then NPOS
    else if OccursAt(s, pat, from) then from
    else Find(s, pat, from + 1)
  }

  /** Leftmost, non-overlapping replacement of every occurrence of `pat` by
      `rep`, scanning left to right; the inserted text is never scanned
      again. */
  function ReplaceAll(s: string, pat: string, rep: string): string
    requires |pat| > 0
    decreases |s|
  {
    if |s| == 0 then s
    else if OccursAt(s, pat, 0) then rep + ReplaceAll(s[|pat|..], pat, rep)
    else [s[0]] + ReplaceAll(s[1..], pat, rep)
  }

  /** An occurrence in a suffix is an occurrence in the whole string. */
  lemma OccursInSuffix(s: string, pat: string, k: nat, i: nat)
    requires k <= |s|
    ensures OccursAt(s[k..], pat, i) <==> OccursAt(s, pat, k + i)
  {
    if k + i + |pat| <= |s| {
      assert s[k..][i..i + |pat|] == s[k + i..k + i + |pat|];
    }
  }

  /** A prefix in which `pat` does not start passes through unchanged. */
  lemma {:induction false} ReplaceAllSkips(s: string, pat: string, rep: string, j: nat)
    requires |pat| > 0 && j <= |s|
    requires forall i: nat :: i < j ==> !OccursAt(s, pat, i)
    ensures ReplaceAll(s, pat, rep) == s[..j] + ReplaceAll(s[j..], pat, rep)
    decreases j
  {
    if j > 0 {
      assert !OccursAt(s, pat, 0);
      forall i: nat | i < j - 1
        ensures !OccursAt(s[1..], pat, i)
      {
        OccursInSuffix(s, pat, 1, i);
      }
      ReplaceAllSkips(s[1..], pat, rep, j - 1);
      assert s[..j] == [s[0]] + s[1..][..j - 1];
      assert s[j..] == s[1..][j - 1..];
    }
  }

  /** A string in which `pat` never occurs comes back unchanged. */
  lemma ReplaceAllNoMatch(s: string, pat: string, rep: string)
    requires |pat| > 0
    requires forall i: nat :: !OccursAt(s, pat, i)
    ensures ReplaceAll(s, pat, rep) == s
  {
    ReplaceAllSkips(s, pat, rep, |s|);
    assert s[..|s|] == s;
  }

  /** Replacing a pattern by itself changes nothing. */
  lemma {:induction false} ReplaceAllIdentity(s: string, pat: string)
    requires |pat| > 0
    ensures ReplaceAll(s, pat, pat) == s
    decreases |s|
  {
    if |s| > 0 {
      if OccursAt(s, pat, 0) {
        ReplaceAllIdentity(s[|pat|..], pat);
        assert s == s[..|pat|] + s[|pat|..];
      } else {
        ReplaceAllIdentity(s[1..], pat);
        assert s == [s[0]] + s[1..];
      }
    }
  }

  /** When a one-character pattern does not appear in its replacement, the
      result no longer contains that character. */
  lemma {:induction false} ReplaceAllRemovesChar(s: string, c: char, rep: string)
    requires c !in rep
    ensures c !in ReplaceAll(s, [c], rep)
    decreases |s|
  {
    if |s| > 0 {
      if OccursAt(s, [c], 0) {
        ReplaceAllRemovesChar(s[1..], c, rep);
      } else {
        assert s[0] != c by {
          assert s[0..1] == [s[0]];
        }
        ReplaceAllRemovesChar(s[1..], c, rep);
      }
    }
  }

  /** URL encoding lengthens the string by two characters per '#'. */
  lemma {:induction false} UrlEncodeLength(s: string)
    ensures |ReplaceAll(s, "#", "%23")| == |s| + 2 * multiset(s)['#']
    decreases |s|
  {
    if |s| > 0 {
      assert s == [s[0]] + s[1..];
      assert multiset(s) == multiset([s[0]]) + multiset(s[1..]);
      assert OccursAt(s, "#", 0) <==> s[0] == '#' by {
        assert s[0..1] == [s[0]];
      }
      UrlEncodeLength(s[1..]);
    }
  }

  /** Replacement up to and across the first match, at position j. */
  lemma ReplaceAllAtFirstMatch(s: string, pat: string, rep: string, j: nat)
    requires |pat| > 0 && OccursAt(s, pat, j)
    requires forall i: nat :: i < j ==> !OccursAt(s, pat, i)
    ensures ReplaceAll(s, pat, rep) == s[..j] + rep + ReplaceAll(s[j + |pat|..], pat, rep)
  {
    ReplaceAllSkips(s, pat, rep, j);
    var t := s[j..];
    OccursInSuffix(s, pat, j, 0);
    assert OccursAt(t, pat, 0) && |t| > 0;
    assert ReplaceAll(t, pat, rep) == rep + ReplaceAll(t[|pat|..], pat, rep);
    assert t[|pat|..] == s[j + |pat|..];
  }

  /** The match that the search from `pos` returns is the first match in the
      suffix from `pos`. */
  lemma FirstMatchInSuffix(data: string, pat: string, pos: nat, found: nat)
    requires pos <= |data|
    requires found == Find(data, pat, pos)
    ensures pos <= found && OccursAt(data[pos..], pat, found - pos)
    ensures forall i: nat :: i < found - pos ==> !OccursAt(data[pos..], pat, i)
  {
    forall i: nat | i < found - pos
      ensures !OccursAt(data[pos..], pat, i)
    {
      OccursInSuffix(data, pat, pos, i);
    }
    OccursInSuffix(data, pat, pos, found - pos);
  }

  /** One round of the replacement loop: splicing `rep` in at the match
      `found` that the search from `pos` returned, and resuming after it, keeps
      "done part + replacement of the rest" the same. */
  lemma ReplaceStep(data: string, pat: string, rep: string, pos: nat, found: nat, data': string)
    requires |pat| > 0 && pos <= |data|
    requires found == Find(data, pat, pos)
    requires data' == data[..found] + rep + data[found + |pat|..]
    ensures found + |rep| <= |data'|
    ensures data'[..found + |rep|] + ReplaceAll(data'[found + |rep|..], pat, rep)
            == data[..pos] + ReplaceAll(data[pos..], pat, rep)
  {
    var rest := data[pos..];
    var j := found - pos;
    FirstMatchInSuffix(data, pat, pos, found);
    ReplaceAllAtFirstMatch(rest, pat, rep, j);
    var tail := data[found + |pat|..];
    assert rest[j + |pat|..] == tail;
    assert rest[..j] == data[pos..found];
    assert data'[..found + |rep|] == data[..found] + rep;
    assert data'[found + |rep|..] == tail;
    assert data[..found] == data[..pos] + data[pos..found];
    calc {
      data'[..found + |rep|] + ReplaceAll(data'[found + |rep|..], pat, rep);
      data[..pos] + data[pos..found] + rep + ReplaceAll(tail, pat, rep);
      data[..pos] + (rest[..j] + rep + ReplaceAll(rest[j + |pat|..], pat, rep));
      data[..pos] + ReplaceAll(rest, pat, rep);
    }
  }

  /** bc_replace_string: searches for `pattern` from the current position,
      splices in `replacement`, and resumes right after it. The source loops
      forever on an empty pattern, which is therefore excluded. */
  method ReplaceString(data0: string, pattern: string, replacement: string) returns (data: string)
    requires |pattern| > 0
    ensures data == ReplaceAll(data0, pattern, replacement)
  {
    data := data0;
    var pos: nat := 0;
    var found := Find(data, pattern, pos);
    while found != NPOS
      invariant pos <= |data|
      invariant found == Find(data, pattern, pos)
      invariant data[..pos] + ReplaceAll(data[pos..], pattern, replacement)
                == ReplaceAll(data0, pattern, replacement)
      decreases |data| - pos
    {
      ghost var data' := data[..found] + replacement + data[found + |pattern|..];
      ReplaceStep(data, pattern, replacement, pos, found, data');
      data := data[..found] + replacement + data[found + |pattern|..];
      pos := found + |replacement|;
      found := Find(data, pattern, pos);
    }
    forall i: nat
      ensures !OccursAt(data[pos..], pattern, i)
    {
      OccursInSuffix(data, pattern, pos, i);
    }
    ReplaceAllNoMatch(data[pos..], pattern, replacement);
    assert data == data[..pos] + data[pos..];
  }

  /** bc_url_encode: replaces every '#' by "%23". The result contains no '#'
      and is two characters longer per '#' of the input. */
  method UrlEncode(data: string) returns (r: string)
    ensures r == ReplaceAll(data, "#", "%23")
    ensures '#' !in r
    ensures |r| == |data| + 2 * multiset(data)['#']
  {
    r := ReplaceString(data, "#", "%23");
    ReplaceAllRemovesChar(data, '#', "%23");
    UrlEncodeLength(data);
  }
}
