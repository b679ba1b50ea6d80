/** Column names as strings: Python's ordering of `str`, sortedness, filtering that keeps order. */
module StringOrder {

  /** Python's `<` on `str`: lexicographic by code point, a proper prefix first. */
  predicate LexLess(a: string, b: string)
  {
    if a == [] then b != []
    else if b == [] then false
    else if a[0] != b[0] then a[0] < b[0]
    else LexLess(a[1..], b[1..])
  }

  lemma {:induction false} LexLessIrreflexive(a: string)
    ensures !LexLess(a, a)
  {
    if a != [] {
      LexLessIrreflexive(a[1..]);
    }
  }

  lemma {:induction false} LexLessTransitive(a: string, b: string, c: string)
    requires LexLess(a, b) && LexLess(b, c)
    ensures LexLess(a, c)
  {
    if a != [] && b != [] && c != [] && a[0] == b[0] && b[0] == c[0] {
      LexLessTransitive(a[1..], b[1..], c[1..]);
    }
  }

  /** Sorted ascending without duplicates, as `sorted(set(...))` returns. */
  predicate StrictlySorted(s: seq<string>)
  {
    forall i, j :: 0 <= i < j < |s| ==> LexLess(s[i], s[j])
  }

  /** A strictly sorted list from its neighbouring pairs, by transitivity. */
  lemma {:induction false} ChainStrictlySorted(s: seq<string>)
    requires forall i :: 0 <= i < |s| - 1 ==> LexLess(s[i], s[i + 1])
    ensures StrictlySorted(s)
  {
    if |s| > 1 {
      ChainStrictlySorted(s[1..]);
      forall j | 1 < j < |s| ensures LexLess(s[0], s[j]) {
        assert LexLess(s[1], s[j]) by { assert s[1..][0] == s[1] && s[1..][j - 1] == s[j]; }
        LexLessTransitive(s[0], s[1], s[j]);
      }
    }
  }

  /** The entries of `s` that lie in `allowed`, in their order in `s` (a list comprehension with a filter). */
  function KeepIn(s: seq<string>, allowed: set<string>): (r: seq<string>)
    ensures |r| <= |s|
    ensures forall x :: x in r <==> x in s && x in allowed
  {
    if s == [] then []
    else (if s[0] in allowed then [s[0]] else []) + KeepIn(s[1..], allowed)
  }

  /** `r` is `s` with some entries left out and the rest kept in their order. */
  predicate IsSubsequence<T(==)>(r: seq<T>, s: seq<T>)
  {
    if r == [] then true
    else if s == [] then false
    else (r[0] == s[0] && IsSubsequence(r[1..], s[1..])) || IsSubsequence(r, s[1..])
  }

  lemma {:induction false} SubsequenceOfSelf<T>(s: seq<T>)
    ensures IsSubsequence(s, s)
  {
    if s != [] {
      SubsequenceOfSelf(s[1..]);
    }
  }

  lemma {:induction false} KeepInSubsequence(s: seq<string>, allowed: set<string>)
    ensures IsSubsequence(KeepIn(s, allowed), s)
  {
    if s != [] {
      KeepInSubsequence(s[1..], allowed);
      var r, rest := KeepIn(s, allowed), KeepIn(s[1..], allowed);
      if s[0] in allowed {
        assert r[0] == s[0] && r[1..] == rest;
      } else {
        assert r == rest;
      }
    }
  }

  lemma {:induction false} KeepInSorted(s: seq<string>, allowed: set<string>)
    requires StrictlySorted(s)
    ensures StrictlySorted(KeepIn(s, allowed))
  {
    if s != [] {
      assert StrictlySorted(s[1..]);
      KeepInSorted(s[1..], allowed);
      var rest := KeepIn(s[1..], allowed);
      forall j | 0 <= j < |rest| ensures LexLess(s[0], rest[j]) {
        assert rest[j] in s[1..];
        var k :| 0 <= k < |s[1..]| && s[1..][k] == rest[j];
        assert s[k + 1] == rest[j];
      }
    }
  }

  lemma {:induction false} KeepInAppend(x: seq<string>, y: seq<string>, allowed: set<string>)
    ensures KeepIn(x + y, allowed) == KeepIn(x, allowed) + KeepIn(y, allowed)
  {
    if x == [] {
      assert x + y == y;
    } else {
      assert (x + y)[0] == x[0] && (x + y)[1..] == x[1..] + y;
      KeepInAppend(x[1..], y, allowed);
    }
  }
}
