/**
 * The Python `str` operations the source relies on: `strip()`, `find()`,
 * `replace()`, `split(c)[:1]` and slicing `s[:n]`, each stated by what it
 * returns rather than by how it scans.
 */
module Text {

  /** The characters Python's `str.isspace()` accepts, which `str.strip()` removes. */
  predicate IsSpace(c: char)
  {
    || c == ' '
    || ('\U{9}' <= c <= '\U{d}')
    || ('\U{1c}' <= c <= '\U{1f}')
    || c == '\U{85}' || c == '\U{a0}' || c == '\U{1680}'
    || ('\U{2000}' <= c <= '\U{200a}')
    || c == '\U{2028}' || c == '\U{2029}' || c == '\U{202f}' || c == '\U{205f}' || c == '\U{3000}'
  }

  /** Neither end of `s` is whitespace: what `strip()` guarantees. */
  predicate Trimmed(s: string)
  {
    s == [] || (!IsSpace(s[0]) && !IsSpace(s[|s| - 1]))
  }

  /** `s.lstrip()`: the longest suffix of `s` that does not start with whitespace. */
  function StripLeft(s: string): (r: string)
    ensures |r| <= |s| && r == s[|s| - |r|..]
    ensures r == [] || !IsSpace(r[0])
    ensures forall i :: 0 <= i < |s| - |r| ==> IsSpace(s[i])
  {
    if s == [] || !IsSpace(s[0]) then s else StripLeft(s[1..])
  }

  /** `s.rstrip()`: the longest prefix of `s` that does not end with whitespace. */
  function StripRight(s: string): (r: string)
    ensures |r| <= |s| && r == s[..|r|]
    ensures r == [] || !IsSpace(r[|r| - 1])
    ensures forall i :: |r| <= i < |s| ==> IsSpace(s[i])
  {
    if s == [] || !IsSpace(s[|s| - 1]) then s else StripRight(s[..|s| - 1])
  }

  /** `s.strip()`: whitespace removed from both ends. */
  function Strip(s: string): (r: string)
    ensures Trimmed(r) && |r| <= |s|
    ensures Trimmed(s) ==> r == s
  {
    var l := StripLeft(s);
    var r := StripRight(l);
    assert r != [] ==> r[0] == l[0];
    r
  }

  /** Everything of `s` before index `i` and from index `j` on is whitespace. */
  predicate StrippedEnds(s: string, i: int, j: int)
    requires 0 <= i <= j <= |s|
  {
    (forall k :: 0 <= k < i ==> IsSpace(s[k])) && (forall k :: j <= k < |s| ==> IsSpace(s[k]))
  }

  /**
   * `strip()` removes whitespace from the ends and nowhere else: its result
   * is the slice of the input between a run of leading and a run of trailing
   * whitespace.
   */
  lemma StripKeepsMiddle(s: string)
    ensures exists i, j :: 0 <= i <= j <= |s| && Strip(s) == s[i..j] && StrippedEnds(s, i, j)
  {
    var l := StripLeft(s);
    var r := StripRight(l);
    var i := |s| - |l|;
    var j := i + |r|;
    assert r == s[i..j] by {
      assert l == s[i..] && r == l[..|r|];
    }
    forall k | j <= k < |s| ensures IsSpace(s[k]) {
      assert s[k] == l[k - i];
    }
    assert StrippedEnds(s, i, j);
  }

  /** `sub` occurs in `s` starting at index `i`. */
  predicate OccursAt(s: string, sub: string, i: int)
  {
    0 <= i && i + |sub| <= |s| && s[i..i + |sub|] == sub
  }

  /** Python's `sub in s`. */
  ghost predicate Contains(s: string, sub: string)
  {
    exists i :: OccursAt(s, sub, i)
  }

  /** `s.find(sub, start)`: the first occurrence at or after `start`, or -1. */
  function FindFrom(s: string, sub: string, start: nat): (r: int)
    ensures r == -1 || (start <= r && OccursAt(s, sub, r))
    ensures r == -1 ==> forall i :: start <= i ==> !OccursAt(s, sub, i)
    ensures r != -1 ==> forall i :: start <= i < r ==> !OccursAt(s, sub, i)
    decreases |s| - start
  {
    if start + |sub| > |s| then -1
    else if s[start..start + |sub|] == sub then start
    else FindFrom(s, sub, start + 1)
  }

  /** `s.find(sub)`: -1 exactly when `sub` does not occur, otherwise the first index. */
  function Find(s: string, sub: string): (r: int)
    ensures r == -1 <==> !Contains(s, sub)
    ensures r != -1 ==> OccursAt(s, sub, r) && forall i :: 0 <= i < r ==> !OccursAt(s, sub, i)
  {
    FindFrom(s, sub, 0)
  }

  /** `s.replace(pat, rep)`: every occurrence found scanning left to right, without overlaps. */
  function Replace(s: string, pat: string, rep: string): (r: string)
    requires pat != []
    ensures rep == pat ==> r == s
    ensures |rep| <= |pat| ==> |r| <= |s|
    ensures |rep| >= |pat| ==> |r| >= |s|
    decreases |s|
  {
    if |s| < |pat| then s
    else if s[..|pat|] == pat then rep + Replace(s[|pat|..], pat, rep)
    else [s[0]] + Replace(s[1..], pat, rep)
  }

  /** `"".join(s.split(c)[:1])`: everything before the first `c`, or all of `s`. */
  function BeforeFirst(s: string, c: char): (r: string)
    ensures |r| <= |s| && r == s[..|r|]
    ensures c !in r
    ensures |r| < |s| ==> s[|r|] == c
  {
    if s == [] || s[0] == c then [] else [s[0]] + BeforeFirst(s[1..], c)
  }

  /** `s[:n]` for a non-negative `n`. */
  function Truncate(s: string, n: nat): (r: string)
    ensures |r| <= n && |r| <= |s| && r == s[..|r|]
    ensures |s| <= n ==> r == s
    ensures n <= |s| ==> |r| == n
  {
    if |s| <= n then s else s[..n]
  }

  /** An occurrence in a tail is an occurrence in the whole, shifted by the tail's offset. */
  lemma OccursInTail(s: string, sub: string, k: nat, i: int)
    requires k <= |s| && OccursAt(s[k..], sub, i)
    ensures OccursAt(s, sub, i + k)
  {
    assert s[k..][i..i + |sub|] == s[i + k..i + k + |sub|];
  }

  /** Replacing a pattern that does not occur changes nothing. */
  lemma {:induction false} ReplaceAbsent(s: string, pat: string, rep: string)
    requires pat != [] && !Contains(s, pat)
    ensures Replace(s, pat, rep) == s
    decreases |s|
  {
    if |s| < |pat| {
    } else {
      assert !OccursAt(s, pat, 0);
      assert s[..|pat|] != pat;
      forall i | OccursAt(s[1..], pat, i) ensures false {
        OccursInTail(s, pat, 1, i);
      }
      ReplaceAbsent(s[1..], pat, rep);
    }
  }

  /**
   * `replace` copies a prefix in which no occurrence of the pattern starts
   * and carries on with the rest of the text.
   */
  lemma {:induction false} ReplaceAfterPrefix(a: string, x: string, pat: string, rep: string)
    requires pat != []
    requires forall i :: 0 <= i < |a| ==> !OccursAt(a + x, pat, i)
    ensures Replace(a + x, pat, rep) == a + Replace(x, pat, rep)
    decreases |a|
  {
    if a == [] {
      assert a + x == x;
    } else {
      var s := a + x;
      if |s| < |pat| {
        assert Replace(x, pat, rep) == x;
      } else {
        assert !OccursAt(s, pat, 0);
        assert s[1..] == a[1..] + x;
        forall i | 0 <= i < |a| - 1 ensures !OccursAt(a[1..] + x, pat, i) {
          if OccursAt(a[1..] + x, pat, i) {
            OccursInTail(s, pat, 1, i);
          }
        }
        assert s[..|pat|] != pat && s[0] == a[0];
        assert Replace(s, pat, rep) == [a[0]] + Replace(a[1..] + x, pat, rep);
        ReplaceAfterPrefix(a[1..], x, pat, rep);
        assert a == [a[0]] + a[1..];
      }
    }
  }

  /** Every character of `a` is absent from `b`. */
  predicate NoSharedChars(a: string, b: string)
  {
    forall i :: 0 <= i < |a| ==> a[i] !in b
  }

  /**
   * A prefix of the replaced text is either the same prefix of the input or
   * already holds a character of the replacement.
   */
  lemma {:induction false} ReplacePrefix(s: string, pat: string, rep: string, m: nat)
    requires pat != [] && rep != []
    requires m <= |Replace(s, pat, rep)|
    ensures (m <= |s| && Replace(s, pat, rep)[..m] == s[..m])
         || exists i :: 0 <= i < m && Replace(s, pat, rep)[i] in rep
    decreases |s|
  {
    var r := Replace(s, pat, rep);
    if |s| < |pat| {
    } else if s[..|pat|] == pat {
      if m > 0 {
        assert r[0] == rep[0];
        assert r[0] in rep;
      }
    } else if m > 0 {
      var t := Replace(s[1..], pat, rep);
      assert r == [s[0]] + t;
      ReplacePrefix(s[1..], pat, rep, m - 1);
      if m - 1 <= |s[1..]| && t[..m - 1] == s[1..][..m - 1] {
        assert r[..m] == [s[0]] + t[..m - 1];
        assert s[..m] == [s[0]] + s[1..][..m - 1];
      } else {
        var i :| 0 <= i < m - 1 && t[i] in rep;
        assert r[i + 1] == t[i];
      }
    }
  }

  /**
   * When the pattern and the replacement share no character, no occurrence of
   * the pattern survives the replacement.
   */
  lemma {:induction false} ReplaceRemovesAll(s: string, pat: string, rep: string)
    requires pat != [] && rep != [] && NoSharedChars(pat, rep)
    ensures !Contains(Replace(s, pat, rep), pat)
    decreases |s|
  {
    if |s| < |pat| {
      assert |Replace(s, pat, rep)| < |pat|;
    } else if s[..|pat|] == pat {
      ReplaceRemovesAll(s[|pat|..], pat, rep);
      AbsentAfterReplacement(rep, Replace(s[|pat|..], pat, rep), pat);
    } else {
      ReplaceRemovesAll(s[1..], pat, rep);
      ReplaceHeadClean(s, pat, rep);
      AbsentAfterHead(s[0], Replace(s[1..], pat, rep), pat);
    }
  }

  /** A replacement text followed by a clean text is clean. */
  lemma AbsentAfterReplacement(rep: string, t: string, pat: string)
    requires pat != [] && NoSharedChars(pat, rep) && !Contains(t, pat)
    ensures !Contains(rep + t, pat)
  {
    var r := rep + t;
    forall i | 0 <= i && i + |pat| <= |r| ensures !OccursAt(r, pat, i) {
      if i < |rep| {
        assert r[i] == rep[i] && pat[0] !in rep;
        assert r[i..i + |pat|][0] != pat[0];
      } else {
        assert r[i..i + |pat|] == t[i - |rep|..i - |rep| + |pat|];
        assert !OccursAt(t, pat, i - |rep|);
      }
    }
  }

  /** One character followed by a clean text is clean unless the pattern starts at that character. */
  lemma AbsentAfterHead(c: char, t: string, pat: string)
    requires !Contains(t, pat) && !OccursAt([c] + t, pat, 0)
    ensures !Contains([c] + t, pat)
  {
    var r := [c] + t;
    forall i | 0 < i && i + |pat| <= |r| ensures !OccursAt(r, pat, i) {
      assert r[i..i + |pat|] == t[i - 1..i - 1 + |pat|];
      assert !OccursAt(t, pat, i - 1);
    }
  }

  /** When the input does not start with the pattern, neither does its replacement. */
  lemma ReplaceHeadClean(s: string, pat: string, rep: string)
    requires pat != [] && rep != [] && NoSharedChars(pat, rep)
    requires |pat| <= |s| && s[..|pat|] != pat
    ensures !OccursAt(Replace(s, pat, rep), pat, 0)
  {
    var t := Replace(s[1..], pat, rep);
    var r := Replace(s, pat, rep);
    assert r == [s[0]] + t;
    if |pat| <= |r| {
      ReplacePrefix(s[1..], pat, rep, |pat| - 1);
      if |pat| - 1 <= |s[1..]| && t[..|pat| - 1] == s[1..][..|pat| - 1] {
        assert r[..|pat|] == [s[0]] + t[..|pat| - 1];
        assert s[..|pat|] == [s[0]] + s[1..][..|pat| - 1];
      } else {
        var j :| 0 <= j < |pat| - 1 && t[j] in rep;
        assert r[j + 1] == t[j] && pat[j + 1] !in rep;
        assert r[..|pat|][j + 1] != pat[j + 1];
      }
    }
  }

  /** A slice of a text in which `sub` never occurs holds no occurrence either. */
  lemma AbsentFromSlice(s: string, sub: string, a: nat, b: nat)
    requires a <= b <= |s| && !Contains(s, sub)
    ensures !Contains(s[a..b], sub)
  {
    forall i | 0 <= i && i + |sub| <= b - a ensures !OccursAt(s[a..b], sub, i) {
      var u := s[a..b];
      assert forall j :: 0 <= j < |u| ==> u[j] == s[a + j];
      assert u[i..i + |sub|] == s[a + i..a + i + |sub|];
      assert !OccursAt(s, sub, a + i);
    }
  }
}
