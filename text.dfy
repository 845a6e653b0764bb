/**
  The Python string operations the response extraction is built from, with
  Python's semantics: `find`, `rfind`, slicing with negative and out-of-range
  indices, `split(sep, 1)[-1]`, `replace(pat, "")` and `endswith`.
 */
module Text {

  /** sub occurs in s starting at index i */
  predicate OccursAt(s: string, sub: string, i: int)
  {
    0 <= i && i + |sub| <= |s| && s[i..i + |sub|] == sub
  }

  /** `s.find(sub)`: the index of the first occurrence of sub, or -1. */
  function Find(s: string, sub: string): (r: int)
    ensures -1 <= r <= |s|
    ensures r >= 0 ==> OccursAt(s, sub, r)
    ensures r >= 0 ==> forall j :: 0 <= j < r ==> !OccursAt(s, sub, j)
    ensures r == -1 ==> forall j :: !OccursAt(s, sub, j)
  {
    if |s| < |sub| then -1
    else if s[..|sub|] == sub then 0
    else
      var k := Find(s[1..], sub);
      OccursShift(s, sub);
      if k < 0 then -1 else k + 1
  }

  /** An occurrence at j >= 1 in s is one at j - 1 in s[1..]. */
  lemma OccursShift(s: string, sub: string)
    requires s != []
    ensures forall j :: 1 <= j ==> (OccursAt(s, sub, j) <==> OccursAt(s[1..], sub, j - 1))
  {
    forall j | 1 <= j
      ensures OccursAt(s, sub, j) <==> OccursAt(s[1..], sub, j - 1)
    {
      if j + |sub| <= |s| {
        var a, b := s[j..j + |sub|], s[1..][j - 1..j - 1 + |sub|];
        assert |a| == |b| && forall k :: 0 <= k < |a| ==> a[k] == s[j + k] == b[k];
        assert a == b;
      }
    }
  }

  /** For a one-character string, `find` succeeds exactly when the character occurs, at its first occurrence. */
  lemma FindChar(s: string, c: char)
    ensures Find(s, [c]) >= 0 <==> c in s
    ensures Find(s, [c]) >= 0 ==> s[Find(s, [c])] == c && c !in s[..Find(s, [c])]
  {
    var i := Find(s, [c]);
    if i >= 0 {
      assert s[i..i + 1] == [c];
      assert s[i] == c && s[i] in s;
    }
    var bound := if i >= 0 then i else |s|;
    forall j | 0 <= j < bound
      ensures s[j] != c
    {
      assert !OccursAt(s, [c], j);
      assert s[j..j + 1] == [s[j]];
    }
  }

  /** Regrouping a concatenation of four strings, stated once so that concrete strings need not be unfolded. */
  lemma Regroup(a: string, b: string, c: string, d: string)
    ensures a + (b + c) + d == (a + b) + (c + d)
    ensures a + b + c + d == (a + b) + (c + d)
  {
  }

  /** `s.rfind(c)` for a one-character string: the index of the last c, or -1. */
  function RFind(s: string, c: char): (r: int)
    ensures -1 <= r < |s|
    ensures r >= 0 ==> s[r] == c && forall j :: r < j < |s| ==> s[j] != c
    ensures r == -1 <==> c !in s
  {
    if s == [] then -1
    else if s[|s| - 1] == c then |s| - 1
    else
      assert s == s[..|s| - 1] + [s[|s| - 1]];
      RFind(s[..|s| - 1], c)
  }

  /** Python's treatment of one slice bound: a negative index counts from the end; both are clamped. */
  function SliceIndex(i: int, n: nat): (r: nat)
    ensures r <= n
    ensures 0 <= i <= n ==> r == i
    ensures i < 0 && i + n >= 0 ==> r == i + n
    ensures i + n < 0 ==> r == 0
    ensures i > n ==> r == n
  {
    if i < 0 then (if i + n < 0 then 0 else i + n)
    else if i > n then n
    else i
  }

  /** `s[start:stop]` */
  function Slice(s: string, start: int, stop: int): (r: string)
    ensures 0 <= start <= stop <= |s| ==> r == s[start..stop]
    ensures |r| <= |s|
    ensures r != [] ==> exists a :: OccursAt(s, r, a)
  {
    var a := SliceIndex(start, |s|);
    var b := SliceIndex(stop, |s|);
    if a < b then
      assert OccursAt(s, s[a..b], a);
      s[a..b]
    else []
  }

  /** `s.endswith(suffix)` */
  predicate EndsWith(s: string, suffix: string)
    ensures EndsWith(s, suffix) ==> |suffix| <= |s| && s == s[..|s| - |suffix|] + suffix
  {
    |suffix| <= |s| && s[|s| - |suffix|..] == suffix
  }

  /** Any text followed by the suffix ends with it. */
  lemma EndsWithAppend(p: string, suffix: string)
    ensures EndsWith(p + suffix, suffix)
  {
    assert (p + suffix)[|p|..] == suffix;
  }

  /** `s[-2:]`, the last two characters, compared with `]}` in the patch step. */
  lemma LastTwo(s: string, t: string)
    requires |t| == 2
    ensures (Slice(s, -2, |s|) == t) <==> EndsWith(s, t)
  {
  }

  /**
    `s.split(sep, 1)[-1]`: what follows the first occurrence of sep, or the
    whole of s when sep does not occur.
   */
  function AfterFirst(s: string, sep: string): (r: string)
    requires sep != []
    ensures Find(s, sep) < 0 ==> r == s
    ensures Find(s, sep) >= 0 ==> s == s[..Find(s, sep)] + sep + r
  {
    var i := Find(s, sep);
    if i < 0 then s
    else
      assert s == s[..i] + s[i..i + |sep|] + s[i + |sep|..];
      s[i + |sep|..]
  }

  /**
    `s.replace(pat, "")`: scanning from the left, every occurrence of pat
    that does not overlap an earlier one is deleted.
   */
  function RemoveAll(s: string, pat: string): (r: string)
    requires pat != []
    ensures |r| <= |s|
    ensures forall c :: c !in pat ==> multiset(r)[c] == multiset(s)[c]
    decreases |s|
  {
    if |s| < |pat| then s
    else if s[..|pat|] == pat then
      var r := RemoveAll(s[|pat|..], pat);
      assert s == s[..|pat|] + s[|pat|..];
      assert multiset(s) == multiset(s[..|pat|]) + multiset(s[|pat|..]);
      r
    else
      var r := RemoveAll(s[1..], pat);
      assert s == [s[0]] + s[1..];
      assert multiset(s) == multiset([s[0]]) + multiset(s[1..]);
      [s[0]] + r
  }

  /**
    `replace` deletes something exactly when the pattern occurs: without an
    occurrence the text is unchanged, and with one it loses at least one
    copy of the pattern's length.
   */
  lemma {:induction false} RemoveAllDeletes(s: string, pat: string)
    requires pat != []
    ensures (forall i :: !OccursAt(s, pat, i)) ==> RemoveAll(s, pat) == s
    ensures (exists i :: OccursAt(s, pat, i)) ==> |RemoveAll(s, pat)| <= |s| - |pat|
    decreases |s|
  {
    if |s| < |pat| {
    } else if s[..|pat|] == pat {
      assert OccursAt(s, pat, 0);
    } else {
      RemoveAllDeletes(s[1..], pat);
      OccursShift(s, pat);
      assert !OccursAt(s, pat, 0);
      if exists i :: OccursAt(s, pat, i) {
        var i :| OccursAt(s, pat, i);
        assert OccursAt(s[1..], pat, i - 1);
      } else {
        forall j ensures !OccursAt(s[1..], pat, j) {
          assert !OccursAt(s, pat, j + 1);
        }
        assert s == [s[0]] + s[1..];
      }
    }
  }

  /**
    `replace` finds the first occurrence, keeps what precedes it, drops it and
    carries on after it: every non-overlapping occurrence goes, not only the
    first.
   */
  lemma {:induction false} RemoveAllAtFirst(s: string, pat: string)
    requires pat != []
    ensures Find(s, pat) >= 0 ==>
              RemoveAll(s, pat) == s[..Find(s, pat)] + RemoveAll(s[Find(s, pat) + |pat|..], pat)
    decreases |s|
  {
    if |s| < |pat| {
      assert Find(s, pat) == -1;
    } else if s[..|pat|] == pat {
      assert Find(s, pat) == 0;
      RemoveAllMatch(s, pat);
      assert s[..0] == [];
    } else {
      FindSkip(s, pat);
      if Find(s[1..], pat) >= 0 {
        RemoveAllAtFirst(s[1..], pat);
        RemoveAllAtFirstStep(s, pat, Find(s[1..], pat));
      }
    }
  }

  /** The step of RemoveAllAtFirst past a first character that does not start pat. */
  lemma RemoveAllAtFirstStep(s: string, pat: string, k: nat)
    requires pat != [] && |s| >= |pat| && s[..|pat|] != pat
    requires k + |pat| < |s|
    requires RemoveAll(s[1..], pat) == s[1..][..k] + RemoveAll(s[1..][k + |pat|..], pat)
    ensures RemoveAll(s, pat) == s[..k + 1] + RemoveAll(s[k + 1 + |pat|..], pat)
  {
    assert s[1..][k + |pat|..] == s[k + 1 + |pat|..];
    RemoveAllSkip(s, pat);
    ConsSlice(s, k);
    ConsRegroup(s[0], s[1..][..k], RemoveAll(s[k + 1 + |pat|..], pat));
  }

  /** Past a first character that does not start sub, `find` searches the rest. */
  lemma FindSkip(s: string, sub: string)
    requires |s| >= |sub| && s[..|sub|] != sub
    ensures Find(s, sub) == if Find(s[1..], sub) < 0 then -1 else Find(s[1..], sub) + 1
  {
  }

  /** An occurrence at the front is dropped, and the scan goes on after it. */
  lemma RemoveAllMatch(s: string, pat: string)
    requires pat != [] && |s| >= |pat| && s[..|pat|] == pat
    ensures RemoveAll(s, pat) == [] + RemoveAll(s[|pat|..], pat)
  {
  }

  /** A first character that does not start pat is kept, and the scan goes on after it. */
  lemma RemoveAllSkip(s: string, pat: string)
    requires pat != [] && |s| >= |pat| && s[..|pat|] != pat
    ensures RemoveAll(s, pat) == [s[0]] + RemoveAll(s[1..], pat)
  {
  }

  /** Concatenation regroups around a leading character. */
  lemma ConsRegroup(c: char, h: string, r: string)
    ensures [c] + (h + r) == ([c] + h) + r
  {
  }

  /** The first character followed by the next k is the first k + 1. */
  lemma ConsSlice(s: string, k: nat)
    requires k < |s|
    ensures [s[0]] + s[1..][..k] == s[..k + 1]
  {
    assert |[s[0]] + s[1..][..k]| == k + 1;
  }

  /** Deleting a one-character string removes every occurrence of that character. */
  lemma {:induction false} RemoveAllChar(s: string, c: char)
    ensures c !in RemoveAll(s, [c])
    ensures forall d :: d != c ==> (d in RemoveAll(s, [c]) <==> d in s)
    decreases |s|
  {
    if |s| >= 1 {
      RemoveAllChar(s[1..], c);
      assert s == [s[0]] + s[1..];
    }
  }

  /** A leading character that cannot start pat is kept in front. */
  lemma RemoveAllCons(x: char, t: string, pat: string)
    requires pat != [] && x != pat[0]
    ensures RemoveAll([x] + t, pat) == [x] + RemoveAll(t, pat)
  {
    var s := [x] + t;
    assert s[1..] == t;
    if |s| < |pat| {
      if |t| >= |pat| - 1 && |pat| >= 2 {
      }
      assert RemoveAll(t, pat) == t;
    } else {
      assert s[..|pat|][0] == x;
    }
  }

  /** A prefix in which pat's first character never occurs survives `replace` unchanged. */
  lemma {:induction false} RemoveAllPrefix(p: string, t: string, pat: string)
    requires pat != [] && pat[0] !in p
    ensures RemoveAll(p + t, pat) == p + RemoveAll(t, pat)
  {
    if p == [] {
      assert p + t == t;
    } else {
      var rest := p[1..] + t;
      assert p + t == [p[0]] + rest;
      RemoveAllPrefix(p[1..], t, pat);
      RemoveAllCons(p[0], rest, pat);
      assert [p[0]] + (p[1..] + RemoveAll(t, pat)) == p + RemoveAll(t, pat);
    }
  }

  /** For a one-character pattern, a suffix free of it survives unchanged at the end. */
  lemma {:induction false} RemoveCharSuffix(t: string, q: string, c: char)
    requires c !in q
    ensures RemoveAll(t + q, [c]) == RemoveAll(t, [c]) + RemoveAll(q, [c])
    ensures RemoveAll(q, [c]) == q
    decreases |t| + |q|
  {
    if t == [] {
      assert t + q == q;
      RemoveNothing(q, c);
    } else {
      assert (t + q)[1..] == t[1..] + q;
      assert (t + q)[0] == t[0];
      RemoveCharSuffix(t[1..], q, c);
    }
  }

  /** Deleting a character that does not occur changes nothing. */
  lemma {:induction false} RemoveNothing(s: string, c: char)
    requires c !in s
    ensures RemoveAll(s, [c]) == s
    decreases |s|
  {
    if s != [] {
      RemoveNothing(s[1..], c);
      assert s == [s[0]] + s[1..];
    }
  }
}
