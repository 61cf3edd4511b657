/** The stock Option type. */
module Wrappers {
  datatype Option<+T> = None | Some(value: T)
}

/**
 * The Python string operations the bot relies on, over strings of Unicode
 * code points: `str.strip()`, `str.split(sep)`, `str.startswith` and the
 * substring test `needle in haystack`.
 */
module Text {

  /** Python's `str.isspace` on one code point: exactly what `str.strip()` removes. */
  predicate IsSpace(c: char) {
    || ('\t' <= c <= '\r')
    || ('\U{1C}' <= c <= '\U{1F}')
    || c == ' '
    || c == '\U{85}'
    || c == '\U{A0}'
    || c == '\U{1680}'
    || ('\U{2000}' <= c <= '\U{200A}')
    || c == '\U{2028}'
    || c == '\U{2029}'
    || c == '\U{202F}'
    || c == '\U{205F}'
    || c == '\U{3000}'
  }

  /** `s.startswith(p)` */
  predicate HasPrefix(s: string, p: string) {
    |p| <= |s| && s[..|p|] == p
  }

  /** `w` sits in `h` starting at index `k`. */
  predicate OccursAt(h: string, w: string, k: int) {
    0 <= k && k + |w| <= |h| && h[k..k + |w|] == w
  }

  /** Inside an occurrence, the needle's characters are the haystack's. */
  lemma WindowAt(h: string, w: string, k: int, p: int)
    ensures OccursAt(h, w, k) && k <= p < k + |w| ==> w[p - k] == h[p]
  {
    if OccursAt(h, w, k) && k <= p < k + |w| {
      assert h[k..k + |w|][p - k] == h[p];
    }
  }

  /** Python's `w in h` on strings. */
  predicate Contains(h: string, w: string) {
    exists k :: 0 <= k <= |h| - |w| && OccursAt(h, w, k)
  }

  /** `s.lstrip()`: the longest suffix of `s` that does not start with whitespace. */
  function TrimStart(s: string): (r: string)
    ensures |r| <= |s| && r == s[|s| - |r|..]
    ensures r == [] || !IsSpace(r[0])
    ensures forall i :: 0 <= i < |s| - |r| ==> IsSpace(s[i])
  {
    if |s| > 0 && IsSpace(s[0]) then TrimStart(s[1..]) else s
  }

  /** `s.rstrip()`: the longest prefix of `s` that does not end with whitespace. */
  function TrimEnd(s: string): (r: string)
    ensures |r| <= |s| && r == s[..|r|]
    ensures r == [] || !IsSpace(r[|r| - 1])
    ensures forall i :: |r| <= i < |s| ==> IsSpace(s[i])
  {
    if |s| > 0 && IsSpace(s[|s| - 1]) then TrimEnd(s[..|s| - 1]) else s
  }

  /** `r` sits in `s` at index `k` with only whitespace before and after it. */
  predicate Trimmed(s: string, r: string, k: int) {
    && OccursAt(s, r, k)
    && (forall i :: 0 <= i < k ==> IsSpace(s[i]))
    && (forall i :: k + |r| <= i < |s| ==> IsSpace(s[i]))
  }

  /**
   * `s.strip()`: `s` without its leading and trailing whitespace. The result is
   * empty exactly when `s` is all whitespace, and otherwise starts and ends
   * with a non-space.
   */
  function Strip(s: string): (r: string)
    ensures |r| <= |s|
    ensures r == [] <==> forall i :: 0 <= i < |s| ==> IsSpace(s[i])
    ensures r != [] ==> !IsSpace(r[0]) && !IsSpace(r[|r| - 1])
    ensures exists k :: 0 <= k <= |s| - |r| && Trimmed(s, r, k)
  {
    var t := TrimStart(s);
    var r := TrimEnd(t);
    TrimmedWindow(s, t, r);
    r
  }

  /**
   * A suffix `t` of `s` after leading whitespace, and a prefix `r` of `t`
   * before trailing whitespace: `r` has only whitespace around it in `s`.
   */
  lemma TrimmedWindow(s: string, t: string, r: string)
    requires |t| <= |s| && t == s[|s| - |t|..] && forall i :: 0 <= i < |s| - |t| ==> IsSpace(s[i])
    requires |r| <= |t| && r == t[..|r|] && forall i :: |r| <= i < |t| ==> IsSpace(t[i])
    ensures Trimmed(s, r, |s| - |t|)
  {
    var k := |s| - |t|;
    assert s[k..][..|r|] == s[k..k + |r|];
    forall i | k + |r| <= i < |s| ensures IsSpace(s[i]) {
      assert t[i - k] == s[i];
    }
  }

  /** A string that neither starts nor ends with whitespace is its own strip. */
  lemma StripOfTrimmed(s: string)
    requires s != [] && !IsSpace(s[0]) && !IsSpace(s[|s| - 1])
    ensures Strip(s) == s
  {
  }

  /**
   * `s.split(sep)` with an explicit separator: the pieces between separators,
   * in order, empty pieces included; `"".split(sep)` is `[""]`.
   */
  function Split(s: string, sep: char): (r: seq<string>)
    ensures |r| >= 1
    ensures forall i :: 0 <= i < |r| ==> sep !in r[i]
  {
    if s == [] then [[]]
    else
      var rest := Split(s[1..], sep);
      if s[0] == sep then [[]] + rest else [[s[0]] + rest[0]] + rest[1..]
  }

  /** A string without the separator splits into itself alone. */
  lemma {:induction false} SplitWithoutSeparator(s: string, sep: char)
    requires sep !in s
    ensures Split(s, sep) == [s]
  {
    if s != [] {
      SplitWithoutSeparator(s[1..], sep);
      assert [s[0]] + s[1..] == s;
    }
  }

  /** `sep.join(ps)` */
  function Join(ps: seq<string>, sep: char): string
    requires |ps| >= 1
  {
    if |ps| == 1 then ps[0] else ps[0] + [sep] + Join(ps[1..], sep)
  }

  /** Splitting loses nothing: joining the pieces back gives the original string. */
  lemma {:induction false} JoinSplit(s: string, sep: char)
    ensures Join(Split(s, sep), sep) == s
  {
    if s != [] {
      var rest := Split(s[1..], sep);
      JoinSplit(s[1..], sep);
      if s[0] == sep {
        assert Split(s, sep) == [[]] + rest;
        assert ([[]] + rest)[1..] == rest;
      } else {
        var r := Split(s, sep);
        assert r == [[s[0]] + rest[0]] + rest[1..];
        if |rest| == 1 {
          assert Join(r, sep) == [s[0]] + rest[0];
        } else {
          assert r[1..] == rest[1..];
          assert Join(rest, sep) == rest[0] + [sep] + Join(rest[1..], sep);
        }
      }
    }
  }

  lemma SliceOfLeft(a: string, b: string, i: int, j: int)
    requires 0 <= i <= j <= |a|
    ensures (a + b)[i..j] == a[i..j]
  {
  }

  lemma SliceOfRight(a: string, b: string, i: int, j: int)
    requires 0 <= i <= j <= |b|
    ensures (a + b)[|a| + i..|a| + j] == b[i..j]
  {
  }

  /** An occurrence in either part is an occurrence in the concatenation. */
  lemma ContainsInConcat(a: string, b: string, w: string)
    ensures Contains(a, w) ==> Contains(a + b, w)
    ensures Contains(b, w) ==> Contains(a + b, w)
  {
    if Contains(a, w) {
      var k :| 0 <= k <= |a| - |w| && OccursAt(a, w, k);
      SliceOfLeft(a, b, k, k + |w|);
      assert OccursAt(a + b, w, k);
    }
    if Contains(b, w) {
      var k :| 0 <= k <= |b| - |w| && OccursAt(b, w, k);
      SliceOfRight(a, b, k, k + |w|);
      assert OccursAt(a + b, w, |a| + k);
    }
  }

  /**
   * A non-empty needle none of whose characters occurs in `sep` cannot straddle
   * `sep`: an occurrence in `a + sep + b` lies within `a` or within `b`.
   */
  lemma ContainsAcrossSeparator(a: string, sep: string, b: string, w: string)
    requires |w| > 0 && |sep| > 0
    requires forall i :: 0 <= i < |w| ==> w[i] !in sep
    requires Contains(a + sep + b, w)
    ensures Contains(a, w) || Contains(b, w)
  {
    var h := a + sep + b;
    var k :| 0 <= k <= |h| - |w| && OccursAt(h, w, k);
    assert h == a + (sep + b);
    if k + |w| <= |a| {
      SliceOfLeft(a, sep + b, k, k + |w|);
      assert OccursAt(a, w, k);
    } else if k >= |a| + |sep| {
      var j := k - |a| - |sep|;
      SliceOfRight(a + sep, b, j, j + |w|);
      assert OccursAt(b, w, j);
    } else {
      // The window [k, k + |w|) would meet a character of sep.
      var p := if k >= |a| then k else |a|;
      WindowAt(h, w, k, p);
      assert false;
    }
  }
}
