/**
 * The few `str` operations the client relies on: `char::is_whitespace`,
 * `str::trim`, `str::split` on a one-character pattern, and `str::find`.
 */
module Strings {
  import opened Results

  /** `char::is_whitespace`: the characters with the Unicode White_Space property. */
  predicate IsWhitespace(c: char) {
    || ('\t' <= c <= '\r')
    || c == ' ' || c == '\U{0085}' || c == '\U{00A0}' || c == '\U{1680}'
    || ('\U{2000}' <= c <= '\U{200A}')
    || c == '\U{2028}' || c == '\U{2029}' || c == '\U{202F}' || c == '\U{205F}' || c == '\U{3000}'
  }

  ghost predicate AllWhitespace(s: string) {
    forall k :: 0 <= k < |s| ==> IsWhitespace(s[k])
  }

  /** Neither the first nor the last character is whitespace. */
  predicate IsTrimmed(s: string) {
    s == [] || (!IsWhitespace(s[0]) && !IsWhitespace(s[|s| - 1]))
  }

  /** `r` is `s` with some whitespace characters removed from its front. */
  ghost predicate WhitespaceDroppedFront(s: string, r: string) {
    && |r| <= |s| && r == s[|s| - |r|..]
    && (forall k :: 0 <= k < |s| - |r| ==> IsWhitespace(s[k]))
  }

  /** `r` is `s` with some whitespace characters removed from its back. */
  ghost predicate WhitespaceDroppedBack(s: string, r: string) {
    && |r| <= |s| && r == s[..|r|]
    && (forall k :: |r| <= k < |s| ==> IsWhitespace(s[k]))
  }

  /** `str::trim_start`: drops the longest whitespace prefix. */
  function TrimStart(s: string): (r: string)
    ensures WhitespaceDroppedFront(s, r)
    ensures r != [] ==> !IsWhitespace(r[0])
    decreases |s|
  {
    if |s| > 0 && IsWhitespace(s[0]) then
      var r := TrimStart(s[1..]);
      assert s[1..][|s| - 1 - |r|..] == s[|s| - |r|..];
      assert forall k :: 1 <= k < |s| - |r| ==> s[k] == s[1..][k - 1];
      r
    else s
  }

  /** `str::trim_end`: drops the longest whitespace suffix. */
  function TrimEnd(s: string): (r: string)
    ensures WhitespaceDroppedBack(s, r)
    ensures r != [] ==> !IsWhitespace(r[|r| - 1])
    decreases |s|
  {
    if |s| > 0 && IsWhitespace(s[|s| - 1]) then
      var r := TrimEnd(s[..|s| - 1]);
      assert s[..|s| - 1][..|r|] == s[..|r|];
      r
    else s
  }

  /**
   * `r` is what is left of `s` once the first `i` characters and everything
   * after `r`, all of them whitespace, are removed.
   */
  ghost predicate TrimmedFrom(s: string, r: string, i: nat) {
    && i + |r| <= |s|
    && r == s[i..i + |r|]
    && (forall k :: 0 <= k < i ==> IsWhitespace(s[k]))
    && (forall k :: i + |r| <= k < |s| ==> IsWhitespace(s[k]))
  }

  /**
   * `str::trim`: the result is the slice of `s` left after removing a
   * whitespace prefix and a whitespace suffix, and it neither starts nor
   * ends with whitespace; together these determine it.
   */
  function Trim(s: string): (r: string)
    ensures IsTrimmed(r)
    ensures exists i: nat :: TrimmedFrom(s, r, i)
  {
    var t := TrimStart(s);
    var r := TrimEnd(t);
    PrefixOfSuffix(s, t, r);
    r
  }

  /**
   * A prefix `r` of a suffix `t` of `s` is what is left once the characters
   * before `t` and the characters of `t` after `r`, all whitespace, are removed.
   */
  lemma PrefixOfSuffix(s: string, t: string, r: string)
    requires WhitespaceDroppedFront(s, t) && WhitespaceDroppedBack(t, r)
    ensures TrimmedFrom(s, r, |s| - |t|)
  {
    var i := |s| - |t|;
    assert s[i..][..|r|] == s[i..i + |r|];
    forall k | i + |r| <= k < |s|
      ensures IsWhitespace(s[k])
    {
      assert s[k] == t[k - i];
    }
  }

  /** Trimming only removes characters: one absent before is absent after. */
  lemma TrimKeepsAbsent(s: string, c: char)
    requires c !in s
    ensures c !in Trim(s)
  {
    var r := Trim(s);
    var i: nat :| TrimmedFrom(s, r, i);
    SliceKeepsAbsent(s, r, i, c);
  }

  lemma SliceKeepsAbsent(s: string, r: string, i: nat, c: char)
    requires c !in s && i + |r| <= |s| && r == s[i..i + |r|]
    ensures c !in r
  {
    assert forall k :: 0 <= k < |r| ==> r[k] == s[i + k];
  }

  /** A whitespace prefix in front of a non-whitespace character is what `TrimStart` removes. */
  lemma {:induction false} TrimStartSkips(w: string, t: string)
    requires AllWhitespace(w) && (t == [] || !IsWhitespace(t[0]))
    ensures TrimStart(w + t) == t
    decreases |w|
  {
    if w != [] {
      assert (w + t)[1..] == w[1..] + t;
      TrimStartSkips(w[1..], t);
    }
  }

  /** A whitespace suffix behind a non-whitespace character is what `TrimEnd` removes. */
  lemma {:induction false} TrimEndSkips(t: string, w: string)
    requires AllWhitespace(w) && (t == [] || !IsWhitespace(t[|t| - 1]))
    ensures TrimEnd(t + w) == t
    decreases |w|
  {
    if w != [] {
      assert (t + w)[..|t + w| - 1] == t + w[..|w| - 1];
      TrimEndSkips(t, w[..|w| - 1]);
    } else {
      assert t + w == t;
    }
  }

  /** The characterisation in `Trim`'s contract determines the trim. */
  lemma TrimUnique(s: string, r: string, i: nat)
    requires TrimmedFrom(s, r, i) && IsTrimmed(r)
    ensures Trim(s) == r
  {
    var pre, post := s[..i], s[i + |r|..];
    assert s == pre + (r + post);
    if r == [] {
      assert AllWhitespace(s);
      assert s == s + [];
      TrimStartSkips(s, []);
    } else {
      TrimStartSkips(pre, r + post);
      TrimEndSkips(r, post);
    }
  }

  /** A string that is already trimmed is its own trim. */
  lemma TrimOfTrimmed(s: string)
    requires IsTrimmed(s)
    ensures Trim(s) == s
  {
    assert TrimStart(s) == s;
    assert TrimEnd(s) == s;
  }

  /** Trimming twice is trimming once. */
  lemma TrimIdempotent(s: string)
    ensures Trim(Trim(s)) == Trim(s)
  {
    TrimOfTrimmed(Trim(s));
  }

  /** Number of occurrences of `c` in `s`. */
  function Count(s: string, c: char): nat
    decreases |s|
  {
    if s == [] then 0 else (if s[0] == c then 1 else 0) + Count(s[1..], c)
  }

  /**
   * `str::split` on the one-character pattern `sep`: the pieces between
   * separators, empty pieces kept, so there is always one more piece than
   * there are separators and no piece contains `sep`.
   */
  function Split(s: string, sep: char): (r: seq<string>)
    ensures |r| == Count(s, sep) + 1
    ensures forall k :: 0 <= k < |r| ==> sep !in r[k]
    decreases |s|
  {
    if s == [] then [[]]
    else
      var rest := Split(s[1..], sep);
      if s[0] == sep then [[]] + rest
      else
        assert sep !in rest[0];
        [[s[0]] + rest[0]] + rest[1..]
  }

  /** The pieces glued back together with `sep` between consecutive ones. */
  function Join(parts: seq<string>, sep: char): string
    decreases |parts|
  {
    if parts == [] then []
    else if |parts| == 1 then parts[0]
    else parts[0] + [sep] + Join(parts[1..], sep)
  }

  /** Splitting loses nothing: the pieces join back to the input. */
  lemma {:induction false} JoinSplit(s: string, sep: char)
    ensures Join(Split(s, sep), sep) == s
    decreases |s|
  {
    if s != [] {
      var rest := Split(s[1..], sep);
      JoinSplit(s[1..], sep);
      if s[0] != sep {
        var r := Split(s, sep);
        assert r == [[s[0]] + rest[0]] + rest[1..];
        if |rest| == 1 {
          assert Join(r, sep) == [s[0]] + rest[0];
        } else {
          assert r[1..] == rest[1..];
          assert Join(rest, sep) == rest[0] + [sep] + Join(rest[1..], sep);
        }
      } else {
        assert Split(s, sep) == [[]] + rest;
      }
    }
  }

  /** A string without `sep` splits into itself. */
  lemma {:induction false} SplitWithoutSeparator(s: string, sep: char)
    requires sep !in s
    ensures Split(s, sep) == [s]
    decreases |s|
  {
    if s != [] {
      assert sep !in s[1..];
      SplitWithoutSeparator(s[1..], sep);
      assert [s[0]] + s[1..] == s;
    }
  }

  /** Splitting `a + [sep] + b`, where `a` has no separator, yields `a` first. */
  lemma {:induction false} SplitAfterPiece(a: string, b: string, sep: char)
    requires sep !in a
    ensures Split(a + [sep] + b, sep) == [a] + Split(b, sep)
    decreases |a|
  {
    var s := a + [sep] + b;
    if a == [] {
      assert s[1..] == b;
    } else {
      assert s[1..] == a[1..] + [sep] + b;
      assert sep !in a[1..];
      SplitAfterPiece(a[1..], b, sep);
      assert [a[0]] + a[1..] == a;
    }
  }

  /** Joining pieces free of `sep` and splitting again gives the pieces back. */
  lemma {:induction false} SplitJoin(parts: seq<string>, sep: char)
    requires |parts| >= 1
    requires forall k :: 0 <= k < |parts| ==> sep !in parts[k]
    ensures Split(Join(parts, sep), sep) == parts
    decreases |parts|
  {
    if |parts| == 1 {
      SplitWithoutSeparator(parts[0], sep);
    } else {
      SplitJoin(parts[1..], sep);
      SplitAfterPiece(parts[0], Join(parts[1..], sep), sep);
      assert [parts[0]] + parts[1..] == parts;
    }
  }

  /** `pat` occurs in `s` starting at character index `k`. */
  predicate OccursAt(s: string, pat: string, k: nat) {
    k + |pat| <= |s| && s[k..k + |pat|] == pat
  }

  ghost predicate Contains(s: string, pat: string) {
    exists k: nat :: OccursAt(s, pat, k)
  }

  /** The first occurrence of `pat` in `s` at or after index `i`. */
  function FindFrom(s: string, pat: string, i: nat): (r: Option<nat>)
    ensures r.Some? ==> i <= r.value && OccursAt(s, pat, r.value)
    ensures r.Some? ==> forall k: nat :: i <= k < r.value ==> !OccursAt(s, pat, k)
    ensures r.None? ==> forall k: nat :: i <= k ==> !OccursAt(s, pat, k)
    decreases |s| - i
  {
    if i + |pat| > |s| then None
    else if s[i..i + |pat|] == pat then Some(i)
    else FindFrom(s, pat, i + 1)
  }

  /**
   * `str::find`: the index of the first occurrence of `pat`, or None when
   * `pat` does not occur. (Rust reports a byte offset; here it is a
   * character index, which changes nothing about whether one is found.)
   */
  function Find(s: string, pat: string): (r: Option<nat>)
    ensures r.Some? <==> Contains(s, pat)
    ensures r.Some? ==> OccursAt(s, pat, r.value)
                        && forall k: nat :: k < r.value ==> !OccursAt(s, pat, k)
  {
    FindFrom(s, pat, 0)
  }
}
