/** The handful of Python `str` operations the client relies on: `split` on one
    separator character, `join`, `strip`, `endswith`, and the first-occurrence
    ordering of distinct keys that a Python `dict` keeps. */
module Text {

  /** Python's `str.isspace` for one character: the ASCII whitespace and
      separator controls plus the Unicode space separators. */
  predicate IsSpace(c: char) {
    || c == ' '
    || ('\t' <= c <= '\r')
    || ('\U{1c}' <= c <= '\U{1f}')
    || c == '\U{85}'
    || c == '\U{a0}'
    || c == '\U{1680}'
    || ('\U{2000}' <= c <= '\U{200a}')
    || c == '\U{2028}'
    || c == '\U{2029}'
    || c == '\U{202f}'
    || c == '\U{205f}'
    || c == '\U{3000}'
  }

  /** True of a string made of whitespace only (the empty string included):
      such a string is falsy after `strip()`. */
  predicate IsBlank(s: string) {
    forall i | 0 <= i < |s| :: IsSpace(s[i])
  }

  predicate EndsWith(s: string, suffix: string) {
    |suffix| <= |s| && s[|s| - |suffix|..] == suffix
  }

  /** `s.lstrip()`: the suffix of `s` left after its leading whitespace. */
  function TrimLeft(s: string): (r: string)
    ensures |r| <= |s| && r == s[|s| - |r|..]
    ensures IsBlank(s[..|s| - |r|])
    ensures |r| > 0 ==> !IsSpace(r[0])
  {
    if |s| > 0 && IsSpace(s[0]) then TrimLeft(s[1..]) else s
  }

  /** `s.rstrip()`: the prefix of `s` left before its trailing whitespace. */
  function TrimRight(s: string): (r: string)
    ensures |r| <= |s| && r == s[..|r|]
    ensures IsBlank(s[|r|..])
    ensures |r| > 0 ==> !IsSpace(r[|r| - 1])
  {
    if |s| > 0 && IsSpace(s[|s| - 1]) then TrimRight(s[..|s| - 1]) else s
  }

  /** `s.strip()`: the middle of `s` between leading and trailing whitespace. */
  function Strip(s: string): (r: string)
    ensures |r| <= |s|
    ensures |r| > 0 ==> !IsSpace(r[0]) && !IsSpace(r[|r| - 1])
    ensures r == "" <==> IsBlank(s)
  {
    var t := TrimLeft(s);
    var r := TrimRight(t);
    assert |r| > 0 ==> r[0] == t[0] && !IsSpace(r[0]) && !IsSpace(r[|r| - 1]);
    assert s == s[..|s| - |t|] + t;
    BlankConcat(s[..|s| - |t|], t);
    assert r == "" ==> t[|r|..] == t;
    r
  }

  /** A concatenation is blank exactly when both parts are. */
  lemma BlankConcat(a: string, b: string)
    ensures IsBlank(a + b) <==> IsBlank(a) && IsBlank(b)
  {
    var ab := a + b;
    if IsBlank(ab) {
      forall i | 0 <= i < |a| ensures IsSpace(a[i]) {
        assert a[i] == ab[i];
      }
      forall i | 0 <= i < |b| ensures IsSpace(b[i]) {
        assert b[i] == ab[|a| + i];
      }
    }
    if IsBlank(a) && IsBlank(b) {
      forall i | 0 <= i < |ab| ensures IsSpace(ab[i]) {
        if i < |a| {
          assert ab[i] == a[i];
        } else {
          assert ab[i] == b[i - |a|];
        }
      }
    }
  }

  /** Non-empty, with no whitespace at either end: what `strip()` leaves of a
      string that is not blank. */
  predicate Trimmed(s: string) {
    |s| > 0 && !IsSpace(s[0]) && !IsSpace(s[|s| - 1])
  }

  /** What `strip()` leaves of a string that is not blank is trimmed. */
  lemma StripNonEmpty(s: string)
    ensures Strip(s) != "" ==> Trimmed(Strip(s))
  {
  }

  /** A trimmed string is its own `strip()`. */
  lemma StripTrimmed(s: string)
    requires Trimmed(s)
    ensures Strip(s) == s
  {
    assert TrimLeft(s) == s;
  }

  /** `strip()` only removes characters: none appears that was not there. */
  lemma StripDropsOnly(s: string, c: char)
    ensures c !in s ==> c !in Strip(s)
  {
    var r := Strip(s);
    if c in r {
      var k :| 0 <= k < |r| && r[k] == c;
      var t := TrimLeft(s);
      assert r == TrimRight(t) == t[..|r|];
      assert t == s[|s| - |t|..];
      assert t[k] == c;
      assert s[|s| - |t| + k] == c;
    }
  }

  /** The first components of a sequence of pairs, in order. */
  function Firsts<A, B>(pairs: seq<(A, B)>): (r: seq<A>)
    ensures |r| == |pairs|
    ensures forall i | 0 <= i < |pairs| :: r[i] == pairs[i].0
  {
    if |pairs| == 0 then [] else [pairs[0].0] + Firsts(pairs[1..])
  }

  /** A relation that holds between the head and `y` and pointwise between the
      tail and `ys` holds pointwise between `xs` and `[y] + ys`. */
  lemma RelatedShift<A, B>(xs: seq<A>, y: B, ys: seq<B>, rel: (A, B) -> bool)
    requires |xs| > 0 && |ys| == |xs| - 1
    requires rel(xs[0], y)
    requires forall i | 0 <= i < |ys| :: rel(xs[1..][i], ys[i])
    ensures forall i | 0 <= i < |xs| :: rel(xs[i], ([y] + ys)[i])
  {
    var all := [y] + ys;
    forall i | 0 <= i < |xs| ensures rel(xs[i], all[i]) {
      if i > 0 {
        assert xs[i] == xs[1..][i - 1];
        assert all[i] == ys[i - 1];
      }
    }
  }

  /** `s.split(sep)` for a one-character separator: the pieces between
      consecutive separators, so `n` separators give `n + 1` pieces and the
      empty string gives one empty piece. */
  function Split(s: string, sep: char): (parts: seq<string>)
    ensures |parts| >= 1
    ensures forall i | 0 <= i < |parts| :: sep !in parts[i]
    decreases |s|
  {
    if |s| == 0 then [""]
    else
      var rest := Split(s[1..], sep);
      if s[0] == sep then [""] + rest
      else [[s[0]] + rest[0]] + rest[1..]
  }

  /** `sep.join(parts)`. */
  function Join(parts: seq<string>, sep: string): string {
    if |parts| == 0 then ""
    else if |parts| == 1 then parts[0]
    else parts[0] + sep + Join(parts[1..], sep)
  }

  /** Joining the pieces of a split with the same separator restores the input. */
  lemma {:induction false} JoinSplit(s: string, sep: char)
    ensures Join(Split(s, sep), [sep]) == s
    decreases |s|
  {
    if |s| > 0 {
      var rest := Split(s[1..], sep);
      JoinSplit(s[1..], sep);
      if s[0] == sep {
        assert ([""] + rest)[1..] == rest;
      } else {
        var parts := [[s[0]] + rest[0]] + rest[1..];
        assert parts[1..] == rest[1..];
        if |rest| > 1 {
          assert Join(rest, [sep]) == rest[0] + [sep] + Join(rest[1..], [sep]);
        }
      }
    }
  }

  lemma {:induction false} SplitWithoutSeparator(p: string, sep: char)
    requires sep !in p
    ensures Split(p, sep) == [p]
    decreases |p|
  {
    if |p| > 0 {
      SplitWithoutSeparator(p[1..], sep);
      assert [p[0]] + p[1..] == p;
    }
  }

  lemma {:induction false} SplitAfterPiece(p: string, sep: char, t: string)
    requires sep !in p
    ensures Split(p + [sep] + t, sep) == [p] + Split(t, sep)
    decreases |p|
  {
    var s := p + [sep] + t;
    if |p| == 0 {
      assert s[1..] == t;
    } else {
      assert s[1..] == p[1..] + [sep] + t;
      SplitAfterPiece(p[1..], sep, t);
      assert [p[0]] + p[1..] == p;
    }
  }

  /** Splitting a join restores the pieces, provided none contains the separator. */
  lemma {:induction false} SplitJoin(parts: seq<string>, sep: char)
    requires |parts| >= 1
    requires forall i | 0 <= i < |parts| :: sep !in parts[i]
    ensures Split(Join(parts, [sep]), sep) == parts
    decreases |parts|
  {
    if |parts| == 1 {
      SplitWithoutSeparator(parts[0], sep);
    } else {
      SplitAfterPiece(parts[0], sep, Join(parts[1..], [sep]));
      SplitJoin(parts[1..], sep);
      assert [parts[0]] + parts[1..] == parts;
    }
  }

  /** `a` is `b` with some elements left out, the rest kept in order. */
  predicate IsSubsequence<T(==)>(a: seq<T>, b: seq<T>)
    decreases |b|
  {
    if |a| == 0 then true
    else if |b| == 0 then false
    else if a[0] == b[0] then IsSubsequence(a[1..], b[1..])
    else IsSubsequence(a, b[1..])
  }

  /** Dropping one more element of `b` keeps `a` a subsequence of it. */
  lemma SubsequenceSkip<T>(a: seq<T>, b: seq<T>)
    requires |b| > 0 && IsSubsequence(a, b[1..])
    ensures IsSubsequence(a, b)
    decreases |b|, 0
  {
    if |a| > 0 && a[0] == b[0] {
      if |b[1..]| > 0 {
        SubsequenceTail(a, b[1..]);
      }
    }
  }

  /** A subsequence stays one when its first element is left out. */
  lemma SubsequenceTail<T>(a: seq<T>, b: seq<T>)
    requires |a| > 0 && IsSubsequence(a, b)
    ensures IsSubsequence(a[1..], b)
    decreases |b|, 1
  {
    if a[0] != b[0] {
      SubsequenceTail(a, b[1..]);
      SubsequenceSkip(a[1..], b);
    } else if |b[1..]| > 0 && |a[1..]| > 0 {
      SubsequenceSkip(a[1..], b);
    }
  }

  /** `list(filter(keep, s))`: the elements that pass, each as often as in
      `s`, in their order. */
  function Filter<T(==,!new)>(s: seq<T>, keep: T -> bool): (r: seq<T>)
    ensures forall i | 0 <= i < |r| :: keep(r[i])
    ensures forall x :: multiset(r)[x] == if keep(x) then multiset(s)[x] else 0
    ensures IsSubsequence(r, s)
    decreases |s|
  {
    if |s| == 0 then []
    else
      var rest := Filter(s[1..], keep);
      assert s == [s[0]] + s[1..];
      if keep(s[0]) then [s[0]] + rest
      else
        SubsequenceSkip(rest, s);
        rest
  }

  /** An element of `s` that passes is among the filter's elements. */
  lemma FilterKeeps<T(!new)>(s: seq<T>, keep: T -> bool, i: int)
    requires 0 <= i < |s| && keep(s[i])
    ensures s[i] in Filter(s, keep)
  {
    assert s[i] in multiset(s);
  }

  /** When every element passes, the filter keeps everything. */
  lemma {:induction false} FilterKeepsAll<T(!new)>(s: seq<T>, keep: T -> bool)
    requires forall i | 0 <= i < |s| :: keep(s[i])
    ensures Filter(s, keep) == s
    decreases |s|
  {
    if |s| > 0 {
      FilterKeepsAll(s[1..], keep);
    }
  }

  /** The distinct elements of `s` in order of first occurrence: the key order
      of a Python `dict` filled from `s`. */
  function Distinct<T(==)>(s: seq<T>): (d: seq<T>)
    ensures forall i | 0 <= i < |s| :: s[i] in d
    ensures forall i | 0 <= i < |d| :: d[i] in s
    ensures forall i, j | 0 <= i < j < |d| :: d[i] != d[j]
    decreases |s|
  {
    if |s| == 0 then []
    else
      var d := Distinct(s[..|s| - 1]);
      var x := s[|s| - 1];
      assert forall i | 0 <= i < |s| - 1 :: s[i] == s[..|s| - 1][i];
      if x in d then d else d + [x]
  }

  /** How many times `x` occurs in `s`. */
  function Occurrences<T(==)>(s: seq<T>, x: T): nat
    decreases |s|
  {
    if |s| == 0 then 0
    else Occurrences(s[..|s| - 1], x) + (if s[|s| - 1] == x then 1 else 0)
  }
}
