/**
 * Splitting and joining on the topic level separator, with the semantics of
 * .NET's `String.Split(char)` and `String.Join(string, IEnumerable<string>)`:
 * empty entries are kept, so `""` splits into `[""]` and a string with `n`
 * separators splits into `n + 1` segments.
 */
module Segments {

  const Separator: char := '/'

  /** Number of separators in `s`. */
  function SeparatorCount(s: string): nat
  {
    if |s| == 0 then 0
    else (if s[0] == Separator then 1 else 0) + SeparatorCount(s[1..])
  }

  /** `s.Split('/')`; never empty. */
  function Split(s: string): (r: seq<string>)
    ensures |r| >= 1
  {
    if |s| == 0 then [""]
    else
      var rest := Split(s[1..]);
      if s[0] == Separator then [""] + rest
      else [[s[0]] + rest[0]] + rest[1..]
  }

  /** A split has one segment more than the string has separators, and no segment holds one. */
  lemma {:induction false} SplitSegments(s: string)
    ensures |Split(s)| == SeparatorCount(s) + 1
    ensures SeparatorFree(Split(s))
  {
    if |s| > 0 {
      SplitSegments(s[1..]);
      var rest := Split(s[1..]);
      if s[0] != Separator {
        assert Separator !in [s[0]] + rest[0];
      }
    }
  }

  /** `String.Join("/", xs)`: the empty list joins to `""`. */
  function Join(xs: seq<string>): string
  {
    if |xs| == 0 then ""
    else if |xs| == 1 then xs[0]
    else xs[0] + [Separator] + Join(xs[1..])
  }

  /** No element of `xs` holds a separator. */
  predicate SeparatorFree(xs: seq<string>)
  {
    forall i :: 0 <= i < |xs| ==> Separator !in xs[i]
  }

  /** Joining the segments of a split gives back the string. */
  lemma {:induction false} JoinSplit(s: string)
    ensures Join(Split(s)) == s
  {
    if |s| > 0 {
      var rest := Split(s[1..]);
      JoinSplit(s[1..]);
      if s[0] == Separator {
        assert Split(s) == [""] + rest;
        assert s == [s[0]] + s[1..];
      } else {
        var r := Split(s);
        assert r == [[s[0]] + rest[0]] + rest[1..];
        if |rest| == 1 {
          assert Join(r) == [s[0]] + rest[0];
        } else {
          assert r[1..] == rest[1..];
          assert Join(r) == [s[0]] + rest[0] + [Separator] + Join(rest[1..]);
        }
        assert s == [s[0]] + s[1..];
      }
    }
  }

  /** Split is injective: two strings with the same segments are equal. */
  lemma SplitInjective(s: string, t: string)
    requires Split(s) == Split(t)
    ensures s == t
  {
    JoinSplit(s);
    JoinSplit(t);
  }

  /** A separator-free prefix glues onto the first segment. */
  lemma {:induction false} SplitPrefix(w: string, s: string)
    requires Separator !in w
    ensures Split(w + s) == [w + Split(s)[0]] + Split(s)[1..]
  {
    if |w| > 0 {
      SplitPrefix(w[1..], s);
      assert (w + s)[1..] == w[1..] + s;
      assert (w + s)[0] == w[0];
      assert [w[0]] + (w[1..] + Split(s)[0]) == w + Split(s)[0];
    } else {
      var r := Split(s);
      assert w + s == s;
      assert w + r[0] == r[0];
      assert r == [r[0]] + r[1..];
    }
  }

  /** A separator-free string is a single segment. */
  lemma SplitSingle(w: string)
    requires Separator !in w
    ensures Split(w) == [w]
  {
    SplitPrefix(w, "");
    assert w + "" == w;
  }

  /** Splitting a join of separator-free segments gives back the segments. */
  lemma {:induction false} SplitJoin(xs: seq<string>)
    requires |xs| >= 1 && SeparatorFree(xs)
    ensures Split(Join(xs)) == xs
  {
    if |xs| == 1 {
      SplitSingle(xs[0]);
    } else {
      var tail := Join(xs[1..]);
      SplitJoin(xs[1..]);
      var t := [Separator] + tail;
      assert Split(t) == [""] + xs[1..] by {
        assert t[1..] == tail;
      }
      assert xs[0] + [Separator] + tail == xs[0] + t;
      SplitPrefix(xs[0], t);
      assert xs[0] + "" == xs[0];
    }
  }

  /** Joining `a` followed by the join of a non-empty `b` is joining `a + b`. */
  lemma {:induction false} JoinFlatten(a: seq<string>, b: seq<string>)
    requires |b| >= 1
    ensures Join(a + [Join(b)]) == Join(a + b)
  {
    if |a| > 0 {
      JoinFlatten(a[1..], b);
      assert (a + [Join(b)])[1..] == a[1..] + [Join(b)];
      assert (a + b)[1..] == a[1..] + b;
    } else {
      assert a + [Join(b)] == [Join(b)];
      assert a + b == b;
    }
  }
}
