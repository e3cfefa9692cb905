/**
 * Properties of the reference definitions, and through them of the
 * methods of MqttPattern, which are proved equal to them.
 */
module PatternProperties {
  import opened Segments
  import opened PatternSpec

  // ---------------------------------------------------------------------
  // Matches
  // ---------------------------------------------------------------------

  /** The pattern "#" matches every topic, the empty one included. */
  lemma HashMatchesEveryTopic(topic: string)
    ensures TopicMatches("#", topic)
  {
    SplitSingle("#");
  }

  /**
   * A pattern ending in exactly "#" matches when the earlier segments match
   * positionally and the topic has at least as many levels as they do: the
   * trailing '#' covers zero or more levels.
   */
  lemma TrailingHashMatches(p: seq<string>, t: seq<string>)
    requires |p| > 0 && p[|p| - 1] == [All]
    ensures SegmentsMatch(p, t) <==>
      |t| >= |p| - 1 && forall j :: 0 <= j < |p| - 1 ==> SegmentMatches(p[j], t[j])
  {
    var k := FirstMultiLevel(p);
    if k < |p| - 1 {
      assert |t| >= |p| - 1 ==> !SegmentMatches(p[k], t[k]);
    } else if k > 0 && SegmentsMatch(p, t) {
      assert SegmentMatches(p[k - 1], t[k - 1]);
    }
  }

  /** A '#'-prefixed segment anywhere but last makes every topic fail. */
  lemma MultiLevelOnlyLast(p: seq<string>, t: seq<string>, i: nat)
    requires i < |p| - 1 && IsMultiLevel(p[i])
    ensures !SegmentsMatch(p, t)
  {
    assert FirstMultiLevel(p) <= i;
  }

  /** Without '#' segments, matching is positional on topics of the same length. */
  lemma MatchWithoutMultiLevel(p: seq<string>, t: seq<string>)
    requires forall j :: 0 <= j < |p| ==> !IsMultiLevel(p[j])
    ensures SegmentsMatch(p, t) <==>
      |p| == |t| && forall j :: 0 <= j < |p| ==> IsSingleLevel(p[j]) || p[j] == t[j]
  {
    assert FirstMultiLevel(p) == |p|;
  }

  /** A pattern without wildcards matches exactly the topic spelled the same way. */
  lemma LiteralPatternMatchesItself(pattern: string, topic: string)
    requires forall j :: 0 <= j < |Split(pattern)| ==> !IsWildcard(Split(pattern)[j])
    ensures TopicMatches(pattern, topic) <==> pattern == topic
  {
    var p, t := Split(pattern), Split(topic);
    MatchWithoutMultiLevel(p, t);
    if TopicMatches(pattern, topic) {
      assert p == t;
      SplitInjective(pattern, topic);
    }
  }

  /** On segments: cleaning keeps every match of the original pattern. */
  lemma CleanedSegmentsWiden(p: seq<string>, t: seq<string>)
    requires NoEmptySegment(p) && SegmentsMatch(p, t)
    ensures SegmentsMatch(CleanedSegments(p), t)
  {
    var c := CleanedSegments(p);
    CleanedAt(p);
    var k := FirstMultiLevel(p);
    forall j | 0 <= j < k ensures j < |t| && SegmentMatches(c[j], t[j]) {
      assert !IsMultiLevel(p[j]);
    }
    if k < |p| {
      MatchAtMultiLevel(c, t, k);
    } else {
      assert forall j :: 0 <= j < |c| ==> !IsMultiLevel(c[j]);
      assert FirstMultiLevel(c) == |c|;
    }
  }

  /** Cleaning a pattern only widens what it matches. */
  lemma CleanWidensMatch(pattern: string, topic: string)
    requires CleanDefinedOn(pattern) && TopicMatches(pattern, topic)
    ensures TopicMatches(CleanOf(pattern), topic)
  {
    SplitClean(pattern);
    CleanedSegmentsWiden(Split(pattern), Split(topic));
  }

  /**
   * The converse fails: a named trailing '#' needs a topic level of its
   * own and the bare "#" it cleans to does not.
   */
  lemma CleanCanWidenMatch()
    ensures NoEmptySegment(["foo", "#else"])
    ensures !SegmentsMatch(["foo", "#else"], ["foo"])
    ensures SegmentsMatch(CleanedSegments(["foo", "#else"]), ["foo"])
  {
    CleanedAt(["foo", "#else"]);
    assert CleanedSegments(["foo", "#else"]) == ["foo", "#"];
    assert FirstMultiLevel(["foo", "#else"]) == 1;
    assert FirstMultiLevel(["foo", "#"]) == 1;
  }

  // ---------------------------------------------------------------------
  // Extract
  // ---------------------------------------------------------------------

  lemma {:induction false} BindingsKeys(p: seq<string>, t: seq<string>, n: nat)
    requires n <= ExtractCut(p) && ExtractDefined(p, t)
    ensures Bindings(p, t, n).Keys == set i | 0 <= i < n && IsNamed(p[i]) :: ParamName(p[i])
  {
    if n > 0 {
      BindingsKeys(p, t, n - 1);
      var before := set i | 0 <= i < n - 1 && IsNamed(p[i]) :: ParamName(p[i]);
      var after := set i | 0 <= i < n && IsNamed(p[i]) :: ParamName(p[i]);
      if IsNamed(p[n - 1]) {
        assert after == before + {ParamName(p[n - 1])};
      } else {
        assert after == before;
      }
    }
  }

  /**
   * The keys of Extract are exactly the names of the named wildcards up to
   * and including the first named '#'; anonymous wildcards and literal
   * segments contribute none.
   */
  lemma ExtractedKeys(p: seq<string>, t: seq<string>)
    requires ExtractDefined(p, t)
    ensures Extracted(p, t).Keys == set i | 0 <= i < ExtractCut(p) && IsNamed(p[i]) :: ParamName(p[i])
  {
    BindingsKeys(p, t, ExtractCut(p));
  }

  lemma {:induction false} BindingsValue(p: seq<string>, t: seq<string>, n: nat, i: nat)
    requires n <= ExtractCut(p) && ExtractDefined(p, t)
    requires i < n && IsNamed(p[i])
    requires forall j :: i < j < n && IsNamed(p[j]) ==> ParamName(p[j]) != ParamName(p[i])
    ensures ParamName(p[i]) in Bindings(p, t, n)
    ensures Bindings(p, t, n)[ParamName(p[i])] == Captured(p, t, i)
  {
    if i < n - 1 {
      BindingsValue(p, t, n - 1, i);
    }
  }

  /**
   * A named wildcard maps to what it captures (one topic level for '+',
   * the remaining levels for '#') unless a later segment reuses its name.
   */
  lemma ExtractedValue(p: seq<string>, t: seq<string>, i: nat)
    requires ExtractDefined(p, t)
    requires i < ExtractCut(p) && IsNamed(p[i])
    requires forall j :: i < j < ExtractCut(p) && IsNamed(p[j]) ==> ParamName(p[j]) != ParamName(p[i])
    ensures ParamName(p[i]) in Extracted(p, t)
    ensures IsSingleLevel(p[i]) ==> Extracted(p, t)[ParamName(p[i])] == [t[i]]
    ensures IsMultiLevel(p[i]) ==> Extracted(p, t)[ParamName(p[i])] == t[i..]
  {
    BindingsValue(p, t, ExtractCut(p), i);
  }

  // ---------------------------------------------------------------------
  // Fill and the round trip
  // ---------------------------------------------------------------------

  /** Every wildcard of the pattern carries a name. */
  predicate AllNamed(p: seq<string>)
  {
    forall i :: 0 <= i < |p| && IsWildcard(p[i]) ==> IsNamed(p[i])
  }

  /** No two named wildcards of the pattern share a name. */
  predicate DistinctNames(p: seq<string>)
  {
    forall i, j :: 0 <= i < j < |p| && IsNamed(p[i]) && IsNamed(p[j]) ==> ParamName(p[i]) != ParamName(p[j])
  }

  /**
   * What Fill emits: literal segments verbatim, a '+' segment its value's
   * first element or "undefined", and at the first '#' the joined value if
   * its name has one and nothing otherwise, after which nothing is emitted.
   */
  lemma FilledSegmentsShape(p: seq<string>, params: Params)
    requires FillDefined(p, params)
    ensures var k := FirstMultiLevel(p);
      |FilledSegments(p, params)| == (if k < |p| && ParamName(p[k]) in params then k + 1 else k)
    ensures forall i :: 0 <= i < FirstMultiLevel(p) ==>
      FilledSegments(p, params)[i] ==
        (if !IsSingleLevel(p[i]) then p[i]
         else if ParamName(p[i]) in params then params[ParamName(p[i])][0]
         else Undefined)
    ensures var k := FirstMultiLevel(p);
      k < |p| && ParamName(p[k]) in params ==>
        FilledSegments(p, params)[k] == Join(params[ParamName(p[k])])
  {
    var k := FirstMultiLevel(p);
    forall i | 0 <= i < k
      ensures FilledSegments(p, params)[i] ==
        (if !IsSingleLevel(p[i]) then p[i]
         else if ParamName(p[i]) in params then params[ParamName(p[i])][0]
         else Undefined)
    {
      FilledPrefixAt(p, params, k, i);
    }
  }

  /** Two patterns that agree up to and including the first '#' of one have it at the same index. */
  lemma SameFirstMultiLevel(p: seq<string>, q: seq<string>, params: Params)
    requires FillDefined(p, params) && FirstMultiLevel(p) < |p| && FirstMultiLevel(p) < |q|
    requires forall j :: 0 <= j <= FirstMultiLevel(p) ==> q[j] == p[j]
    ensures FirstMultiLevel(q) == FirstMultiLevel(p)
    ensures FillDefined(q, params)
  {
    var k := FirstMultiLevel(p);
    assert q[k] == p[k];
  }

  /** Patterns that agree on their first n segments fill those segments alike. */
  lemma {:induction false} FilledPrefixAgree(p: seq<string>, q: seq<string>, params: Params, n: nat)
    requires FillDefined(p, params) && FillDefined(q, params)
    requires n <= FirstMultiLevel(p) && n <= FirstMultiLevel(q)
    requires forall j :: 0 <= j < n ==> q[j] == p[j]
    ensures FilledPrefix(q, params, n) == FilledPrefix(p, params, n)
  {
    if n > 0 {
      FilledPrefixAgree(p, q, params, n - 1);
      assert q[n - 1] == p[n - 1];
    }
  }

  /**
   * Segments after the first '#' never reach Fill's output: two patterns
   * that agree up to and including it fill the same.
   */
  lemma FillStopsAtMultiLevel(p: seq<string>, q: seq<string>, params: Params)
    requires FillDefined(p, params) && FirstMultiLevel(p) < |p| && FirstMultiLevel(p) < |q|
    requires forall j :: 0 <= j <= FirstMultiLevel(p) ==> q[j] == p[j]
    ensures FillDefined(q, params)
    ensures FilledSegments(q, params) == FilledSegments(p, params)
  {
    SameFirstMultiLevel(p, q, params);
    var k := FirstMultiLevel(p);
    FilledPrefixAgree(p, q, params, k);
    assert q[k] == p[k];
    assert FilledTail(q, params) == FilledTail(p, params);
  }

  /** With every wildcard named, Extract and Fill stop at the same segment. */
  lemma NamedStopsAgree(p: seq<string>)
    requires AllNamed(p)
    ensures FirstNamedMultiLevel(p) == FirstMultiLevel(p)
  {
    var k := FirstMultiLevel(p);
    assert FirstNamedMultiLevel(p) >= k;
    if k < |p| { assert IsNamed(p[k]); }
  }

  /** Before the first '#', filling the extracted map copies the topic. */
  lemma FilledPrefixCopiesTopic(p: seq<string>, t: seq<string>, params: Params)
    requires AllNamed(p) && NoEmptySegment(p) && SegmentsMatch(p, t)
    requires forall i :: 0 <= i < FirstMultiLevel(p) && IsSingleLevel(p[i]) ==>
      ParamName(p[i]) in params && params[ParamName(p[i])] == [t[i]]
    ensures FillDefined(p, params)
    ensures FilledPrefix(p, params, FirstMultiLevel(p)) == t[..FirstMultiLevel(p)]
  {
    var k := FirstMultiLevel(p);
    var prefix := FilledPrefix(p, params, k);
    forall i | 0 <= i < k ensures prefix[i] == t[i] {
      FilledPrefixAt(p, params, k, i);
      assert SegmentMatches(p[i], t[i]);
    }
  }

  /**
   * When every wildcard is named, the names are distinct and the topic
   * matches, each '+' before the '#' maps to its one topic level and the
   * '#' to the remaining levels, of which there is at least one.
   */
  lemma ExtractedCaptures(p: seq<string>, t: seq<string>)
    requires NoEmptySegment(p) && AllNamed(p) && DistinctNames(p) && SegmentsMatch(p, t)
    ensures ExtractDefined(p, t)
    ensures forall i :: 0 <= i < FirstMultiLevel(p) && IsSingleLevel(p[i]) ==>
      ParamName(p[i]) in Extracted(p, t) && Extracted(p, t)[ParamName(p[i])] == [t[i]]
    ensures FirstMultiLevel(p) < |p| ==>
      FirstMultiLevel(p) < |t| &&
      ParamName(p[FirstMultiLevel(p)]) in Extracted(p, t) &&
      Extracted(p, t)[ParamName(p[FirstMultiLevel(p)])] == t[FirstMultiLevel(p)..]
  {
    MatchingCapturesInRange(p, t);
    NamedStopsAgree(p);
    var k := FirstMultiLevel(p);
    assert ExtractCut(p) == |p|;
    forall i | 0 <= i < k && IsSingleLevel(p[i])
      ensures ParamName(p[i]) in Extracted(p, t) && Extracted(p, t)[ParamName(p[i])] == [t[i]]
    {
      BindingsValue(p, t, |p|, i);
    }
    if k < |p| {
      assert |p[k]| > 1;
      BindingsValue(p, t, |p|, k);
    }
  }

  /**
   * Fill inverts Extract on segments: when every wildcard is named, the
   * names are distinct and the topic matches, filling the extracted map
   * rebuilds the topic.
   */
  lemma FillExtractSegments(p: seq<string>, t: seq<string>)
    requires NoEmptySegment(p) && AllNamed(p) && DistinctNames(p) && SegmentsMatch(p, t)
    ensures ExtractDefined(p, t)
    ensures FillDefined(p, Extracted(p, t))
    ensures Join(FilledSegments(p, Extracted(p, t))) == Join(t)
  {
    ExtractedCaptures(p, t);
    var k := FirstMultiLevel(p);
    var params := Extracted(p, t);
    FilledPrefixCopiesTopic(p, t, params);
    var filled := FilledSegments(p, params);
    if k == |p| {
      assert filled == t[..k];
      assert t[..k] == t;
    } else {
      assert filled == t[..k] + [Join(t[k..])];
      JoinFlatten(t[..k], t[k..]);
      assert t[..k] + t[k..] == t;
    }
  }

  /** The round trip on strings: Fill(pattern, Extract(pattern, topic)) == topic. */
  lemma FillInvertsExtract(pattern: string, topic: string)
    requires NoEmptySegment(Split(pattern)) && AllNamed(Split(pattern)) && DistinctNames(Split(pattern))
    requires TopicMatches(pattern, topic)
    ensures ExtractDefinedOn(pattern, topic)
    ensures FillDefinedOn(pattern, ExtractOf(pattern, topic))
    ensures FillOf(pattern, ExtractOf(pattern, topic)) == topic
  {
    FillExtractSegments(Split(pattern), Split(topic));
    JoinSplit(topic);
  }

  // ---------------------------------------------------------------------
  // Clean
  // ---------------------------------------------------------------------

  /**
   * The cleaned pattern splits into the cleaned segments: the segment count
   * is kept, '#'-prefixed segments become "#", '+'-prefixed ones "+", and
   * the others are unchanged.
   */
  lemma SplitClean(pattern: string)
    requires CleanDefinedOn(pattern)
    ensures Split(CleanOf(pattern)) == CleanedSegments(Split(pattern))
    ensures |Split(CleanOf(pattern))| == |Split(pattern)|
    ensures forall i :: 0 <= i < |Split(pattern)| ==>
      Split(CleanOf(pattern))[i] == (if IsMultiLevel(Split(pattern)[i]) then [All]
                                     else if IsSingleLevel(Split(pattern)[i]) then [Single]
                                     else Split(pattern)[i])
  {
    var p := Split(pattern);
    var c := CleanedSegments(p);
    SplitSegments(pattern);
    CleanedAt(p);
    assert SeparatorFree(c) by {
      forall i | 0 <= i < |c| ensures Separator !in c[i] {
        assert c[i] == CleanSegment(p[i]);
      }
    }
    SplitJoin(c);
  }

  /** On segments: cleaned segments are non-empty and already clean. */
  lemma CleanedSegmentsIdempotent(p: seq<string>)
    requires NoEmptySegment(p)
    ensures NoEmptySegment(CleanedSegments(p))
    ensures CleanedSegments(CleanedSegments(p)) == CleanedSegments(p)
  {
    var c := CleanedSegments(p);
    CleanedAt(p);
    assert NoEmptySegment(c);
    CleanedAt(c);
    assert CleanedSegments(c) == c;
  }

  /** Clean is idempotent. */
  lemma CleanIdempotent(pattern: string)
    requires CleanDefinedOn(pattern)
    ensures CleanDefinedOn(CleanOf(pattern))
    ensures CleanOf(CleanOf(pattern)) == CleanOf(pattern)
  {
    SplitClean(pattern);
    CleanedSegmentsIdempotent(Split(pattern));
  }

  /** On segments: cleaned segments name no wildcard, so nothing is extracted. */
  lemma CleanedSegmentsExtractNothing(p: seq<string>, t: seq<string>)
    requires NoEmptySegment(p)
    ensures ExtractDefined(CleanedSegments(p), t)
    ensures Extracted(CleanedSegments(p), t) == map[]
  {
    var c := CleanedSegments(p);
    CleanedAt(p);
    assert forall i :: 0 <= i < |c| ==> !IsNamed(c[i]);
    assert ExtractCut(c) == |c|;
    ExtractedKeys(c, t);
    assert Extracted(c, t).Keys == {};
  }

  /** A cleaned pattern has no named wildcards, so Extract on it is always empty. */
  lemma ExtractAfterCleanIsEmpty(pattern: string, topic: string)
    requires CleanDefinedOn(pattern)
    ensures ExtractDefinedOn(CleanOf(pattern), topic)
    ensures ExtractOf(CleanOf(pattern), topic) == map[]
  {
    SplitClean(pattern);
    CleanedSegmentsExtractNothing(Split(pattern), Split(topic));
  }
}
