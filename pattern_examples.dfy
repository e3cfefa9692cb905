/**
 * The repository's unit-test cases, stated on the split segments of their
 * literals (`Split(Join(xs)) == xs` by Segments.SplitJoin, so "foo/#" is
 * ["foo", "#"]).
 */
module PatternExamples {
  import opened Segments
  import opened PatternSpec

  lemma MatchesWithoutWildcards()
    ensures SegmentsMatch(["foo", "bar", "baz"], ["foo", "bar", "baz"])
    ensures !SegmentsMatch(["foo", "bar", "baz"], ["baz", "bar", "foo"])
  {
    assert FirstMultiLevel(["foo", "bar", "baz"]) == 3;
  }

  lemma MatchesHashWildcards()
    ensures SegmentsMatch(["foo", "#"], ["foo", "bar", "baz"])
    ensures SegmentsMatch(["foo", "bar", "#"], ["foo", "bar"])
    ensures !SegmentsMatch(["#", "bar", "baz"], ["foo", "bar", "baz"])
  {
    assert FirstMultiLevel(["foo", "#"]) == 1;
    assert FirstMultiLevel(["foo", "bar", "#"]) == 2;
    assert FirstMultiLevel(["#", "bar", "baz"]) == 0;
  }

  lemma MatchesPlusWildcards()
    ensures SegmentsMatch(["+", "bar", "baz"], ["foo", "bar", "baz"])
    ensures SegmentsMatch(["foo", "bar", "+"], ["foo", "bar", "baz"])
    ensures SegmentsMatch(["foo", "+", "baz"], ["foo", "bar", "baz"])
    ensures SegmentsMatch(["foo", "+", "#"], ["foo", "bar", "baz"])
    ensures SegmentsMatch(["foo", "+something", "#else"], ["foo", "bar", "baz"])
  {
    assert FirstMultiLevel(["+", "bar", "baz"]) == 3;
    assert FirstMultiLevel(["foo", "bar", "+"]) == 3;
    assert FirstMultiLevel(["foo", "+", "baz"]) == 3;
    assert FirstMultiLevel(["foo", "+", "#"]) == 2;
    assert FirstMultiLevel(["foo", "+something", "#else"]) == 2;
  }

  /** "/foo/bar" splits into ["", "foo", "bar"]. */
  lemma MatchesLeadingSlashes()
    ensures SegmentsMatch(["", "foo", "bar"], ["", "foo", "bar"])
    ensures !SegmentsMatch(["", "foo", "bar"], ["", "bar", "foo"])
  {
    assert FirstMultiLevel(["", "foo", "bar"]) == 3;
  }

  /** An anonymous trailing '#' covers zero levels, a named one does not. */
  lemma NamedTrailingHashNeedsALevel()
    ensures SegmentsMatch(["foo", "#"], ["foo"])
    ensures !SegmentsMatch(["foo", "#else"], ["foo"])
  {
    assert FirstMultiLevel(["foo", "#"]) == 1;
    assert FirstMultiLevel(["foo", "#else"]) == 1;
  }

  lemma ExtractWithoutNamedWildcards()
    ensures ExtractDefined(["foo", "bar", "baz"], ["foo", "bar", "baz"])
      && Extracted(["foo", "bar", "baz"], ["foo", "bar", "baz"]) == map[]
    ensures ExtractDefined(["foo", "+", "#"], ["foo", "bar", "baz"])
      && Extracted(["foo", "+", "#"], ["foo", "bar", "baz"]) == map[]
  {
    assert FirstNamedMultiLevel(["foo", "bar", "baz"]) == 3;
    assert FirstNamedMultiLevel(["foo", "+", "#"]) == 3;
  }

  lemma ExtractNamedWildcards()
    ensures ExtractDefined(["foo", "#something"], ["foo", "bar", "baz"])
      && Extracted(["foo", "#something"], ["foo", "bar", "baz"]) == map["something" := ["bar", "baz"]]
    ensures ExtractDefined(["foo", "+hello", "+world"], ["foo", "bar", "baz"])
      && Extracted(["foo", "+hello", "+world"], ["foo", "bar", "baz"]) == map["hello" := ["bar"], "world" := ["baz"]]
    ensures ExtractDefined(["+hello", "+world", "#wow"], ["foo", "bar", "baz", "fizz"])
      && Extracted(["+hello", "+world", "#wow"], ["foo", "bar", "baz", "fizz"])
         == map["hello" := ["foo"], "world" := ["bar"], "wow" := ["baz", "fizz"]]
  {
    assert FirstNamedMultiLevel(["foo", "#something"]) == 1;
    assert FirstNamedMultiLevel(["foo", "+hello", "+world"]) == 3;
    assert FirstNamedMultiLevel(["+hello", "+world", "#wow"]) == 2;
  }

  /** A later segment with the same name overwrites the earlier value. */
  lemma ExtractLaterNameWins()
    ensures ExtractDefined(["+a", "+a"], ["x", "y"])
      && Extracted(["+a", "+a"], ["x", "y"]) == map["a" := ["y"]]
  {
    assert FirstNamedMultiLevel(["+a", "+a"]) == 2;
  }

  lemma ExecExamples()
    ensures !SegmentsMatch(["hello", "world"], ["foo", "bar", "baz"])
    ensures SegmentsMatch(["foo", "+hello", "#world"], ["foo", "bar", "baz"])
      && ExtractDefined(["foo", "+hello", "#world"], ["foo", "bar", "baz"])
      && Extracted(["foo", "+hello", "#world"], ["foo", "bar", "baz"]) == map["hello" := ["bar"], "world" := ["baz"]]
  {
    assert FirstMultiLevel(["hello", "world"]) == 2;
    assert FirstMultiLevel(["foo", "+hello", "#world"]) == 2;
    assert FirstNamedMultiLevel(["foo", "+hello", "#world"]) == 2;
  }

  lemma JoinValues()
    ensures Join(["the", "world", "wow"]) == "the/world/wow"
  {
  }

  lemma FillBothWildcardsSegments()
    ensures FillDefined(["foo", "+hello", "#world"], map["hello" := ["Hello"], "world" := ["the", "world", "wow"]])
      && FilledSegments(["foo", "+hello", "#world"], map["hello" := ["Hello"], "world" := ["the", "world", "wow"]])
         == ["foo", "Hello", "the/world/wow"]
  {
    var p := ["foo", "+hello", "#world"];
    var params := map["hello" := ["Hello"], "world" := ["the", "world", "wow"]];
    assert FirstMultiLevel(p) == 2;
    assert FilledPrefix(p, params, 2) == ["foo", "Hello"];
    JoinValues();
  }

  lemma FillBothWildcards()
    ensures FillDefined(["foo", "+hello", "#world"], map["hello" := ["Hello"], "world" := ["the", "world", "wow"]])
      && Join(FilledSegments(["foo", "+hello", "#world"], map["hello" := ["Hello"], "world" := ["the", "world", "wow"]]))
         == "foo/Hello/the/world/wow"
  {
    FillBothWildcardsSegments();
  }

  /** A '+' without a value becomes "undefined". */
  lemma FillMissingSingleLevel()
    ensures FillDefined(["foo", "+hello"], map[]) && Join(FilledSegments(["foo", "+hello"], map[])) == "foo/undefined"
    ensures FillDefined(["foo", "+"], map[]) && Join(FilledSegments(["foo", "+"], map[])) == "foo/undefined"
  {
    assert FirstMultiLevel(["foo", "+hello"]) == 2;
    assert FirstMultiLevel(["foo", "+"]) == 2;
    assert FilledSegments(["foo", "+hello"], map[]) == ["foo", "undefined"];
    assert FilledSegments(["foo", "+"], map[]) == ["foo", "undefined"];
  }

  /** A '#' without a value is left out, with its separator. */
  lemma FillMissingMultiLevel()
    ensures FillDefined(["foo", "#hello"], map[]) && Join(FilledSegments(["foo", "#hello"], map[])) == "foo"
    ensures FillDefined(["foo", "#"], map[]) && Join(FilledSegments(["foo", "#"], map[])) == "foo"
  {
    assert FirstMultiLevel(["foo", "#hello"]) == 1;
    assert FirstMultiLevel(["foo", "#"]) == 1;
    assert FilledSegments(["foo", "#hello"], map[]) == ["foo"];
    assert FilledSegments(["foo", "#"], map[]) == ["foo"];
  }

  lemma CleanExamples()
    ensures NoEmptySegment(["hello", "+param1", "world", "#param2"])
      && CleanedSegments(["hello", "+param1", "world", "#param2"]) == ["hello", "+", "world", "#"]
    ensures NoEmptySegment(["hello", "+", "world", "#"])
      && CleanedSegments(["hello", "+", "world", "#"]) == ["hello", "+", "world", "#"]
  {
    CleanedAt(["hello", "+param1", "world", "#param2"]);
    CleanedAt(["hello", "+", "world", "#"]);
  }
}
