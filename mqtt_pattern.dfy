/**
 * The static class MqttPattern: five operations, each a loop over the
 * segments of the pattern, each proved equal to its reference definition in
 * module PatternSpec. Null arguments cannot arise here; every exception the
 * source can raise on a present argument (a first character taken from an
 * empty segment, a topic index out of range, a negative array length) is a
 * precondition.
 */
module MqttPattern {
  import opened Segments
  import opened PatternSpec

  /** Whether `topic` fits `pattern`; parameter names are ignored. */
  method Matches(pattern: string, topic: string) returns (matched: bool)
    ensures matched == TopicMatches(pattern, topic)
  {
    var patternSegments := Split(pattern);
    var topicSegments := Split(topic);
    var lastIndex := |patternSegments| - 1;
    for i := 0 to |patternSegments|
      invariant forall j :: 0 <= j < i ==> j < |topicSegments| && SegmentMatches(patternSegments[j], topicSegments[j])
    {
      var currentPattern := patternSegments[i];
      // A split segment is never null, so the source's "both absent" case does not arise.
      if i >= |topicSegments| && currentPattern != [All] {
        return false;
      }
      // Only allow '#' at the end.
      if |currentPattern| > 0 && currentPattern[0] == All {
        MatchAtMultiLevel(patternSegments, topicSegments, i);
        return i == lastIndex;
      }
      if !(|currentPattern| > 0 && currentPattern[0] == Single) && currentPattern != topicSegments[i] {
        return false;
      }
    }
    return |patternSegments| == |topicSegments|;
  }

  /** Reverse of Extract: rebuilds a topic from the pattern and the parameters. */
  method Fill(pattern: string, parameters: Params) returns (filled: string)
    requires FillDefinedOn(pattern, parameters)
    ensures filled == FillOf(pattern, parameters)
  {
    var patternSegments := Split(pattern);
    var result: seq<string> := [];
    var i := 0;
    while i < |patternSegments|
      invariant i <= |patternSegments| && i <= FirstMultiLevel(patternSegments)
      invariant result == FilledPrefix(patternSegments, parameters, i)
    {
      var currentPattern := patternSegments[i];
      var patternChar := currentPattern[0];
      var patternParam := currentPattern[1..];
      if patternChar == All {
        if patternParam in parameters {
          result := result + [Join(parameters[patternParam])];
        }
        // '#' is always last, so nothing after it is consulted.
        break;
      } else if patternChar == Single {
        if patternParam in parameters {
          result := result + [parameters[patternParam][0]];
        } else {
          result := result + [Undefined];
        }
      } else {
        result := result + [currentPattern];
      }
      i := i + 1;
    }
    assert result == FilledSegments(patternSegments, parameters);
    filled := Join(result);
  }

  /**
   * Reads the named wildcards' values out of the topic, without checking
   * that the topic matches.
   */
  method Extract(pattern: string, topic: string) returns (extracted: Params)
    requires ExtractDefinedOn(pattern, topic)
    ensures extracted == ExtractOf(pattern, topic)
  {
    var patternSegments := Split(pattern);
    var topicSegments := Split(topic);
    extracted := map[];
    var i := 0;
    while i < |patternSegments|
      invariant i <= |patternSegments| && i <= FirstNamedMultiLevel(patternSegments)
      invariant extracted == Bindings(patternSegments, topicSegments, i)
    {
      ExtractStep(patternSegments, topicSegments, i);
      var currentPattern := patternSegments[i];
      var patternChar := currentPattern[0];
      if |currentPattern| == 1 {
        i := i + 1;
        continue;
      }
      if patternChar == All {
        var count := |topicSegments| - i;
        var itemsPastAllWildcard := topicSegments[i..i + count];
        extracted := extracted[currentPattern[1..] := itemsPastAllWildcard];
        assert IsNamed(currentPattern) && IsMultiLevel(currentPattern);
        assert itemsPastAllWildcard == topicSegments[i..];
        assert extracted == Bindings(patternSegments, topicSegments, i + 1);
        // A named '#' is always last: stop here.
        break;
      } else if patternChar == Single {
        extracted := extracted[currentPattern[1..] := [topicSegments[i]]];
      }
      i := i + 1;
    }
  }

  /** Extract when the topic matches, the empty map otherwise. */
  method Exec(pattern: string, topic: string) returns (parameters: Params)
    requires TopicMatches(pattern, topic) ==> ExtractVisitsNonEmpty(Split(pattern))
    ensures !TopicMatches(pattern, topic) ==> parameters == map[]
    ensures TopicMatches(pattern, topic) ==>
      ExtractDefinedOn(pattern, topic) && parameters == ExtractOf(pattern, topic)
  {
    var matched := Matches(pattern, topic);
    if matched {
      MatchingCapturesInRange(Split(pattern), Split(topic));
      parameters := Extract(pattern, topic);
    } else {
      parameters := map[];
    }
  }

  /** Strips the parameter names off the wildcard segments. */
  method Clean(pattern: string) returns (cleaned: string)
    requires CleanDefinedOn(pattern)
    ensures cleaned == CleanOf(pattern)
  {
    var patternSegments := Split(pattern);
    var cleanedSegments: seq<string> := [];
    for i := 0 to |patternSegments|
      invariant cleanedSegments == CleanedPrefix(patternSegments, i)
    {
      var currentPattern := patternSegments[i];
      var patternChar := currentPattern[0];
      if patternChar == All {
        cleanedSegments := cleanedSegments + [[All]];
      } else if patternChar == Single {
        cleanedSegments := cleanedSegments + [[Single]];
      } else {
        cleanedSegments := cleanedSegments + [currentPattern];
      }
    }
    cleaned := Join(cleanedSegments);
  }
}
