/**
 * Reference definitions of MQTT topic pattern matching with named wildcards.
 *
 * A pattern and a topic are split on '/' into segments. A pattern segment
 * whose first character is '+' matches one topic level, one whose first
 * character is '#' matches the remaining levels; the characters after the
 * first one name the wildcard. Every definition here is declarative; the
 * loops of module MqttPattern are proved equal to them.
 */
module PatternSpec {
  import opened Segments

  const Single: char := '+'
  const All: char := '#'
  /** What `Fill` writes for a '+' wildcard whose name has no value. */
  const Undefined: string := "undefined"

  type Params = map<string, seq<string>>

  // ---------------------------------------------------------------------
  // Classifying segments (by their first character only)
  // ---------------------------------------------------------------------

  predicate IsMultiLevel(seg: string) { |seg| > 0 && seg[0] == All }

  predicate IsSingleLevel(seg: string) { |seg| > 0 && seg[0] == Single }

  predicate IsWildcard(seg: string) { IsMultiLevel(seg) || IsSingleLevel(seg) }

  /** A wildcard with a name: a wildcard character followed by at least one more. */
  predicate IsNamed(seg: string) { |seg| > 1 && IsWildcard(seg) }

  /** The parameter name of a segment: everything after its first character. */
  function ParamName(seg: string): string
    requires |seg| > 0
  {
    seg[1..]
  }

  /** Index of the first '#'-prefixed segment, or |p| when there is none. */
  function FirstMultiLevel(p: seq<string>): (k: nat)
    ensures k <= |p|
    ensures forall j :: 0 <= j < k ==> !IsMultiLevel(p[j])
    ensures k < |p| ==> IsMultiLevel(p[k])
  {
    if |p| == 0 then 0
    else if IsMultiLevel(p[0]) then 0
    else 1 + FirstMultiLevel(p[1..])
  }

  /** Index of the first named '#' segment, or |p| when there is none. */
  function FirstNamedMultiLevel(p: seq<string>): (k: nat)
    ensures k <= |p|
    ensures forall j :: 0 <= j < k ==> !(IsNamed(p[j]) && IsMultiLevel(p[j]))
    ensures k < |p| ==> IsNamed(p[k]) && IsMultiLevel(p[k])
  {
    if |p| == 0 then 0
    else if IsNamed(p[0]) && IsMultiLevel(p[0]) then 0
    else 1 + FirstNamedMultiLevel(p[1..])
  }

  // ---------------------------------------------------------------------
  // Matches
  // ---------------------------------------------------------------------

  /** One pattern segment before any '#' covers one topic segment. */
  predicate SegmentMatches(pat: string, top: string)
  {
    !IsMultiLevel(pat) && (IsSingleLevel(pat) || pat == top)
  }

  /**
   * The pattern segments up to the first '#' match the topic positionally;
   * with no '#' the lengths agree, otherwise the '#' is the last pattern
   * segment and, unless it is exactly "#", covers at least one topic segment.
   */
  predicate SegmentsMatch(p: seq<string>, t: seq<string>)
  {
    var k := FirstMultiLevel(p);
    (forall j :: 0 <= j < k ==> j < |t| && SegmentMatches(p[j], t[j]))
    && if k == |p| then |p| == |t|
       else k == |p| - 1 && (k < |t| || p[k] == [All])
  }

  /** Once a '#' is reached with everything before it matched, the match is decided by its position. */
  lemma MatchAtMultiLevel(p: seq<string>, t: seq<string>, k: nat)
    requires k < |p| && IsMultiLevel(p[k])
    requires forall j :: 0 <= j < k ==> j < |t| && SegmentMatches(p[j], t[j])
    ensures FirstMultiLevel(p) == k
    ensures SegmentsMatch(p, t) <==> k == |p| - 1 && (k < |t| || p[k] == [All])
  {
    assert FirstMultiLevel(p) <= k;
  }

  predicate TopicMatches(pattern: string, topic: string)
  {
    SegmentsMatch(Split(pattern), Split(topic))
  }

  // ---------------------------------------------------------------------
  // Extract
  // ---------------------------------------------------------------------

  /** Number of pattern segments Extract looks at: up to and including the first named '#'. */
  function ExtractCut(p: seq<string>): (n: nat)
    ensures n <= |p|
  {
    var k := FirstNamedMultiLevel(p);
    if k < |p| then k + 1 else |p|
  }

  /** Every segment Extract looks at has a first character. */
  predicate ExtractVisitsNonEmpty(p: seq<string>)
  {
    forall i :: 0 <= i < ExtractCut(p) ==> |p[i]| > 0
  }

  /** Every topic index Extract reads is in range. */
  predicate CapturesInRange(p: seq<string>, t: seq<string>)
  {
    forall i :: 0 <= i < ExtractCut(p) && IsNamed(p[i]) ==>
      if IsMultiLevel(p[i]) then i <= |t| else i < |t|
  }

  /** Extract runs without an exception on these segments. */
  predicate ExtractDefined(p: seq<string>, t: seq<string>)
  {
    ExtractVisitsNonEmpty(p) && CapturesInRange(p, t)
  }

  /** The topic segments a named wildcard at index i captures. */
  function Captured(p: seq<string>, t: seq<string>, i: nat): seq<string>
    requires i < |p| && IsNamed(p[i])
    requires if IsMultiLevel(p[i]) then i <= |t| else i < |t|
  {
    if IsMultiLevel(p[i]) then t[i..] else [t[i]]
  }

  /** The map after the first n segments, later names overwriting earlier ones. */
  function Bindings(p: seq<string>, t: seq<string>, n: nat): Params
    requires n <= ExtractCut(p) && ExtractDefined(p, t)
  {
    if n == 0 then map[]
    else
      var m := Bindings(p, t, n - 1);
      if IsNamed(p[n - 1]) then m[ParamName(p[n - 1]) := Captured(p, t, n - 1)] else m
  }

  function Extracted(p: seq<string>, t: seq<string>): Params
    requires ExtractDefined(p, t)
  {
    Bindings(p, t, ExtractCut(p))
  }

  predicate ExtractDefinedOn(pattern: string, topic: string)
  {
    ExtractDefined(Split(pattern), Split(topic))
  }

  function ExtractOf(pattern: string, topic: string): Params
    requires ExtractDefinedOn(pattern, topic)
  {
    Extracted(Split(pattern), Split(topic))
  }

  /**
   * One step of Extract at segment i, which it reaches only before the
   * first named '#': the segment is non-empty, its capture is in range,
   * and Bindings grows by that segment's binding, after which a named '#'
   * ends the walk.
   */
  lemma ExtractStep(p: seq<string>, t: seq<string>, i: nat)
    requires ExtractDefined(p, t) && i < |p| && i <= FirstNamedMultiLevel(p)
    ensures |p[i]| > 0 && i < ExtractCut(p)
    ensures IsNamed(p[i]) && IsMultiLevel(p[i]) ==>
      i <= |t| && FirstNamedMultiLevel(p) == i && ExtractCut(p) == i + 1 &&
      Bindings(p, t, i + 1) == Bindings(p, t, i)[p[i][1..] := t[i..]]
    ensures IsNamed(p[i]) && IsSingleLevel(p[i]) ==>
      i < |t| && i < FirstNamedMultiLevel(p) &&
      Bindings(p, t, i + 1) == Bindings(p, t, i)[p[i][1..] := [t[i]]]
    ensures !IsNamed(p[i]) ==>
      i < FirstNamedMultiLevel(p) && Bindings(p, t, i + 1) == Bindings(p, t, i)
  {
  }

  /**
   * A topic that matches reaches every index Extract reads: Extract then
   * fails only on an empty pattern segment.
   */
  lemma MatchingCapturesInRange(p: seq<string>, t: seq<string>)
    requires SegmentsMatch(p, t)
    ensures CapturesInRange(p, t)
  {
    var k := FirstMultiLevel(p);
    forall i | 0 <= i < ExtractCut(p) && IsNamed(p[i])
      ensures if IsMultiLevel(p[i]) then i <= |t| else i < |t|
    {
      assert i <= k;
    }
  }

  // ---------------------------------------------------------------------
  // Fill
  // ---------------------------------------------------------------------

  /** Fill runs without an exception: visited segments are non-empty and '+' values have a first element. */
  predicate FillDefined(p: seq<string>, params: Params)
  {
    forall i :: 0 <= i < |p| && i <= FirstMultiLevel(p) ==>
      |p[i]| > 0 && (IsSingleLevel(p[i]) && ParamName(p[i]) in params ==> |params[ParamName(p[i])]| > 0)
  }

  /** What Fill emits for a segment before the first '#'. */
  function FillSegment(seg: string, params: Params): string
    requires |seg| > 0 && !IsMultiLevel(seg)
    requires IsSingleLevel(seg) && ParamName(seg) in params ==> |params[ParamName(seg)]| > 0
  {
    if !IsSingleLevel(seg) then seg
    else if ParamName(seg) in params then params[ParamName(seg)][0]
    else Undefined
  }

  /** The first n emitted segments, n not past the first '#'. */
  function FilledPrefix(p: seq<string>, params: Params, n: nat): (r: seq<string>)
    requires n <= FirstMultiLevel(p) && FillDefined(p, params)
    ensures |r| == n
  {
    if n == 0 then [] else FilledPrefix(p, params, n - 1) + [FillSegment(p[n - 1], params)]
  }

  lemma {:induction false} FilledPrefixAt(p: seq<string>, params: Params, n: nat, i: nat)
    requires n <= FirstMultiLevel(p) && FillDefined(p, params) && i < n
    ensures FilledPrefix(p, params, n)[i] == FillSegment(p[i], params)
  {
    if i < n - 1 {
      FilledPrefixAt(p, params, n - 1, i);
    }
  }

  /** The '#' segment, when there is one and its name has a value, emits that value joined. */
  function FilledTail(p: seq<string>, params: Params): seq<string>
    requires FillDefined(p, params)
  {
    var k := FirstMultiLevel(p);
    if k < |p| && ParamName(p[k]) in params then [Join(params[ParamName(p[k])])] else []
  }

  function FilledSegments(p: seq<string>, params: Params): seq<string>
    requires FillDefined(p, params)
  {
    FilledPrefix(p, params, FirstMultiLevel(p)) + FilledTail(p, params)
  }

  predicate FillDefinedOn(pattern: string, params: Params)
  {
    FillDefined(Split(pattern), params)
  }

  function FillOf(pattern: string, params: Params): string
    requires FillDefinedOn(pattern, params)
  {
    Join(FilledSegments(Split(pattern), params))
  }

  // ---------------------------------------------------------------------
  // Clean
  // ---------------------------------------------------------------------

  predicate NoEmptySegment(p: seq<string>)
  {
    forall i :: 0 <= i < |p| ==> |p[i]| > 0
  }

  function CleanSegment(seg: string): string
    requires |seg| > 0
  {
    if IsMultiLevel(seg) then [All]
    else if IsSingleLevel(seg) then [Single]
    else seg
  }

  /** The first n segments, cleaned. */
  function CleanedPrefix(p: seq<string>, n: nat): (r: seq<string>)
    requires n <= |p| && NoEmptySegment(p)
    ensures |r| == n
  {
    if n == 0 then [] else CleanedPrefix(p, n - 1) + [CleanSegment(p[n - 1])]
  }

  lemma {:induction false} CleanedPrefixAt(p: seq<string>, n: nat, i: nat)
    requires n <= |p| && NoEmptySegment(p) && i < n
    ensures CleanedPrefix(p, n)[i] == CleanSegment(p[i])
  {
    if i < n - 1 {
      CleanedPrefixAt(p, n - 1, i);
    }
  }

  function CleanedSegments(p: seq<string>): (r: seq<string>)
    requires NoEmptySegment(p)
    ensures |r| == |p|
  {
    CleanedPrefix(p, |p|)
  }

  /** Each segment is cleaned on its own. */
  lemma CleanedAt(p: seq<string>)
    requires NoEmptySegment(p)
    ensures forall i :: 0 <= i < |p| ==> CleanedSegments(p)[i] == CleanSegment(p[i])
  {
    forall i | 0 <= i < |p| ensures CleanedSegments(p)[i] == CleanSegment(p[i]) {
      CleanedPrefixAt(p, |p|, i);
    }
  }

  predicate CleanDefinedOn(pattern: string)
  {
    NoEmptySegment(Split(pattern))
  }

  function CleanOf(pattern: string): string
    requires CleanDefinedOn(pattern)
  {
    Join(CleanedSegments(Split(pattern)))
  }
}
