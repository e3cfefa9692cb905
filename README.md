# MQTT topic patterns with named wildcards

This Dafny project models the static class `MqttPattern` of Unified.Mqtt.Pattern. The class matches MQTT topics against subscription patterns with named wildcards. Patterns and topics split on `/`:

- a pattern segment starting with `+` matches one topic level;
- a pattern segment starting with `#` matches the remaining levels;
- the characters after the wildcard character name the wildcard (`+name`, `#name`).

The class has five operations. Four of them (`Matches`, `Extract`, `Fill`, `Clean`) are each a loop over the split pattern; `Exec` composes `Matches` and `Extract`:

- `Matches` decides whether a topic fits a pattern.
- `Extract` maps each wildcard name to the topic levels it covers.
- `Exec` returns `Extract` on a matching topic and the empty map otherwise.
- `Fill` rebuilds a topic from a pattern and a map.
- `Clean` strips the names off the wildcards.

Layout:

- `segments.dfy` (module `Segments`): `/`-splitting and joining, with the semantics of .NET's `String.Split(char)` and `String.Join`.
- `pattern_spec.dfy` (module `PatternSpec`): the `+`, `#` and `"undefined"` constants, plus a declarative reference definition of each of the four looping operations.
- `mqtt_pattern.dfy` (module `MqttPattern`): the five operations as methods. `Matches`, `Extract`, `Fill` and `Clean` keep the source's loops and are each proved equal to their reference definition. `Exec` is specified by cases: the empty map when `TopicMatches` fails, `ExtractOf` otherwise.
- `pattern_properties.dfy` (module `PatternProperties`): properties of the reference definitions. These include the Fill/Extract round trip and the idempotence of Clean.
- `pattern_examples.dfy` (module `PatternExamples`): the repository's unit-test cases as lemmas.

Every runtime exception the source can raise on a present argument becomes a precondition:

- the first character of an empty pattern segment;
- a topic index out of range;
- a negative array length in `Extract`;
- `paramValue[0]` of an empty `+` value in `Fill`.

Each precondition covers exactly the segments the loop visits, and no more. `Matches` has no precondition. `Exec` needs only "if the topic matches, the segments `Extract` visits are non-empty". When the topic matches, every topic index `Extract` uses is proved in range (`PatternSpec.MatchingCapturesInRange`).

## Model

| member | source | states |
|---|---|---|
| Segments.SplitSegments | src/Unified.Mqtt.Pattern/MqttPattern.cs:47-48 | `Split` keeps empty entries: a string with n separators splits into n + 1 segments, none of which holds a separator |
| Segments.JoinSplit | src/Unified.Mqtt.Pattern/MqttPattern.cs:120 | joining the segments of a split with `/` gives back the string |
| Segments.SplitJoin | src/Unified.Mqtt.Pattern/MqttPattern.cs:201 | splitting the join of a non-empty, separator-free list gives back the list |
| Segments.JoinFlatten | src/Unified.Mqtt.Pattern/MqttPattern.cs:102 | a joined list used as one segment of a join reads as its elements spliced into the outer list |
| PatternSpec.FirstMultiLevel | src/Unified.Mqtt.Pattern/MqttPattern.cs:65-66 | the index where `Matches` and `Fill` stop: the first segment whose first character is `#`, or the pattern length |
| PatternSpec.FirstNamedMultiLevel | src/Unified.Mqtt.Pattern/MqttPattern.cs:149-158 | the index where `Extract` stops: the first `#` segment longer than one character (a bare `#` is skipped) |
| PatternSpec.ExtractStep | src/Unified.Mqtt.Pattern/MqttPattern.cs:146-163 | at a visited index the segment is non-empty and its capture is in range; a named `#` adds `T[i..]` and ends the walk; a named `+` adds `[T[i]]`; any other segment adds nothing |
| PatternSpec.MatchingCapturesInRange | src/Unified.Mqtt.Pattern/MqttPattern.cs:152-162 | when the topic matches, every topic index `Extract` reads exists, so `Exec` can fail only on an empty pattern segment |
| PatternSpec.MatchAtMultiLevel | src/Unified.Mqtt.Pattern/MqttPattern.cs:61-66 | once the earlier segments match, reaching a `#` segment matches iff it is last and the topic has a level for it, or it is exactly `#` |
| MqttPattern.Matches | src/Unified.Mqtt.Pattern/MqttPattern.cs:39-73 | the loop with its early returns computes exactly `TopicMatches(pattern, topic)` |
| MqttPattern.Fill | src/Unified.Mqtt.Pattern/MqttPattern.cs:80-121 | the loop computes exactly `FillOf(pattern, parameters)`, given non-empty visited segments and non-empty `+` values |
| MqttPattern.Extract | src/Unified.Mqtt.Pattern/MqttPattern.cs:129-167 | the loop computes exactly `ExtractOf(pattern, topic)`, given non-empty visited segments and in-range captures |
| MqttPattern.Exec | src/Unified.Mqtt.Pattern/MqttPattern.cs:20-34 | the empty map when the topic does not match; otherwise `Extract` is defined and the result is exactly `ExtractOf(pattern, topic)` |
| MqttPattern.Clean | src/Unified.Mqtt.Pattern/MqttPattern.cs:172-202 | the loop computes exactly `CleanOf(pattern)`, given no empty segment |
| PatternProperties.HashMatchesEveryTopic | src/Unified.Mqtt.Pattern/MqttPattern.cs:61-66 | the pattern `#` matches every topic, the empty one included |
| PatternProperties.TrailingHashMatches | src/Unified.Mqtt.Pattern/MqttPattern.cs:61-66 | a pattern ending in exactly `#` matches iff the earlier segments match positionally and the topic has at least that many levels |
| PatternProperties.MultiLevelOnlyLast | src/Unified.Mqtt.Pattern/MqttPattern.cs:64-66 | a `#`-prefixed segment anywhere but last makes every topic fail |
| PatternProperties.MatchWithoutMultiLevel | src/Unified.Mqtt.Pattern/MqttPattern.cs:61-72 | without `#` segments, a pattern matches iff the lengths are equal and each segment starts with `+` or equals its topic segment |
| PatternProperties.LiteralPatternMatchesItself | src/Unified.Mqtt.Pattern/MqttPattern.cs:68-72 | a pattern without wildcards matches a topic iff the two strings are equal |
| PatternProperties.CleanedSegmentsWiden | src/Unified.Mqtt.Pattern/MqttPattern.cs:182-199 | on segments, the cleaned pattern matches every topic the original matches |
| PatternProperties.CleanWidensMatch | src/Unified.Mqtt.Pattern/MqttPattern.cs:172-202 | `Clean(P)` matches every topic `P` matches |
| PatternProperties.CleanCanWidenMatch | src/Unified.Mqtt.Pattern/MqttPattern.cs:61 | the converse fails: `foo/#else` does not match `foo`, but its cleaned form `foo/#` does |
| PatternProperties.BindingsKeys | src/Unified.Mqtt.Pattern/MqttPattern.cs:157-162 | after n visited segments, the keys are exactly the names of the named wildcards among them |
| PatternProperties.ExtractedKeys | src/Unified.Mqtt.Pattern/MqttPattern.cs:144-163 | the keys of `Extract` are exactly the names of the named wildcards up to and including the first named `#`; anonymous wildcards and literals contribute none |
| PatternProperties.BindingsValue | src/Unified.Mqtt.Pattern/MqttPattern.cs:157-162 | a name not reused later among the first n segments maps to its own capture |
| PatternProperties.ExtractedValue | src/Unified.Mqtt.Pattern/MqttPattern.cs:152-163 | a named wildcard whose name is not reused later maps to `[T[i]]` for `+` and to `T[i..]` for `#` |
| PatternProperties.FilledSegmentsShape | src/Unified.Mqtt.Pattern/MqttPattern.cs:92-118 | `Fill` emits literals verbatim and, for a `+`, the value's first element or `undefined`; at the first `#` it emits the joined value if the key is present and nothing otherwise, and the output length says so |
| PatternProperties.SameFirstMultiLevel | src/Unified.Mqtt.Pattern/MqttPattern.cs:99-105 | patterns that agree up to and including the first `#` have it at the same index |
| PatternProperties.FilledPrefixAgree | src/Unified.Mqtt.Pattern/MqttPattern.cs:107-118 | patterns that agree on their first n segments fill them alike |
| PatternProperties.FillStopsAtMultiLevel | src/Unified.Mqtt.Pattern/MqttPattern.cs:104-105 | segments after the first `#` never reach `Fill`'s output |
| PatternProperties.NamedStopsAgree | src/Unified.Mqtt.Pattern/MqttPattern.cs:99-158 | with every wildcard named, `Extract` and `Fill` stop at the same segment |
| PatternProperties.FilledPrefixCopiesTopic | src/Unified.Mqtt.Pattern/MqttPattern.cs:107-118 | before the first `#`, filling with one-level values taken from a matching topic copies the topic |
| PatternProperties.ExtractedCaptures | src/Unified.Mqtt.Pattern/MqttPattern.cs:152-163 | in a matching, fully named pattern with distinct names, each `+` maps to its level and the `#` to the remaining levels, of which there is at least one |
| PatternProperties.FillExtractSegments | src/Unified.Mqtt.Pattern/MqttPattern.cs:99-163 | on segments, filling the extracted map rebuilds the joined topic |
| PatternProperties.FillInvertsExtract | src/Unified.Mqtt.Pattern/MqttPattern.cs:76-163 | round trip: with every wildcard named, the names distinct, no empty segment and a matching topic, `Fill(P, Extract(P, T)) == T` |
| PatternProperties.SplitClean | src/Unified.Mqtt.Pattern/MqttPattern.cs:182-201 | `Clean` keeps the segment count, maps `#`-prefixed segments to `#` and `+`-prefixed ones to `+`, and leaves the others unchanged |
| PatternProperties.CleanedSegmentsIdempotent | src/Unified.Mqtt.Pattern/MqttPattern.cs:187-198 | cleaned segments are non-empty and clean to themselves |
| PatternProperties.CleanIdempotent | src/Unified.Mqtt.Pattern/MqttPattern.cs:172-202 | `Clean(Clean(P)) == Clean(P)` |
| PatternProperties.CleanedSegmentsExtractNothing | src/Unified.Mqtt.Pattern/MqttPattern.cs:149-150 | cleaned segments name no wildcard, so nothing is extracted from them |
| PatternProperties.ExtractAfterCleanIsEmpty | src/Unified.Mqtt.Pattern/MqttPattern.cs:129-167 | `Extract(Clean(P), T)` is defined and is the empty map for every topic |
| PatternExamples.MatchesWithoutWildcards | src/Unified.Mqtt.Pattern.Test/MqttPatternTests.cs:16-27 | `foo/bar/baz` matches itself and not `baz/bar/foo` |
| PatternExamples.MatchesHashWildcards | src/Unified.Mqtt.Pattern.Test/MqttPatternTests.cs:49-71 | `foo/#` and `foo/bar/#` match; `#/bar/baz` does not |
| PatternExamples.MatchesPlusWildcards | src/Unified.Mqtt.Pattern.Test/MqttPatternTests.cs:82-126 | `+` at the start, end or middle, `foo/+/#` and `foo/+something/#else` match `foo/bar/baz` |
| PatternExamples.MatchesLeadingSlashes | src/Unified.Mqtt.Pattern.Test/MqttPatternTests.cs:137-148 | `/foo/bar` matches itself and not `/bar/foo` |
| PatternExamples.NamedTrailingHashNeedsALevel | src/Unified.Mqtt.Pattern/MqttPattern.cs:61 | `foo/#` matches `foo`; `foo/#else` does not |
| PatternExamples.ExtractWithoutNamedWildcards | src/Unified.Mqtt.Pattern.Test/MqttPatternTests.cs:159-170 | patterns without named wildcards extract the empty map |
| PatternExamples.ExtractNamedWildcards | src/Unified.Mqtt.Pattern.Test/MqttPatternTests.cs:179-230 | the three extraction cases of the tests, value by value |
| PatternExamples.ExtractLaterNameWins | src/Unified.Mqtt.Pattern/MqttPattern.cs:162 | a repeated name keeps the later capture |
| PatternExamples.ExecExamples | src/Unified.Mqtt.Pattern.Test/MqttPatternTests.cs:238-257 | a non-matching topic gives the empty map; `foo/+hello/#world` on `foo/bar/baz` gives `hello ↦ [bar]`, `world ↦ [baz]` |
| PatternExamples.FillBothWildcardsSegments | src/Unified.Mqtt.Pattern.Test/MqttPatternTests.cs:266-277 | `foo/+hello/#world` fills to the segments `foo`, `Hello`, `the/world/wow` |
| PatternExamples.FillBothWildcards | src/Unified.Mqtt.Pattern.Test/MqttPatternTests.cs:266-277 | and so to `foo/Hello/the/world/wow` |
| PatternExamples.FillMissingSingleLevel | src/Unified.Mqtt.Pattern.Test/MqttPatternTests.cs:287-353 | a `+` with no value, named or not, becomes `undefined` |
| PatternExamples.FillMissingMultiLevel | src/Unified.Mqtt.Pattern.Test/MqttPatternTests.cs:305-336 | a `#` with no value, named or not, is left out with its separator |
| PatternExamples.CleanExamples | src/Unified.Mqtt.Pattern.Test/MqttPatternTests.cs:357-383 | `hello/+param1/world/#param2` cleans to `hello/+/world/#`, which cleans to itself |

## Left out

- Null arguments and the `ArgumentNullException`s at MqttPattern.cs:22-26, 41-45, 82-86, 131-135 and 174-175: Dafny strings and maps cannot be null.
- The branch at MqttPattern.cs:58-59: a split segment is never null, so it cannot be taken.
- A dictionary value that is null: `map<string, seq<string>>` has no null values.
- Runtime exceptions are not reproduced. An `IndexOutOfRangeException` on an empty segment or a short topic, or an `OverflowException` from a negative array length, is excluded by the precondition of the method concerned.
- `Dictionary` hashing and insertion order: Extract's result is a `map`, so key order is not modelled.
- MqttPattern.cs:61 compares with `string.Compare`, which is culture-sensitive. The model uses ordinal equality with `"#"`: characters are compared one by one, with no normalisation.
- MqttPattern.Fill: the doc comment at MqttPattern.cs:77-78 says a missing `#` parameter yields an empty string. The code at lines 101-105 leaves the segment and its separator out, and the model follows the code.
- PatternExamples: the unit tests pass string literals. The example lemmas state them on the literals' split segments (`Segments.SplitJoin` connects the two), except where the joined result is the point.
- MQTT features the code does not implement are outside this model: `$`-prefixed topics, topic-length limits, UTF-8 validation and broker behaviour.
- The NUnit test harness and ArrayComparer.cs: Dafny's built-in `seq`/`map` equality replaces the test-only comparers.
