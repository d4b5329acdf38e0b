# Number range summarizer, modelled in Dafny

`NumberRangeSummarizerImpl` turns a comma-delimited list of integers into
a compact text. It works in two steps:

- `collect(String)` splits the input at commas, trims each piece, drops
  empty pieces and parses the rest with `Integer.parseInt`. It then
  removes duplicates and sorts ascending. Null or blank input gives the
  empty list. A malformed piece throws `NumberFormatException`.
- `summarizeCollection(Collection<Integer>)` walks the list once. It keeps
  the `start` and `previous` values of the current run and closes the run
  whenever `current != previous + 1`. The private `appendRange` writes each
  closed run into a `StringBuilder`:
  - as `n` when the run has a single value, otherwise as `start-end`;
  - after a `", "` separator when the builder already holds text.

The model is split into modules:

- `Results`: the `Option` and `Result` datatypes.
- `JavaInt`: the 32-bit `int` range and its wrapping `+ 1`.
- `Decimal`: `Integer.parseInt` and `Integer.toString`.
- `JavaText`: `String.trim` and `String.split(",")`.
- `Ordering`: strictly ascending sequences.
- `Collecting`: `collect`, as pure functions, since the source is a stream
  pipeline.
- `Summarizing`: `summarizeCollection` and `appendRange`.
  - Both are imperative methods over a small `Builder` class that stands
    for the `StringBuilder`.
  - They are proved against the functions `Ranges` (the runs the loop
    closes) and `Render` (their text).
- `Runs`: what those runs mean. On strictly ascending input they are
  exactly the maximal runs of consecutive integers, and there is one more
  run than there are breaks.
- `SummaryText`: reading a summary back. Cutting the text at commas,
  trimming, and parsing each piece as `n` or `start-end` gives back the runs
  it was written from, including the `-5--3` form.
- `Examples`: the cases of the unit tests as lemmas about the model.

`null` arguments are modelled as `None`. The exception is modelled as the
`Err` case of a `Result`, holding the rejected token.

The model follows the code in these details, which the Javadoc comments
(NumberRangeSummarizerImpl.java lines 12-15 and 31) leave open:

- `trim()` strips every character at or below U+0020, not only white space.
- `parseInt` accepts a leading `+` and rejects values outside the 32-bit
  range.
- `summarizeCollection` is defined for every list, sorted or not. Its
  maximal-run properties are proved for strictly ascending input, which is
  what `collect` produces.

## Model

| member | source | states |
|---|---|---|
| JavaInt.IncrementWraps | src/main/java/numberrangesummarizer/NumberRangeSummarizerImpl.java:47 | `previous + 1` in `int` arithmetic agrees with `x + 1` modulo 2^32, and equals it exactly when `x` is below `Integer.MAX_VALUE` |
| Decimal.ParseInt | src/main/java/numberrangesummarizer/NumberRangeSummarizerImpl.java:25 | `parseInt` accepts only text that is a sign or a digit followed by digits; a negative result needs a leading `-`; a single non-digit character is rejected |
| Decimal.ParseIntValue | src/main/java/numberrangesummarizer/NumberRangeSummarizerImpl.java:25 | a sign (none, `-` or `+`) followed by digits parses to the signed value of the digits, leading zeros included, when that value lies in the `int` range, and fails otherwise; with `ParseInt`'s shape clauses this fixes `parseInt` on every input |
| Decimal.NatToStringValue | src/main/java/numberrangesummarizer/NumberRangeSummarizerImpl.java:66-68 | the decimal text of a natural number is all digits, has no leading zero (zero is written as the single digit `0`), and denotes that number |
| Decimal.IntToStringShape | src/main/java/numberrangesummarizer/NumberRangeSummarizerImpl.java:66-68 | the text of an `int` starts with `-` exactly when the value is negative, and is digits after that |
| Decimal.ParseIntToString | src/main/java/numberrangesummarizer/NumberRangeSummarizerImpl.java:25 | `parseInt` reads back every `int` that `toString` writes |
| Decimal.IntToStringInjective | src/main/java/numberrangesummarizer/NumberRangeSummarizerImpl.java:66-68 | distinct `int` values are written as distinct texts |
| JavaText.TrimShape | src/main/java/numberrangesummarizer/NumberRangeSummarizerImpl.java:23 | `trim()` removes only a blank prefix and a blank suffix, and what it keeps neither starts nor ends with a character at or below U+0020 |
| JavaText.TrimPadded | src/main/java/numberrangesummarizer/NumberRangeSummarizerImpl.java:23 | trimming blank padding around text with non-blank ends gives exactly that text back |
| JavaText.TrimEmptyIffBlank | src/main/java/numberrangesummarizer/NumberRangeSummarizerImpl.java:18 | `input.trim().isEmpty()` holds exactly when every character is at or below U+0020 |
| JavaText.Split | src/main/java/numberrangesummarizer/NumberRangeSummarizerImpl.java:22 | `split(",")` gives at least one field, no field holds a comma, and the fields joined with commas give back the input |
| JavaText.SplitJoin | src/main/java/numberrangesummarizer/NumberRangeSummarizerImpl.java:22 | splitting the comma-join of comma-free fields gives those fields back, so the split is the only such cut |
| Ordering.AscendingUnique | src/main/java/numberrangesummarizer/NumberRangeSummarizerImpl.java:26-27 | two strictly ascending lists with the same members are equal |
| Collecting.TrimmedTokens | src/main/java/numberrangesummarizer/NumberRangeSummarizerImpl.java:23-24 | trimming and filtering leaves no empty token and never more tokens than fields |
| Collecting.TrimmedTokensMembers | src/main/java/numberrangesummarizer/NumberRangeSummarizerImpl.java:23-24 | a string is a token exactly when it is the non-empty trim of some field |
| Collecting.TrimmedTokensOf | src/main/java/numberrangesummarizer/NumberRangeSummarizerImpl.java:23-24 | when no field trims to nothing, the tokens are the trimmed fields, one for one and in order |
| Collecting.TrimmedTokensAppend | src/main/java/numberrangesummarizer/NumberRangeSummarizerImpl.java:23-24 | the tokens of two runs of fields are the tokens of the first run followed by those of the second, so `filter` keeps encounter order around blank fields |
| Collecting.TrimmedTokensSingle | src/main/java/numberrangesummarizer/NumberRangeSummarizerImpl.java:23-24 | one field gives its trimmed text as a token, or no token when it trims to nothing |
| Collecting.Tokens | src/main/java/numberrangesummarizer/NumberRangeSummarizerImpl.java:22-24 | every token handed to `parseInt` is non-empty and holds no comma |
| Collecting.ParseAll | src/main/java/numberrangesummarizer/NumberRangeSummarizerImpl.java:25 | mapping `parseInt` succeeds exactly when every token parses, and then gives one value per token; a failure names a token that is the first malformed one |
| Collecting.ParseAllValues | src/main/java/numberrangesummarizer/NumberRangeSummarizerImpl.java:25 | when each token parses to the matching value, the mapped list is exactly those values |
| Collecting.ParseAllFirstError | src/main/java/numberrangesummarizer/NumberRangeSummarizerImpl.java:25 | the exception carries the first token that is not an `int` literal, and no partial list is returned |
| Collecting.ParsedValues | src/main/java/numberrangesummarizer/NumberRangeSummarizerImpl.java:25 | an integer is in the parsed list exactly when some token denotes it |
| Collecting.Insert | src/main/java/numberrangesummarizer/NumberRangeSummarizerImpl.java:26-27 | adding a value to a strictly ascending list keeps it strictly ascending, and its members become the old ones plus that value |
| Collecting.Normalize | src/main/java/numberrangesummarizer/NumberRangeSummarizerImpl.java:26-27 | `distinct().sorted()` gives a strictly ascending list with exactly the members of its input, and is never longer |
| Collecting.NormalizeUnique | src/main/java/numberrangesummarizer/NumberRangeSummarizerImpl.java:26-27 | `distinct().sorted()` gives the one strictly ascending list that holds exactly the input's values |
| Collecting.Collect | src/main/java/numberrangesummarizer/NumberRangeSummarizerImpl.java:17-29 | `collect(null)` is the empty list, and every successful result is strictly ascending |
| Collecting.CollectBlank | src/main/java/numberrangesummarizer/NumberRangeSummarizerImpl.java:18-20 | input made only of characters at or below U+0020 gives the empty list |
| Collecting.CollectSucceedsIff | src/main/java/numberrangesummarizer/NumberRangeSummarizerImpl.java:18-25 | `collect` succeeds exactly when every token is an `int` literal; the blank short cut agrees with the pipeline |
| Collecting.CollectValues | src/main/java/numberrangesummarizer/NumberRangeSummarizerImpl.java:22-28 | on success an integer is in the result exactly when some token denotes it; only duplicates are lost |
| Collecting.CollectFirstError | src/main/java/numberrangesummarizer/NumberRangeSummarizerImpl.java:25 | when some token is not an `int` literal, `collect` fails with the first such token and returns no list |
| Collecting.SplitOfSeparators | src/main/java/numberrangesummarizer/NumberRangeSummarizerImpl.java:22 | splitting text made only of commas and characters at or below U+0020 yields only blank fields |
| Collecting.BlankFieldsHaveNoTokens | src/main/java/numberrangesummarizer/NumberRangeSummarizerImpl.java:23-24 | blank fields leave no token after trimming and filtering |
| Collecting.SeparatorsHaveNoTokens | src/main/java/numberrangesummarizer/NumberRangeSummarizerImpl.java:22-24 | text made only of commas and characters at or below U+0020 has no tokens |
| Collecting.BlankHasNoTokens | src/main/java/numberrangesummarizer/NumberRangeSummarizerImpl.java:22-24 | blank text has no tokens, so the short cut at line 18 changes no result |
| Collecting.OnlySeparatorsGiveEmpty | src/main/java/numberrangesummarizer/NumberRangeSummarizerImpl.java:18-24 | input of only commas and white space, such as `"  ,  ,  "`, gives the empty list and not an error |
| Collecting.CollectDeterminedByValues | src/main/java/numberrangesummarizer/NumberRangeSummarizerImpl.java:22-28 | on success the result is the only strictly ascending list whose members are the token values |
| Summarizing.Ranges | src/main/java/numberrangesummarizer/NumberRangeSummarizerImpl.java:41-55 | the loop closes no more runs than there are numbers, none exactly for empty input, and the first run starts at the first number and the last ends at the last |
| Summarizing.Render | src/main/java/numberrangesummarizer/NumberRangeSummarizerImpl.java:60-70 | the joined run texts are empty exactly when there are no runs |
| Summarizing.Builder.constructor | src/main/java/numberrangesummarizer/NumberRangeSummarizerImpl.java:39 | a new builder holds no text |
| Summarizing.Builder.Append | src/main/java/numberrangesummarizer/NumberRangeSummarizerImpl.java:62 | appending adds the given text after the builder's text |
| Summarizing.AppendRange | src/main/java/numberrangesummarizer/NumberRangeSummarizerImpl.java:60-70 | the builder's text grows by `", "` exactly when it was non-empty, then by the run's text (`n`, or `start-end`) |
| Summarizing.RangesStep | src/main/java/numberrangesummarizer/NumberRangeSummarizerImpl.java:44-53 | one loop step either extends the open run to `current` or closes it and opens `[current, current]`, following the `current != previous + 1` test |
| Summarizing.RenderStep | src/main/java/numberrangesummarizer/NumberRangeSummarizerImpl.java:61-68 | appending a run's text, after a separator when the text is non-empty, renders the closed runs followed by that run |
| Summarizing.CloseRun | src/main/java/numberrangesummarizer/NumberRangeSummarizerImpl.java:48 | each `appendRange` call turns the rendering of the closed runs into the rendering of those runs plus the new one |
| Summarizing.SummarizeCollection | src/main/java/numberrangesummarizer/NumberRangeSummarizerImpl.java:33-57 | null gives `""`; otherwise the result is the rendering of the runs the loop closes; the result is empty exactly for null or empty input |
| Runs.ContinuesIsSuccessor | src/main/java/numberrangesummarizer/NumberRangeSummarizerImpl.java:47 | between increasing values the wrapping test `current == previous + 1` is the ordinary successor test |
| Runs.RangesAreMaximalRuns | src/main/java/numberrangesummarizer/NumberRangeSummarizerImpl.java:41-55 | on strictly ascending input the runs are non-empty and consecutive, neighbouring runs leave a gap, and expanding and concatenating them gives back the input |
| Runs.RangesOfRun | src/main/java/numberrangesummarizer/NumberRangeSummarizerImpl.java:44-53 | a block of consecutive values after a gap becomes exactly one new run |
| Runs.MaximalRunCoverUnique | src/main/java/numberrangesummarizer/NumberRangeSummarizerImpl.java:41-55 | any cut of a list into maximal runs is the one the loop makes |
| Runs.BreaksSnoc | src/main/java/numberrangesummarizer/NumberRangeSummarizerImpl.java:47 | a new number adds a break exactly when it fails the `previous + 1` test |
| Runs.RangeCount | src/main/java/numberrangesummarizer/NumberRangeSummarizerImpl.java:44-55 | for non-empty input the number of runs is one more than the number of indices where `numbers[i] != numbers[i-1] + 1` |
| SummaryText.FormatRangeChars | src/main/java/numberrangesummarizer/NumberRangeSummarizerImpl.java:65-68 | a run's text holds only digits and `-`, so it holds no comma |
| SummaryText.ParseFormatRange | src/main/java/numberrangesummarizer/NumberRangeSummarizerImpl.java:65-68 | a run's text, `-5--3` included, reads back as that run |
| SummaryText.TrimFormatRange | src/main/java/numberrangesummarizer/NumberRangeSummarizerImpl.java:62 | a run's text, with or without the space of the separator before it, trims to the run's text |
| SummaryText.PiecesJoin | src/main/java/numberrangesummarizer/NumberRangeSummarizerImpl.java:61-62 | the summary is the comma-join of comma-free pieces, one per run |
| SummaryText.ParsePieces | src/main/java/numberrangesummarizer/NumberRangeSummarizerImpl.java:60-70 | the trimmed pieces read back as the runs, in order |
| SummaryText.ParseRender | src/main/java/numberrangesummarizer/NumberRangeSummarizerImpl.java:60-70 | reading a rendering back gives the runs it was written from, so distinct runs never share a text |
| SummaryText.SummaryNamesMaximalRuns | src/main/java/numberrangesummarizer/NumberRangeSummarizerImpl.java:41-70 | on strictly ascending input the summary reads back as the maximal runs, and expanding them gives back the input |
| Examples.DuplicatesInput | src/test/java/numberrangesummarizer/NumberRangeSummarizerImplTest.java:15-19 | `" 8, 6, 7 ,8, 12,13, 15"` collects to `[6, 7, 8, 12, 13, 15]` |
| Examples.BlankInput | src/test/java/numberrangesummarizer/NumberRangeSummarizerImplTest.java:21-25 | `""` collects to the empty list |
| Examples.NullInput | src/test/java/numberrangesummarizer/NumberRangeSummarizerImplTest.java:27-31 | null collects to the empty list |
| Examples.WhitespaceOnly | src/test/java/numberrangesummarizer/NumberRangeSummarizerImplTest.java:33-38 | `"  ,  ,  "` collects to the empty list |
| Examples.UnorderedInput | src/test/java/numberrangesummarizer/NumberRangeSummarizerImplTest.java:40-45 | `"8,3,6,7,1"` collects to `[1, 3, 6, 7, 8]` |
| Examples.InvalidNumber | src/test/java/numberrangesummarizer/NumberRangeSummarizerImplTest.java:47-52 | `"1,2,abc,4"` fails, naming the token `abc` |
| Examples.BlankFieldFirstError | src/main/java/numberrangesummarizer/NumberRangeSummarizerImpl.java:22-25 | `"1,,abc,x"` fails naming `abc`, the first malformed token in encounter order, not the later `x` |
| Examples.MixedSummary | src/test/java/numberrangesummarizer/NumberRangeSummarizerImplTest.java:55-61 | the mixed sample summarizes to `"1, 3, 6-8, 12-15, 21-24, 31"` |
| Examples.FullySequential | src/test/java/numberrangesummarizer/NumberRangeSummarizerImplTest.java:63-69 | `[1, 2, 3, 4, 5]` summarizes to `"1-5"` |
| Examples.SingleNumber | src/test/java/numberrangesummarizer/NumberRangeSummarizerImplTest.java:71-77 | `[5]` summarizes to `"5"` |
| Examples.NonSequential | src/test/java/numberrangesummarizer/NumberRangeSummarizerImplTest.java:79-85 | `[1, 5, 9]` summarizes to `"1, 5, 9"` |
| Examples.EmptySummary | src/test/java/numberrangesummarizer/NumberRangeSummarizerImplTest.java:87-91 | the empty list summarizes to `""` |
| Examples.NegativeRanges | src/test/java/numberrangesummarizer/NumberRangeSummarizerImplTest.java:99-105 | `[-5, -4, -3, 1, 2, 3]` summarizes to `"-5--3, 1-3"` |
| Examples.EndToEnd | src/test/java/numberrangesummarizer/NumberRangeSummarizerImplTest.java:107-114 | collecting `"1,3,6,7,8,12,13,14,15,21,22,23,24,31"` succeeds, and summarizing the result gives `"1, 3, 6-8, 12-15, 21-24, 31"` |
| Examples.OutOfRangeRejected | src/main/java/numberrangesummarizer/NumberRangeSummarizerImpl.java:25 | `"2147483648"` and `"+2147483648"`, one past `Integer.MAX_VALUE`, and a lone `"-"` are not `int` literals |
| Examples.NonCanonicalAccepted | src/main/java/numberrangesummarizer/NumberRangeSummarizerImpl.java:25 | `"+7"` and `"007"` parse to 7 and `"-0"` parses to 0 |

The null case of `summarizeCollection`
(src/test/java/numberrangesummarizer/NumberRangeSummarizerImplTest.java:93-97)
is the first clause of `Summarizing.SummarizeCollection`'s postcondition.

## Left out

- The `NumberRangeSummarizer` interface and dispatch through it are not modelled; the two operations are plain members.
- Java streams are modelled by their result only. Laziness and evaluation order are not modelled, beyond the fact that the first malformed token is the one reported.
- Decimal.ParseInt: does not accept the non-ASCII Unicode digits that `Character.digit` would, because only ASCII digits are modelled.
- JavaText.Split: keeps the trailing empty fields that `String.split` drops. Such fields trim to nothing and are filtered out, so `collect`'s result is the same.
- The message text of `NumberFormatException` is not modelled. The error carries the rejected token instead.
- `Collection<Integer>` is modelled as a sequence of `int`. Null elements, which would throw when unboxed, are not modelled.
- Summarizing.Ranges: the maximal-run and round-trip properties are proved only for strictly ascending input. The loop itself is modelled on every input, including the wrap of `previous + 1` at `Integer.MAX_VALUE`.
