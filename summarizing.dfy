/** `summarizeCollection`: one pass over the numbers that groups runs of
    consecutive values and writes each as `n` or `start-end`, the runs
    separated by ", ". */
module Summarizing {
  import opened Results
  import opened JavaInt
  import opened Decimal

  /** The run of values from `start` to `end`, written by `appendRange`. */
  datatype Range = Range(start: Int32, end: Int32)

  /** The test the loop makes: `current` extends the run that ends at
      `previous` exactly when `current == previous + 1` in `int`
      arithmetic, which wraps at `Integer.MAX_VALUE`. */
  predicate Continues(previous: Int32, current: Int32) {
    current == Increment(previous)
  }

  /** The runs the loop closes, in order, for the numbers seen so far: the
      next number either extends the last run or starts a new one. */
  function Ranges(s: seq<Int32>): (r: seq<Range>)
    ensures |r| <= |s|
    ensures r == [] <==> s == []
    ensures s != [] ==> r[0].start == s[0] && r[|r| - 1].end == s[|s| - 1]
    decreases |s|
  {
    if s == [] then []
    else
      var init := Ranges(s[..|s| - 1]);
      var x := s[|s| - 1];
      if init != [] && Continues(init[|init| - 1].end, x) then
        init[..|init| - 1] + [Range(init[|init| - 1].start, x)]
      else
        init + [Range(x, x)]
  }

  /** The text of one run: the number alone when the run has one element,
      otherwise both ends joined by "-", whatever their signs (so the run
      from -5 to -3 is "-5--3"). */
  function FormatRange(rg: Range): (r: string)
    ensures |r| > 0
  {
    if rg.start == rg.end then IntToString(rg.start)
    else IntToString(rg.start) + "-" + IntToString(rg.end)
  }

  /** The texts of the runs in order, with ", " between neighbours and
      no separator before the first or after the last. */
  function Render(rs: seq<Range>): (r: string)
    ensures r == [] <==> rs == []
    decreases |rs|
  {
    if rs == [] then []
    else if |rs| == 1 then FormatRange(rs[0])
    else Render(rs[..|rs| - 1]) + ", " + FormatRange(rs[|rs| - 1])
  }

  /** What `summarizeCollection` returns for `numbers`. */
  function Summary(numbers: seq<Int32>): string {
    Render(Ranges(numbers))
  }

  /** The `StringBuilder` the summary is written into. */
  class Builder {
    var text: string

    constructor ()
      ensures text == []
    {
      text := [];
    }

    method Append(s: string)
      modifies this
      ensures text == old(text) + s
    {
      text := text + s;
    }
  }

  /** `appendRange`: writes the separator when the builder already holds
      text, then the run from `start` to `end`. */
  method AppendRange(builder: Builder, start: Int32, end: Int32)
    modifies builder
    ensures builder.text ==
      old(builder.text) + (if |old(builder.text)| > 0 then ", " else "") + FormatRange(Range(start, end))
  {
    if |builder.text| > 0 {
      builder.Append(", ");
    }
    if start == end {
      builder.Append(IntToString(start));
    } else {
      ghost var before := builder.text;
      var low, high := IntToString(start), IntToString(end);
      builder.Append(low);
      builder.Append("-");
      builder.Append(high);
      ConcatRegroup(before, low, "-", high);
    }
  }

  /** Appending three pieces one after another appends their concatenation. */
  lemma ConcatRegroup(t: string, a: string, b: string, c: string)
    ensures t + a + b + c == t + (a + b + c)
  {
  }

  /** The number at index `i` either extends the last run of the prefix
      before it or opens a new run. */
  lemma RangesStep(s: seq<Int32>, i: nat, closed: seq<Range>, start: Int32, previous: Int32)
    requires i < |s|
    requires Ranges(s[..i]) == closed + [Range(start, previous)]
    ensures Continues(previous, s[i]) ==> Ranges(s[..i + 1]) == closed + [Range(start, s[i])]
    ensures !Continues(previous, s[i]) ==> Ranges(s[..i + 1]) == (closed + [Range(start, previous)]) + [Range(s[i], s[i])]
  {
    assert s[..i + 1][..i] == s[..i];
    var init := Ranges(s[..i]);
    assert init[..|init| - 1] == closed;
  }

  /** Appending a run's text, after a separator when there is text already,
      to the rendering of `closed` renders `closed` and that run. */
  lemma RenderStep(closed: seq<Range>, rg: Range, before: string, after: string)
    requires before == Render(closed)
    requires after == before + (if |before| > 0 then ", " else "") + FormatRange(rg)
    ensures after == Render(closed + [rg])
  {
    assert (closed + [rg])[..|closed + [rg]| - 1] == closed;
  }

  /** One call of `appendRange` extends the rendering of the closed runs
      by the run from `start` to `end`. */
  method CloseRun(builder: Builder, ghost closed: seq<Range>, start: Int32, end: Int32)
    requires builder.text == Render(closed)
    modifies builder
    ensures builder.text == Render(closed + [Range(start, end)])
  {
    ghost var before := builder.text;
    AppendRange(builder, start, end);
    RenderStep(closed, Range(start, end), before, builder.text);
  }

  /** `summarizeCollection(input)`, with `null` as `None`. */
  method SummarizeCollection(input: Option<seq<Int32>>) returns (r: string)
    ensures input.None? ==> r == ""
    ensures input.Some? ==> r == Summary(input.value)
    ensures r == "" <==> input.None? || input.value == []
  {
    if input.None? || |input.value| == 0 {
      return "";
    }
    var numbers := input.value;
    var summary := new Builder();
    var start := numbers[0];
    var previous := start;
    ghost var closed: seq<Range> := [];
    assert Ranges(numbers[..1]) == closed + [Range(start, previous)] by {
      assert numbers[..1][..0] == [];
    }
    for i := 1 to |numbers|
      invariant Ranges(numbers[..i]) == closed + [Range(start, previous)]
      invariant summary.text == Render(closed)
    {
      var current := numbers[i];
      RangesStep(numbers, i, closed, start, previous);
      if current != Increment(previous) {
        CloseRun(summary, closed, start, previous);
        closed := closed + [Range(start, previous)];
        start := current;
      }
      previous := current;
    }
    CloseRun(summary, closed, start, previous);
    assert numbers[..|numbers|] == numbers;
    r := summary.text;
  }

}
