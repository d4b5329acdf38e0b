/** What the runs of `summarizeCollection` mean: on strictly ascending
    input they are exactly the maximal runs of consecutive integers, and
    there is one more run than there are places where the loop closes one. */
module Runs {
  import opened JavaInt
  import opened Ordering
  import opened Summarizing

  /** The integers a run stands for, from `start` up to `end`. */
  function Expand(rg: Range): (r: seq<Int32>)
    decreases rg.end - rg.start
  {
    if rg.end < rg.start then []
    else if rg.end == rg.start then [rg.start]
    else Expand(Range(rg.start, rg.end - 1)) + [rg.end]
  }

  /** The runs expanded and concatenated in order. */
  function Flatten(rs: seq<Range>): seq<Int32>
    decreases |rs|
  {
    if rs == [] then [] else Flatten(rs[..|rs| - 1]) + Expand(rs[|rs| - 1])
  }

  /** `rs` cuts `s` into maximal runs: every run holds consecutive values,
      neighbouring runs leave a gap of at least one missing integer (so no
      run could be longer), and the runs expanded in order give back `s`. */
  predicate IsMaximalRunCover(s: seq<Int32>, rs: seq<Range>) {
    AreRuns(rs) && AreSeparated(rs) && Flatten(rs) == s
  }

  /** Every run holds at least one value. */
  predicate AreRuns(rs: seq<Range>) {
    forall k | 0 <= k < |rs| :: rs[k].start <= rs[k].end
  }

  /** At least one integer is missing between neighbouring runs. */
  predicate AreSeparated(rs: seq<Range>) {
    forall k | 0 < k < |rs| :: rs[k - 1].end + 1 < rs[k].start
  }

  /** The loop closes a run at index `i`: `numbers[i] != numbers[i-1] + 1`
      in 32-bit arithmetic. */
  predicate IsBreak(s: seq<Int32>, i: int) {
    1 <= i < |s| && !Continues(s[i - 1], s[i])
  }

  /** The indices where the loop closes a run. */
  function Breaks(s: seq<Int32>): set<int> {
    set i | 0 <= i < |s| && IsBreak(s, i)
  }

  /** Between increasing values the wrapping successor test is the ordinary
      one: `Integer.MAX_VALUE` has no larger value to wrap onto. */
  lemma ContinuesIsSuccessor(a: Int32, b: Int32)
    requires a < b
    ensures Continues(a, b) <==> b == a + 1
  {
    IncrementWraps(a);
  }

  lemma ExpandGrows(a: Int32, b: Int32)
    requires a <= b < MaxValue
    ensures Expand(Range(a, b + 1)) == Expand(Range(a, b)) + [b + 1]
  {
  }

  lemma ConcatAssoc<T>(a: seq<T>, b: seq<T>, c: seq<T>)
    ensures a + (b + c) == (a + b) + c
  {
  }

  lemma FlattenSnoc(rs: seq<Range>, rg: Range)
    ensures Flatten(rs + [rg]) == Flatten(rs) + Expand(rg)
  {
    assert (rs + [rg])[..|rs|] == rs;
  }

  /** `Ranges` read one number at a time from the end. */
  lemma RangesSnoc(init: seq<Int32>, x: Int32)
    ensures init == [] ==> Ranges(init + [x]) == [Range(x, x)]
    ensures init != [] && Continues(init[|init| - 1], x) ==>
      Ranges(init + [x]) == Ranges(init)[..|Ranges(init)| - 1] + [Range(Ranges(init)[|Ranges(init)| - 1].start, x)]
    ensures init != [] && !Continues(init[|init| - 1], x) ==>
      Ranges(init + [x]) == Ranges(init) + [Range(x, x)]
  {
    assert (init + [x])[..|init|] == init;
  }

  /** A value past a gap opens a new maximal run. */
  lemma CoverOpen(s: seq<Int32>, rs: seq<Range>, x: Int32)
    requires IsMaximalRunCover(s, rs)
    requires rs != [] ==> rs[|rs| - 1].end + 1 < x
    ensures IsMaximalRunCover(s + [x], rs + [Range(x, x)])
  {
    assert Expand(Range(x, x)) == [x];
    FlattenSnoc(rs, Range(x, x));
  }

  /** Moving the end of the last run up keeps the runs nonempty and apart. */
  lemma ExtendKeepsShape(rs: seq<Range>, x: Int32)
    requires AreRuns(rs) && AreSeparated(rs)
    requires rs != [] && rs[|rs| - 1].end < x
    ensures AreRuns(rs[..|rs| - 1] + [Range(rs[|rs| - 1].start, x)])
    ensures AreSeparated(rs[..|rs| - 1] + [Range(rs[|rs| - 1].start, x)])
  {
    var grown := rs[..|rs| - 1] + [Range(rs[|rs| - 1].start, x)];
    assert forall k | 0 <= k < |rs| - 1 :: grown[k] == rs[k];
    assert grown[|rs| - 1].start == rs[|rs| - 1].start;
  }

  /** The successor of a run's last value extends that run. */
  lemma CoverExtend(s: seq<Int32>, rs: seq<Range>, x: Int32)
    requires IsMaximalRunCover(s, rs)
    requires rs != [] && rs[|rs| - 1].end < MaxValue && x == rs[|rs| - 1].end + 1
    ensures IsMaximalRunCover(s + [x], rs[..|rs| - 1] + [Range(rs[|rs| - 1].start, x)])
  {
    var init, last := rs[..|rs| - 1], rs[|rs| - 1];
    ExtendKeepsShape(rs, x);
    assert rs == init + [last];
    FlattenSnoc(init, last);
    ExpandGrows(last.start, last.end);
    FlattenSnoc(init, Range(last.start, x));
    ConcatAssoc(Flatten(init), Expand(last), [x]);
  }

  /** Reading one more value keeps the runs maximal. */
  lemma CoverStep(init: seq<Int32>, x: Int32)
    requires StrictlyAscending(init + [x])
    requires IsMaximalRunCover(init, Ranges(init))
    ensures IsMaximalRunCover(init + [x], Ranges(init + [x]))
  {
    RangesSnoc(init, x);
    if init == [] {
      CoverOpen(init, [], x);
    } else {
      var y := init[|init| - 1];
      assert (init + [x])[|init| - 1] == y;
      ContinuesIsSuccessor(y, x);
      if Continues(y, x) {
        CoverExtend(init, Ranges(init), x);
      } else {
        CoverOpen(init, Ranges(init), x);
      }
    }
  }

  /** On strictly ascending input the runs `summarizeCollection` writes are
      the maximal runs of consecutive integers, in order. */
  lemma {:induction false} RangesAreMaximalRuns(s: seq<Int32>)
    requires StrictlyAscending(s)
    ensures IsMaximalRunCover(s, Ranges(s))
    decreases |s|
  {
    if s == [] {
      assert Flatten([]) == [];
    } else {
      var init, x := s[..|s| - 1], s[|s| - 1];
      assert s == init + [x];
      assert StrictlyAscending(init) by {
        assert forall k | 0 <= k < |init| :: init[k] == s[k];
      }
      RangesAreMaximalRuns(init);
      CoverStep(init, x);
    }
  }

  /** A run that starts after a gap opens a new range, and each further
      consecutive value extends it. */
  lemma {:induction false} RangesOfRun(prefix: seq<Int32>, a: Int32, b: Int32)
    requires a <= b
    requires prefix != [] ==> prefix[|prefix| - 1] + 1 < a
    ensures Ranges(prefix + Expand(Range(a, b))) == Ranges(prefix) + [Range(a, b)]
    decreases b - a
  {
    if a == b {
      assert Expand(Range(a, b)) == [a];
      RangesSnoc(prefix, a);
      if prefix != [] {
        IncrementWraps(prefix[|prefix| - 1]);
      }
    } else {
      var c: Int32 := b - 1;
      RangesOfRun(prefix, a, c);
      ExpandGrows(a, c);
      var init := prefix + Expand(Range(a, c));
      ConcatAssoc(prefix, Expand(Range(a, c)), [b]);
      RangesSnoc(init, b);
      IncrementWraps(c);
    }
  }

  /** The maximal runs of a sequence are unique: any cut of `s` into
      maximal runs is the one `summarizeCollection` makes. */
  lemma {:induction false} MaximalRunCoverUnique(s: seq<Int32>, rs: seq<Range>)
    requires IsMaximalRunCover(s, rs)
    ensures rs == Ranges(s)
    decreases |rs|
  {
    if rs == [] {
      assert s == [];
    } else {
      var init, last := rs[..|rs| - 1], rs[|rs| - 1];
      assert rs == init + [last];
      var prefix := Flatten(init);
      assert s == prefix + Expand(last);
      var p := s[..|prefix|];
      assert p == prefix;
      MaximalRunCoverUnique(p, init);
      if init != [] {
        assert p[|p| - 1] == init[|init| - 1].end;
      }
      RangesOfRun(p, last.start, last.end);
    }
  }

  /** One more value adds a break exactly when it does not continue the
      last run. */
  lemma BreaksSnoc(init: seq<Int32>, x: Int32)
    requires init != []
    ensures Breaks(init + [x]) ==
      Breaks(init) + (if Continues(init[|init| - 1], x) then {} else {|init|})
  {
    var s := init + [x];
    forall i | 0 <= i < |init|
      ensures IsBreak(s, i) <==> IsBreak(init, i)
    {
      if 1 <= i {
        assert s[i - 1] == init[i - 1] && s[i] == init[i];
      }
    }
    assert IsBreak(s, |init|) <==> !Continues(init[|init| - 1], x) by {
      assert s[|init| - 1] == init[|init| - 1];
    }
    var added: set<int> := if Continues(init[|init| - 1], x) then {} else {|init|};
    forall i
      ensures i in Breaks(s) <==> i in Breaks(init) + added
    {
    }
  }

  /** The loop closes one run per break, and the final call after the loop
      closes one more. */
  lemma {:induction false} RangeCount(s: seq<Int32>)
    requires s != []
    ensures |Ranges(s)| == |Breaks(s)| + 1
    decreases |s|
  {
    var init, x := s[..|s| - 1], s[|s| - 1];
    assert s == init + [x];
    RangesSnoc(init, x);
    if init == [] {
      assert Breaks(s) == {};
    } else {
      RangeCount(init);
      BreaksSnoc(init, x);
      assert |init| !in Breaks(init);
    }
  }
}
