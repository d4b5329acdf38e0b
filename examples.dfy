/** The cases of the unit tests, as facts about the model.

    The lemmas named after a test state its expected result. The others
    (`...Front`, `...Middle`, `...Back`, `...Start`, `...Join`, `...Text`
    and the digit-by-digit chain of `OnePastMaxValue`) model nothing of
    their own: they only cut one computation over a literal string or list
    into pieces small enough for the verifier. */
module Examples {
  import opened Results
  import opened JavaInt
  import opened Decimal
  import opened JavaText
  import opened Ordering
  import opened Collecting
  import opened Summarizing
  import opened Runs

  lemma SingleNumber()
    ensures Summary([5]) == "5"
  {
  }

  lemma NonSequentialRuns()
    ensures Ranges([1, 5, 9]) == [Range(1, 1), Range(5, 5), Range(9, 9)]
  {
    var rs := [Range(1, 1), Range(5, 5), Range(9, 9)];
    assert Flatten(rs) == [1, 5, 9] by {
      FlattenSnoc([], Range(1, 1));
      FlattenSnoc([Range(1, 1)], Range(5, 5));
      FlattenSnoc([Range(1, 1), Range(5, 5)], Range(9, 9));
      assert [Range(1, 1)] + [Range(5, 5)] == rs[..2];
      assert rs[..2] + [Range(9, 9)] == rs;
    }
    MaximalRunCoverUnique([1, 5, 9], rs);
  }

  lemma NonSequentialText()
    ensures Render([Range(1, 1), Range(5, 5), Range(9, 9)]) == "1, 5, 9"
  {
    var rs := [Range(1, 1), Range(5, 5), Range(9, 9)];
    assert Render(rs[..2]) == "1, 5" by {
      RenderStep([Range(1, 1)], Range(5, 5), "1", "1, 5");
      assert [Range(1, 1)] + [Range(5, 5)] == rs[..2];
    }
    RenderStep(rs[..2], Range(9, 9), "1, 5", "1, 5, 9");
    assert rs[..2] + [Range(9, 9)] == rs;
  }

  lemma NonSequential()
    ensures Summary([1, 5, 9]) == "1, 5, 9"
  {
    NonSequentialRuns();
    NonSequentialText();
  }

  lemma FullySequentialRuns()
    ensures Ranges([1, 2, 3, 4, 5]) == [Range(1, 5)]
  {
    var rs := [Range(1, 5)];
    assert Flatten(rs) == [1, 2, 3, 4, 5] by {
      FlattenSnoc([], Range(1, 5));
      assert [] + [Range(1, 5)] == rs;
    }
    MaximalRunCoverUnique([1, 2, 3, 4, 5], rs);
  }

  lemma FullySequential()
    ensures Summary([1, 2, 3, 4, 5]) == "1-5"
  {
    FullySequentialRuns();
    assert FormatRange(Range(1, 5)) == "1-5";
  }

  lemma NegativeRangeText()
    ensures FormatRange(Range(-5, -3)) == "-5--3"
  {
  }

  lemma NegativeRangesText()
    ensures Render([Range(-5, -3), Range(1, 3)]) == "-5--3, 1-3"
  {
    RenderStep([Range(-5, -3)], Range(1, 3), "-5--3", "-5--3, 1-3");
    assert [Range(-5, -3)] + [Range(1, 3)] == [Range(-5, -3), Range(1, 3)];
  }

  lemma NegativeRanges()
    ensures Summary([-5, -4, -3, 1, 2, 3]) == "-5--3, 1-3"
  {
    var rs := [Range(-5, -3), Range(1, 3)];
    assert Flatten(rs) == [-5, -4, -3, 1, 2, 3] by {
      FlattenSnoc([Range(-5, -3)], Range(1, 3));
      FlattenSnoc([], Range(-5, -3));
      assert [Range(-5, -3)] + [Range(1, 3)] == rs;
    }
    MaximalRunCoverUnique([-5, -4, -3, 1, 2, 3], rs);
    NegativeRangesText();
  }

  /** The runs of the sample input. */
  function MixedRuns(): seq<Range> {
    [Range(1, 1), Range(3, 3), Range(6, 8), Range(12, 15), Range(21, 24), Range(31, 31)]
  }

  /** Proof step only: the first three runs, expanded. */
  lemma MixedFlattenStart()
    ensures Flatten(MixedRuns()[..3]) == [1, 3, 6, 7, 8]
  {
    var rs := MixedRuns();
    FlattenSnoc([], rs[0]);
    assert [] + [rs[0]] == rs[..1];
    FlattenSnoc(rs[..1], rs[1]);
    assert rs[..1] + [rs[1]] == rs[..2];
    FlattenSnoc(rs[..2], rs[2]);
    assert rs[..2] + [rs[2]] == rs[..3];
  }

  lemma MixedFlatten()
    ensures Flatten(MixedRuns()) == [1, 3, 6, 7, 8, 12, 13, 14, 15, 21, 22, 23, 24, 31]
  {
    var rs := MixedRuns();
    MixedFlattenStart();
    FlattenSnoc(rs[..3], rs[3]);
    assert rs[..3] + [rs[3]] == rs[..4];
    FlattenSnoc(rs[..4], rs[4]);
    assert rs[..4] + [rs[4]] == rs[..5];
    FlattenSnoc(rs[..5], rs[5]);
    assert rs[..5] + [rs[5]] == rs;
  }

  lemma MixedRanges()
    ensures Ranges([1, 3, 6, 7, 8, 12, 13, 14, 15, 21, 22, 23, 24, 31]) == MixedRuns()
  {
    MixedFlatten();
    MaximalRunCoverUnique([1, 3, 6, 7, 8, 12, 13, 14, 15, 21, 22, 23, 24, 31], MixedRuns());
  }

  /** The rendering of the first `k + 1` runs from that of the first `k`. */
  lemma ExtendText(rs: seq<Range>, k: nat, before: string, piece: string, after: string)
    requires 0 < k < |rs|
    requires Render(rs[..k]) == before
    requires FormatRange(rs[k]) == piece
    requires after == before + ", " + piece
    ensures Render(rs[..k + 1]) == after
  {
    TakeSnoc(rs, k);
    RenderStep(rs[..k], rs[k], before, after);
  }

  lemma TakeSnoc<T>(s: seq<T>, k: nat)
    requires k < |s|
    ensures s[..k] + [s[k]] == s[..k + 1]
  {
  }

  lemma FormatPair(start: Int32, end: Int32, low: string, high: string)
    requires start != end && IntToString(start) == low && IntToString(end) == high
    ensures FormatRange(Range(start, end)) == low + "-" + high
  {
  }

  /** Proof steps only: the rendering of the sample runs, built up one run at a time. */
  lemma MixedTextStart()
    ensures Render(MixedRuns()[..3]) == "1, 3, 6-8"
  {
    var rs := MixedRuns();
    assert Render(rs[..1]) == "1";
    ExtendText(rs, 1, "1", "3", "1, 3");
    ExtendText(rs, 2, "1, 3", "6-8", "1, 3, 6-8");
  }

  lemma MixedTextFourth()
    ensures Render(MixedRuns()[..4]) == "1, 3, 6-8, 12-15"
  {
    MixedTextStart();
    assert IntToString(12) == "12" && IntToString(15) == "15";
    FormatPair(12, 15, "12", "15");
    ExtendText(MixedRuns(), 3, "1, 3, 6-8", "12-15", "1, 3, 6-8, 12-15");
  }

  lemma MixedTextFifth()
    ensures Render(MixedRuns()[..5]) == "1, 3, 6-8, 12-15, 21-24"
  {
    MixedTextFourth();
    assert IntToString(21) == "21" && IntToString(24) == "24";
    FormatPair(21, 24, "21", "24");
    ExtendText(MixedRuns(), 4, "1, 3, 6-8, 12-15", "21-24", "1, 3, 6-8, 12-15, 21-24");
  }

  lemma MixedText()
    ensures Render(MixedRuns()) == "1, 3, 6-8, 12-15, 21-24, 31"
  {
    var rs := MixedRuns();
    MixedTextFifth();
    assert IntToString(31) == "31";
    ExtendText(rs, 5, "1, 3, 6-8, 12-15, 21-24", "31", "1, 3, 6-8, 12-15, 21-24, 31");
    assert rs[..6] == rs;
  }

  lemma MixedSummary()
    ensures Summary([1, 3, 6, 7, 8, 12, 13, 14, 15, 21, 22, 23, 24, 31]) == "1, 3, 6-8, 12-15, 21-24, 31"
  {
    MixedRanges();
    MixedText();
  }

  lemma InvalidTokens()
    ensures Tokens("1,2,abc,4") == ["1", "2", "abc", "4"]
  {
    var parts := ["1", "2", "abc", "4"];
    assert JoinWith(parts, ',') == "1,2,abc,4";
    SplitJoin(parts, ',');
    forall k | 0 <= k < |parts|
      ensures parts[k] != [] && Trim(parts[k]) == parts[k]
    {
      TrimPadded("", parts[k], "");
      assert "" + parts[k] + "" == parts[k];
    }
    TrimmedTokensOf(parts, parts);
  }

  lemma InvalidParse()
    ensures ParseAll(["1", "2", "abc", "4"]) == Err(NumberFormatError("abc"))
  {
    var tokens := ["1", "2", "abc", "4"];
    assert ParseInt(tokens[2]) == None;
    ParseIntToString(1);
    ParseIntToString(2);
    assert ParseInt(tokens[0]).Some? && ParseInt(tokens[1]).Some?;
    ParseAllFirstError(tokens, 2);
  }

  lemma InvalidNumber()
    ensures Collect(Some("1,2,abc,4")) == Err(NumberFormatError("abc"))
  {
    TrimEmptyIffBlank("1,2,abc,4");
    assert !IsTrimmable("1,2,abc,4"[0]);
    InvalidTokens();
    InvalidParse();
  }

  /** Proof step only: the fields of the blank-field sample. */
  lemma BlankFieldFields()
    ensures Split("1,,abc,x", ',') == ["1", "", "abc", "x"]
  {
    var parts := ["1", "", "abc", "x"];
    assert JoinWith(parts, ',') == "1,,abc,x";
    SplitJoin(parts, ',');
  }

  /** Proof step only: the tokens of the first two fields. */
  lemma BlankFieldFront()
    ensures TrimmedTokens(["1", ""]) == ["1"]
  {
    TrimPadded("", "1", "");
    assert "" + "1" + "" == "1";
    TrimmedTokensSingle("1");
    TrimmedTokensSingle("");
    TrimmedTokensAppend(["1"], [""]);
    assert ["1"] + [""] == ["1", ""];
  }

  /** Proof step only: the tokens of the last two fields. */
  lemma BlankFieldBack()
    ensures TrimmedTokens(["abc", "x"]) == ["abc", "x"]
  {
    TrimPadded("", "abc", "");
    assert "" + "abc" + "" == "abc";
    TrimPadded("", "x", "");
    assert "" + "x" + "" == "x";
    TrimmedTokensSingle("abc");
    TrimmedTokensSingle("x");
    TrimmedTokensAppend(["abc"], ["x"]);
    assert ["abc"] + ["x"] == ["abc", "x"];
  }

  /** A blank field does not disturb the order of the tokens around it. */
  lemma BlankFieldTokens()
    ensures Tokens("1,,abc,x") == ["1", "abc", "x"]
  {
    assert TrimmedTokens(["1", "", "abc", "x"]) == ["1", "abc", "x"] by {
      BlankFieldFront();
      BlankFieldBack();
      TrimmedTokensAppend(["1", ""], ["abc", "x"]);
      assert ["1", ""] + ["abc", "x"] == ["1", "", "abc", "x"];
    }
    BlankFieldFields();
  }

  /** Proof step only: `abc` is the first token that does not parse. */
  lemma BlankFieldParse()
    ensures ParseAll(["1", "abc", "x"]) == Err(NumberFormatError("abc"))
  {
    var tokens := ["1", "abc", "x"];
    ParseIntToString(1);
    assert ParseInt(tokens[0]).Some? && ParseInt(tokens[1]) == None;
    ParseAllFirstError(tokens, 1);
  }

  /** With a blank field before it, `abc` is still the token reported,
      not the later `x`. */
  lemma BlankFieldFirstError()
    ensures Collect(Some("1,,abc,x")) == Err(NumberFormatError("abc"))
  {
    TrimEmptyIffBlank("1,,abc,x");
    assert !IsTrimmable("1,,abc,x"[0]);
    BlankFieldTokens();
    BlankFieldParse();
  }

  lemma UnorderedFields()
    ensures Split("8,3,6,7,1", ',') == ["8", "3", "6", "7", "1"]
  {
    var parts := ["8", "3", "6", "7", "1"];
    assert JoinWith(parts, ',') == "8,3,6,7,1";
    SplitJoin(parts, ',');
  }

  lemma UnorderedTokens()
    ensures Tokens("8,3,6,7,1") == ["8", "3", "6", "7", "1"]
  {
    UnorderedFields();
    UnorderedTrimmed();
  }

  lemma UnorderedTrimmed()
    ensures TrimmedTokens(["8", "3", "6", "7", "1"]) == ["8", "3", "6", "7", "1"]
  {
    var tokens := ["8", "3", "6", "7", "1"];
    forall k | 0 <= k < |tokens|
      ensures tokens[k] != [] && Trim(tokens[k]) == tokens[k]
    {
      TrimPadded("", tokens[k], "");
      assert "" + tokens[k] + "" == tokens[k];
    }
    TrimmedTokensOf(tokens, tokens);
  }

  lemma UnorderedParse()
    ensures ParseAll(["8", "3", "6", "7", "1"]) == Ok([8, 3, 6, 7, 1])
  {
    var tokens := ["8", "3", "6", "7", "1"];
    var values: seq<Int32> := [8, 3, 6, 7, 1];
    forall k | 0 <= k < |tokens|
      ensures ParseInt(tokens[k]) == Some(values[k])
    {
      ParseIntToString(values[k]);
      assert IntToString(values[k]) == tokens[k];
    }
    ParseAllValues(tokens, values);
  }

  lemma UnorderedNormalize()
    ensures Normalize([8, 3, 6, 7, 1]) == [1, 3, 6, 7, 8]
  {
    var xs: seq<Int32> := [8, 3, 6, 7, 1];
    var sorted: seq<Int32> := [1, 3, 6, 7, 8];
    forall x
      ensures x in sorted <==> x in xs
    {
    }
    NormalizeUnique(xs, sorted);
  }

  lemma UnorderedInput()
    ensures Collect(Some("8,3,6,7,1")) == Ok([1, 3, 6, 7, 8])
  {
    TrimEmptyIffBlank("8,3,6,7,1");
    assert !IsTrimmable("8,3,6,7,1"[0]);
    UnorderedTokens();
    UnorderedParse();
    UnorderedNormalize();
  }

  /** Proof steps only: the comma-join of the duplicates fields, in two halves. */
  lemma DuplicatesJoinFront()
    ensures JoinWith([" 8", " 6", " 7 "], ',') == " 8, 6, 7 "
  {
  }

  lemma DuplicatesJoinBack()
    ensures JoinWith(["8", " 12", "13", " 15"], ',') == "8, 12,13, 15"
  {
  }

  lemma DuplicatesJoin()
    ensures JoinWith([" 8", " 6", " 7 ", "8", " 12", "13", " 15"], ',') == " 8, 6, 7 ,8, 12,13, 15"
  {
    var front, back := [" 8", " 6", " 7 "], ["8", " 12", "13", " 15"];
    DuplicatesJoinFront();
    DuplicatesJoinBack();
    JoinWithAppend(front, back, ',');
    assert front + back == [" 8", " 6", " 7 ", "8", " 12", "13", " 15"];
    assert " 8, 6, 7 " + [','] + "8, 12,13, 15" == " 8, 6, 7 ,8, 12,13, 15";
  }

  lemma DuplicatesFields()
    ensures Split(" 8, 6, 7 ,8, 12,13, 15", ',') == [" 8", " 6", " 7 ", "8", " 12", "13", " 15"]
  {
    DuplicatesJoin();
    SplitJoin([" 8", " 6", " 7 ", "8", " 12", "13", " 15"], ',');
  }

  lemma DuplicatesTrimmed()
    ensures TrimmedTokens([" 8", " 6", " 7 ", "8", " 12", "13", " 15"]) == ["8", "6", "7", "8", "12", "13", "15"]
  {
    var fields := [" 8", " 6", " 7 ", "8", " 12", "13", " 15"];
    var tokens := ["8", "6", "7", "8", "12", "13", "15"];
    var before := [" ", " ", " ", "", " ", "", " "];
    var after := ["", "", " ", "", "", "", ""];
    forall k | 0 <= k < |fields|
      ensures tokens[k] != [] && Trim(fields[k]) == tokens[k]
    {
      TrimPadded(before[k], tokens[k], after[k]);
      assert before[k] + tokens[k] + after[k] == fields[k];
    }
    TrimmedTokensOf(fields, tokens);
  }

  lemma DuplicatesParse()
    ensures ParseAll(["8", "6", "7", "8", "12", "13", "15"]) == Ok([8, 6, 7, 8, 12, 13, 15])
  {
    var tokens := ["8", "6", "7", "8", "12", "13", "15"];
    var values: seq<Int32> := [8, 6, 7, 8, 12, 13, 15];
    forall k | 0 <= k < |tokens|
      ensures ParseInt(tokens[k]) == Some(values[k])
    {
      ParseIntToString(values[k]);
      assert IntToString(values[k]) == tokens[k];
    }
    ParseAllValues(tokens, values);
  }

  lemma DuplicatesNormalize()
    ensures Normalize([8, 6, 7, 8, 12, 13, 15]) == [6, 7, 8, 12, 13, 15]
  {
    var xs: seq<Int32> := [8, 6, 7, 8, 12, 13, 15];
    var sorted: seq<Int32> := [6, 7, 8, 12, 13, 15];
    forall x
      ensures x in sorted <==> x in xs
    {
    }
    NormalizeUnique(xs, sorted);
  }

  lemma DuplicatesInput()
    ensures Collect(Some(" 8, 6, 7 ,8, 12,13, 15")) == Ok([6, 7, 8, 12, 13, 15])
  {
    TrimEmptyIffBlank(" 8, 6, 7 ,8, 12,13, 15");
    assert !IsTrimmable(" 8, 6, 7 ,8, 12,13, 15"[1]);
    DuplicatesFields();
    DuplicatesTrimmed();
    DuplicatesParse();
    DuplicatesNormalize();
  }

  lemma NullInput()
    ensures Collect(None) == Ok([])
  {
  }

  lemma BlankInput()
    ensures Collect(Some("")) == Ok([])
  {
    CollectBlank("");
  }

  lemma WhitespaceOnly()
    ensures Collect(Some("  ,  ,  ")) == Ok([])
  {
    var s := "  ,  ,  ";
    forall i | 0 <= i < |s|
      ensures s[i] == ',' || IsTrimmable(s[i])
    {
    }
    OnlySeparatorsGiveEmpty(s);
  }

  lemma EmptySummary()
    ensures Summary([]) == ""
  {
  }

  /** The sample of the end-to-end test: the tokens of
      "1,3,6,7,8,12,13,14,15,21,22,23,24,31" and their values. */
  function SampleTokens(): seq<string> {
    ["1", "3", "6", "7", "8", "12", "13", "14", "15", "21", "22", "23", "24", "31"]
  }

  function SampleValues(): seq<Int32> {
    [1, 3, 6, 7, 8, 12, 13, 14, 15, 21, 22, 23, 24, 31]
  }

  /** Proof steps only: the comma-join of the sample tokens, in two halves. */
  lemma SampleJoinFront()
    ensures JoinWith(SampleTokens()[..7], ',') == "1,3,6,7,8,12,13"
  {
    assert SampleTokens()[..7] == ["1", "3", "6", "7", "8", "12", "13"];
  }

  lemma SampleJoinBack()
    ensures JoinWith(SampleTokens()[7..], ',') == "14,15,21,22,23,24,31"
  {
    assert SampleTokens()[7..] == ["14", "15", "21", "22", "23", "24", "31"];
  }

  lemma SampleText()
    ensures "1,3,6,7,8,12,13" + [','] + "14,15,21,22,23,24,31" == "1,3,6,7,8,12,13,14,15,21,22,23,24,31"
  {
  }

  lemma SampleJoin()
    ensures JoinWith(SampleTokens(), ',') == "1,3,6,7,8,12,13,14,15,21,22,23,24,31"
  {
    var tokens := SampleTokens();
    SampleJoinFront();
    SampleJoinBack();
    JoinWithAppend(tokens[..7], tokens[7..], ',');
    assert tokens[..7] + tokens[7..] == tokens;
    SampleText();
  }

  lemma SampleTokensAvoidComma()
    ensures forall k | 0 <= k < |SampleTokens()| :: ',' !in SampleTokens()[k]
  {
    var tokens := SampleTokens();
    forall k | 0 <= k < |tokens|
      ensures ',' !in tokens[k]
    {
    }
  }

  lemma SampleFields()
    ensures Split("1,3,6,7,8,12,13,14,15,21,22,23,24,31", ',') == SampleTokens()
  {
    SampleTokensAvoidComma();
    SampleJoin();
    SplitJoin(SampleTokens(), ',');
  }

  lemma SampleTrimmed()
    ensures TrimmedTokens(SampleTokens()) == SampleTokens()
  {
    var tokens := SampleTokens();
    forall k | 0 <= k < |tokens|
      ensures tokens[k] != [] && Trim(tokens[k]) == tokens[k]
    {
      TrimPadded("", tokens[k], "");
      assert "" + tokens[k] + "" == tokens[k];
    }
    TrimmedTokensOf(tokens, tokens);
  }

  /** Proof steps only: each sample token parses to its value, in three slices. */
  lemma SampleParsesFront()
    ensures forall k | 0 <= k < 7 :: ParseInt(SampleTokens()[k]) == Some(SampleValues()[k])
  {
    var tokens, values := SampleTokens(), SampleValues();
    forall k | 0 <= k < 7
      ensures ParseInt(tokens[k]) == Some(values[k])
    {
      ParseIntToString(values[k]);
      assert IntToString(values[k]) == tokens[k];
    }
  }

  lemma SampleParsesMiddle()
    ensures forall k | 7 <= k < 10 :: ParseInt(SampleTokens()[k]) == Some(SampleValues()[k])
  {
    var tokens, values := SampleTokens(), SampleValues();
    forall k | 7 <= k < 10
      ensures ParseInt(tokens[k]) == Some(values[k])
    {
      ParseIntToString(values[k]);
      assert IntToString(values[k]) == tokens[k];
    }
  }

  lemma SampleParsesBack()
    ensures forall k | 10 <= k < 14 :: ParseInt(SampleTokens()[k]) == Some(SampleValues()[k])
  {
    var tokens, values := SampleTokens(), SampleValues();
    forall k | 10 <= k < 14
      ensures ParseInt(tokens[k]) == Some(values[k])
    {
      ParseIntToString(values[k]);
      assert IntToString(values[k]) == tokens[k];
    }
  }

  lemma SampleParse()
    ensures ParseAll(SampleTokens()) == Ok(SampleValues())
  {
    SampleParsesFront();
    SampleParsesMiddle();
    SampleParsesBack();
    ParseAllValues(SampleTokens(), SampleValues());
  }

  lemma SampleNormalize()
    ensures Normalize(SampleValues()) == SampleValues()
  {
    var values := SampleValues();
    assert StrictlyAscending(values);
    NormalizeUnique(values, values);
  }

  lemma SampleInput()
    ensures Collect(Some("1,3,6,7,8,12,13,14,15,21,22,23,24,31")) == Ok(SampleValues())
  {
    var input := "1,3,6,7,8,12,13,14,15,21,22,23,24,31";
    TrimEmptyIffBlank(input);
    assert !IsTrimmable(input[0]);
    SampleFields();
    SampleTrimmed();
    SampleParse();
    SampleNormalize();
  }

  /** `summarizeCollection(collect(sample))`. */
  lemma EndToEnd()
    ensures Collect(Some("1,3,6,7,8,12,13,14,15,21,22,23,24,31")).Ok?
    ensures Summary(Collect(Some("1,3,6,7,8,12,13,14,15,21,22,23,24,31")).value) == "1, 3, 6-8, 12-15, 21-24, 31"
  {
    SampleInput();
    MixedSummary();
  }

  /** Proof step only: the digits of 2^31, read one character at a time. */
  lemma OnePastMaxValue()
    ensures AllDigits("2147483648") && DigitsValue("2147483648") == 2147483648
  {
    var t0: string := [];
    assert AllDigits(t0) && DigitsValue(t0) == 0;
    DigitsSnoc(t0, '2');
    var t1 := t0 + ['2'];
    assert DigitsValue(t1) == 2;
    DigitsSnoc(t1, '1');
    var t2 := t1 + ['1'];
    assert DigitsValue(t2) == 21;
    DigitsSnoc(t2, '4');
    var t3 := t2 + ['4'];
    assert DigitsValue(t3) == 214;
    DigitsSnoc(t3, '7');
    var t4 := t3 + ['7'];
    assert DigitsValue(t4) == 2147;
    DigitsSnoc(t4, '4');
    var t5 := t4 + ['4'];
    assert DigitsValue(t5) == 21474;
    DigitsSnoc(t5, '8');
    var t6 := t5 + ['8'];
    assert DigitsValue(t6) == 214748;
    DigitsSnoc(t6, '3');
    var t7 := t6 + ['3'];
    assert DigitsValue(t7) == 2147483;
    DigitsSnoc(t7, '6');
    var t8 := t7 + ['6'];
    assert DigitsValue(t8) == 21474836;
    DigitsSnoc(t8, '4');
    var t9 := t8 + ['4'];
    assert DigitsValue(t9) == 214748364;
    DigitsSnoc(t9, '8');
    var t10 := t9 + ['8'];
    assert DigitsValue(t10) == 2147483648;
    assert t10 == "2147483648";
  }

  /** One past `Integer.MAX_VALUE` is not an `int` literal, with or
      without a sign, and neither is a lone sign. */
  lemma OutOfRangeRejected()
    ensures ParseInt("2147483648") == None
    ensures ParseInt("+2147483648") == None
    ensures ParseInt("-") == None
  {
    OnePastMaxValue();
    ParseIntValue("", "2147483648");
    ParseIntValue("+", "2147483648");
  }

  /** A leading `+` and leading zeros are accepted, and `-0` is zero. */
  lemma NonCanonicalAccepted()
    ensures ParseInt("+7") == Some(7)
    ensures ParseInt("007") == Some(7)
    ensures ParseInt("-0") == Some(0)
  {
    ParseIntValue("+", "7");
    ParseIntValue("", "007");
    ParseIntValue("-", "0");
  }
}
