/** `collect`: a comma-delimited string to the sorted list of the distinct
    integers it names. The Java stream pipeline split / trim / drop empty /
    parseInt / distinct / sorted is modelled by its result. */
module Collecting {
  import opened Results
  import opened JavaInt
  import opened Decimal
  import opened JavaText
  import opened Ordering

  /** `NumberFormatException`, carrying the token `parseInt` rejected. */
  datatype NumberFormatError = NumberFormatError(token: string)

  /** The fields trimmed, with the ones that trim to nothing dropped,
      in their original order. */
  function TrimmedTokens(fields: seq<string>): (r: seq<string>)
    ensures |r| <= |fields|
    ensures forall k | 0 <= k < |r| :: r[k] != []
    decreases |fields|
  {
    if fields == [] then []
    else
      var t := Trim(fields[0]);
      var rest := TrimmedTokens(fields[1..]);
      if t == [] then rest else [t] + rest
  }

  /** `t` is what one of the fields trims to. */
  predicate IsTrimOf(fields: seq<string>, t: string) {
    exists j | 0 <= j < |fields| :: Trim(fields[j]) == t
  }

  /** A string is a token exactly when it is the non-empty trim of some
      field: nothing but empty trimmed fields is dropped. */
  lemma {:induction false} TrimmedTokensMembers(fields: seq<string>)
    ensures forall t :: t in TrimmedTokens(fields) <==> t != [] && IsTrimOf(fields, t)
    decreases |fields|
  {
    if fields != [] {
      TrimmedTokensMembers(fields[1..]);
      forall t
        ensures IsTrimOf(fields, t) <==> Trim(fields[0]) == t || IsTrimOf(fields[1..], t)
      {
        if IsTrimOf(fields, t) {
          var j :| 0 <= j < |fields| && Trim(fields[j]) == t;
          if j > 0 {
            assert fields[1..][j - 1] == fields[j];
          }
        }
        if IsTrimOf(fields[1..], t) {
          var j :| 0 <= j < |fields[1..]| && Trim(fields[1..][j]) == t;
          assert fields[j + 1] == fields[1..][j];
        }
      }
    }
  }

  /** The tokens `collect` hands to `parseInt`, in input order: each is
      non-empty and holds no comma. */
  function Tokens(input: string): (r: seq<string>)
    ensures forall k | 0 <= k < |r| :: r[k] != [] && ',' !in r[k]
  {
    var fields := Split(input, ',');
    TokensAvoid(fields, ',');
    TrimmedTokens(fields)
  }

  lemma {:induction false} TokensAvoid(fields: seq<string>, c: char)
    requires forall j | 0 <= j < |fields| :: c !in fields[j]
    ensures forall k | 0 <= k < |TrimmedTokens(fields)| :: c !in TrimmedTokens(fields)[k]
    decreases |fields|
  {
    if fields != [] {
      TokensAvoid(fields[1..], c);
      TrimKeepsOut(fields[0], c);
    }
  }

  /** Every token is a valid `int` literal. */
  predicate AllParse(tokens: seq<string>) {
    forall k | 0 <= k < |tokens| :: ParseInt(tokens[k]).Some?
  }

  /** `x` is the value `parseInt` gives for some token. */
  predicate IsTokenValue(tokens: seq<string>, x: int) {
    exists k | 0 <= k < |tokens| :: ParseInt(tokens[k]).Some? && ParseInt(tokens[k]).value == x
  }

  /** `k` is the position of the first token `parseInt` rejects. */
  predicate IsFirstMalformed(tokens: seq<string>, k: int) {
    && 0 <= k < |tokens|
    && ParseInt(tokens[k]).None?
    && forall j | 0 <= j < k :: ParseInt(tokens[j]).Some?
  }

  /** `map(Integer::parseInt)`: every token parsed in order; the first
      malformed one aborts the whole pipeline. */
  function ParseAll(tokens: seq<string>): (r: Result<seq<Int32>, NumberFormatError>)
    ensures r.Ok? <==> AllParse(tokens)
    ensures r.Ok? ==> |r.value| == |tokens|
    ensures r.Ok? ==> forall k | 0 <= k < |tokens| :: ParseInt(tokens[k]) == Some(r.value[k])
    ensures r.Err? ==> exists k :: IsFirstMalformed(tokens, k) && r.error.token == tokens[k]
    decreases |tokens|
  {
    if tokens == [] then Ok([])
    else
      match ParseInt(tokens[0])
      case None => assert IsFirstMalformed(tokens, 0); Err(NumberFormatError(tokens[0]))
      case Some(v) =>
        var rest := ParseAll(tokens[1..]);
        if rest.Err? then
          var k :| IsFirstMalformed(tokens[1..], k) && rest.error.token == tokens[1..][k];
          assert IsFirstMalformed(tokens, k + 1);
          Err(rest.error)
        else
          ParsedCons(tokens, v, rest.value);
          Ok([v] + rest.value)
  }

  lemma ParsedCons(tokens: seq<string>, v: Int32, rest: seq<Int32>)
    requires tokens != [] && ParseInt(tokens[0]) == Some(v) && |rest| == |tokens| - 1
    requires forall k | 0 <= k < |rest| :: ParseInt(tokens[1..][k]) == Some(rest[k])
    ensures forall k | 0 <= k < |tokens| :: ParseInt(tokens[k]) == Some(([v] + rest)[k])
  {
    forall k | 1 <= k < |tokens|
      ensures ParseInt(tokens[k]) == Some(([v] + rest)[k])
    {
      assert tokens[k] == tokens[1..][k - 1];
    }
  }

  /** When every token parses, `ParseAll` gives exactly their values. */
  lemma ParseAllValues(tokens: seq<string>, values: seq<Int32>)
    requires |values| == |tokens|
    requires forall k | 0 <= k < |tokens| :: ParseInt(tokens[k]) == Some(values[k])
    ensures ParseAll(tokens) == Ok(values)
  {
    assert AllParse(tokens);
    var r := ParseAll(tokens);
    assert r.Ok? && |r.value| == |values|;
    forall k | 0 <= k < |tokens|
      ensures r.value[k] == values[k]
    {
      assert ParseInt(tokens[k]) == Some(r.value[k]);
    }
    assert r.value == values;
  }

  /** The error names the first token that is not an `int` literal, the
      one at which the sequential stream stops. */
  lemma ParseAllFirstError(tokens: seq<string>, k: nat)
    requires IsFirstMalformed(tokens, k)
    ensures ParseAll(tokens) == Err(NumberFormatError(tokens[k]))
  {
    var r := ParseAll(tokens);
    assert !AllParse(tokens);
    var j :| IsFirstMalformed(tokens, j) && r.error.token == tokens[j];
    assert j == k;
  }

  /** When no field trims to nothing, the tokens are the fields trimmed,
      one for one. */
  lemma {:induction false} TrimmedTokensOf(fields: seq<string>, tokens: seq<string>)
    requires |tokens| == |fields|
    requires forall k | 0 <= k < |fields| :: tokens[k] != [] && Trim(fields[k]) == tokens[k]
    ensures TrimmedTokens(fields) == tokens
    decreases |fields|
  {
    if fields != [] {
      TrimmedTokensOf(fields[1..], tokens[1..]);
      assert tokens == [tokens[0]] + tokens[1..];
    }
  }

  /** Trimming and filtering works field by field in encounter order: the
      tokens of two runs of fields are the tokens of the first followed by
      those of the second. */
  lemma {:induction false} TrimmedTokensAppend(a: seq<string>, b: seq<string>)
    ensures TrimmedTokens(a + b) == TrimmedTokens(a) + TrimmedTokens(b)
    decreases |a|
  {
    if a != [] {
      assert (a + b)[1..] == a[1..] + b;
      assert (a + b)[0] == a[0];
      TrimmedTokensAppend(a[1..], b);
    } else {
      assert a + b == b;
    }
  }

  /** A single field yields its trim as a token, or nothing when it is blank. */
  lemma TrimmedTokensSingle(f: string)
    ensures TrimmedTokens([f]) == if Trim(f) == [] then [] else [Trim(f)]
  {
    assert [f][1..] == [];
  }

  /** Adds `x` to a strictly ascending sequence, keeping it strictly
      ascending and without duplicates. */
  function Insert(x: Int32, s: seq<Int32>): (r: seq<Int32>)
    requires StrictlyAscending(s)
    ensures StrictlyAscending(r)
    ensures forall y :: y in r <==> y == x || y in s
    ensures |r| <= |s| + 1
    decreases |s|
  {
    if s == [] then [x]
    else if x < s[0] then [x] + s
    else if x == s[0] then s
    else
      var rest := Insert(x, s[1..]);
      assert forall y | y in s[1..] :: s[0] < y;
      ConsAscending(s[0], rest);
      [s[0]] + rest
  }

  lemma ConsAscending(a: int, t: seq<int>)
    requires StrictlyAscending(t)
    requires forall y | y in t :: a < y
    ensures StrictlyAscending([a] + t)
  {
    var r := [a] + t;
    forall i, j | 0 <= i < j < |r|
      ensures r[i] < r[j]
    {
      assert r[j] == t[j - 1] && t[j - 1] in t;
      if i > 0 {
        assert r[i] == t[i - 1];
      }
    }
  }

  /** `distinct().sorted()`: the distinct values of `xs`, ascending. */
  function Normalize(xs: seq<Int32>): (r: seq<Int32>)
    ensures StrictlyAscending(r)
    ensures forall y :: y in r <==> y in xs
    ensures |r| <= |xs|
    decreases |xs|
  {
    if xs == [] then []
    else
      var r := Insert(xs[0], Normalize(xs[1..]));
      assert xs == [xs[0]] + xs[1..];
      r
  }

  /** `distinct().sorted()` gives the one strictly ascending list that holds
      exactly the values of `xs`. */
  lemma NormalizeUnique(xs: seq<Int32>, sorted: seq<Int32>)
    requires StrictlyAscending(sorted)
    requires forall x :: x in sorted <==> x in xs
    ensures Normalize(xs) == sorted
  {
    AscendingUnique(Normalize(xs), sorted);
  }

  /** The values `parseInt` gives for `tokens`, when all of them parse. */
  lemma ParsedValues(tokens: seq<string>)
    requires ParseAll(tokens).Ok?
    ensures forall x :: x in ParseAll(tokens).value <==> IsTokenValue(tokens, x)
  {
    var values := ParseAll(tokens).value;
    forall x | x in values
      ensures IsTokenValue(tokens, x)
    {
      var k :| 0 <= k < |values| && values[k] == x;
      assert ParseInt(tokens[k]) == Some(x);
    }
  }

  /** `collect(input)`, with `null` as `None` and the exception as `Err`.
      Blank input short-cuts to the empty list; otherwise the tokens are
      parsed, then deduplicated and sorted. */
  function Collect(input: Option<string>): (r: Result<seq<Int32>, NumberFormatError>)
    ensures input.None? ==> r == Ok([])
    ensures r.Ok? ==> StrictlyAscending(r.value)
  {
    if input.None? || Trim(input.value) == [] then Ok([])
    else
      var parsed := ParseAll(Tokens(input.value));
      if parsed.Err? then Err(parsed.error) else Ok(Normalize(parsed.value))
  }

  /** Blank input gives the empty list. */
  lemma CollectBlank(s: string)
    requires IsBlank(s)
    ensures Collect(Some(s)) == Ok([])
  {
    TrimEmptyIffBlank(s);
  }

  /** `collect` succeeds exactly when every token is an `int` literal: the
      blank-input short cut agrees with the pipeline, which would find no
      token there. */
  lemma CollectSucceedsIff(s: string)
    ensures Collect(Some(s)).Ok? <==> AllParse(Tokens(s))
  {
    if Trim(s) == [] {
      TrimEmptyIffBlank(s);
      BlankHasNoTokens(s);
    }
  }

  /** On success an integer is in the list exactly when some token denotes
      it: nothing is added and nothing but duplicates is lost. */
  lemma CollectValues(s: string)
    requires Collect(Some(s)).Ok?
    ensures forall x :: x in Collect(Some(s)).value <==> IsTokenValue(Tokens(s), x)
  {
    if Trim(s) == [] {
      TrimEmptyIffBlank(s);
      BlankHasNoTokens(s);
    } else {
      ParsedValues(Tokens(s));
    }
  }

  /** `collect` fails exactly when some token is not an `int` literal, and
      then the error names the first such token. */
  lemma CollectFirstError(s: string, k: nat)
    requires IsFirstMalformed(Tokens(s), k)
    ensures Collect(Some(s)) == Err(NumberFormatError(Tokens(s)[k]))
  {
    if Trim(s) == [] {
      TrimEmptyIffBlank(s);
      BlankHasNoTokens(s);
    }
    ParseAllFirstError(Tokens(s), k);
  }

  /** Splitting a string made only of commas and trimmable characters
      yields only fields that trim to nothing. */
  lemma {:induction false} SplitOfSeparators(s: string)
    requires forall i | 0 <= i < |s| :: s[i] == ',' || IsTrimmable(s[i])
    ensures forall k | 0 <= k < |Split(s, ',')| :: IsBlank(Split(s, ',')[k])
    decreases |s|
  {
    if s != [] {
      SplitOfSeparators(s[1..]);
    }
  }

  lemma {:induction false} BlankFieldsHaveNoTokens(fields: seq<string>)
    requires forall k | 0 <= k < |fields| :: IsBlank(fields[k])
    ensures TrimmedTokens(fields) == []
    decreases |fields|
  {
    if fields != [] {
      TrimEmptyIffBlank(fields[0]);
      BlankFieldsHaveNoTokens(fields[1..]);
    }
  }

  /** A string of commas and white space has no tokens at all. */
  lemma SeparatorsHaveNoTokens(s: string)
    requires forall i | 0 <= i < |s| :: s[i] == ',' || IsTrimmable(s[i])
    ensures Tokens(s) == []
  {
    SplitOfSeparators(s);
    BlankFieldsHaveNoTokens(Split(s, ','));
  }

  lemma BlankHasNoTokens(s: string)
    requires IsBlank(s)
    ensures Tokens(s) == []
  {
    SeparatorsHaveNoTokens(s);
  }

  /** Input made only of commas and white space, such as "  ,  ,  ", gives
      the empty list and not an error, although it is not blank. */
  lemma OnlySeparatorsGiveEmpty(s: string)
    requires forall i | 0 <= i < |s| :: s[i] == ',' || IsTrimmable(s[i])
    ensures Collect(Some(s)) == Ok([])
  {
    SeparatorsHaveNoTokens(s);
  }

  /** On success the list is THE strictly ascending list of the parsed token
      values: no other list is both sorted without duplicates and holds
      exactly those values. */
  lemma CollectDeterminedByValues(input: string, other: seq<int>)
    requires Collect(Some(input)).Ok?
    requires StrictlyAscending(other)
    requires forall x :: x in other <==> IsTokenValue(Tokens(input), x)
    ensures Collect(Some(input)).value == other
  {
    CollectValues(input);
    AscendingUnique(Collect(Some(input)).value, other);
  }
}
