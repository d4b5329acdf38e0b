/** Reading a summary back: the text `summarizeCollection` writes loses
    nothing, since cutting it at the commas, trimming each piece and
    parsing `n` or `start-end` gives back the runs it was written from. */
module SummaryText {
  import opened Results
  import opened JavaInt
  import opened Decimal
  import opened JavaText
  import opened Ordering
  import opened Summarizing
  import opened Runs

  /** The first `-` at or after index `i`, or `|t|` when there is none. */
  function FindDash(t: string, i: nat): (k: nat)
    requires i <= |t|
    ensures i <= k <= |t|
    decreases |t| - i
  {
    if i == |t| || t[i] == '-' then i else FindDash(t, i + 1)
  }

  /** The run a piece of summary text names: a number alone, or two
      numbers joined by the first `-` that is not a leading sign (so
      "-5--3" is the run from -5 to -3). */
  function ParseRange(t: string): Option<Range> {
    if t == [] then None
    else
      var k := FindDash(t, 1);
      if k == |t| then
        (match ParseInt(t)
         case Some(n) => Some(Range(n, n))
         case None => None)
      else
        (match (ParseInt(t[..k]), ParseInt(t[k + 1..]))
         case (Some(a), Some(b)) => Some(Range(a, b))
         case _ => None)
  }

  /** The runs named by the comma-separated pieces, each trimmed; `None`
      when some piece names no run. */
  function ParseFields(fields: seq<string>): Option<seq<Range>>
    decreases |fields|
  {
    if fields == [] then Some([])
    else
      match (ParseFields(fields[..|fields| - 1]), ParseRange(Trim(fields[|fields| - 1])))
      case (Some(rs), Some(rg)) => Some(rs + [rg])
      case _ => None
  }

  /** The runs a summary text names; the empty text names none. */
  function ParseSummary(text: string): Option<seq<Range>> {
    if text == [] then Some([]) else ParseFields(Split(text, ','))
  }

  /** The pieces between the commas of `Render(rs)`: the first run's text,
      then each later run's text after the space of its separator. */
  function Pieces(rs: seq<Range>): seq<string>
    requires rs != []
    decreases |rs|
  {
    if |rs| == 1 then [FormatRange(rs[0])]
    else Pieces(rs[..|rs| - 1]) + [" " + FormatRange(rs[|rs| - 1])]
  }

  lemma {:induction false} FindDashPast(t: string, i: nat)
    requires i <= |t|
    requires forall j | i <= j < |t| :: t[j] != '-'
    ensures FindDash(t, i) == |t|
    decreases |t| - i
  {
    if i < |t| {
      FindDashPast(t, i + 1);
    }
  }

  lemma {:induction false} FindDashAt(t: string, i: nat, k: nat)
    requires i <= k < |t| && t[k] == '-'
    requires forall j | i <= j < k :: t[j] != '-'
    ensures FindDash(t, i) == k
    decreases k - i
  {
    if i < k {
      FindDashAt(t, i + 1, k);
    }
  }

  /** Every character of a run's text is a digit or `-`. */
  lemma FormatRangeChars(rg: Range)
    ensures forall c | c in FormatRange(rg) :: c == '-' || IsDigit(c)
  {
    IntToStringShape(rg.start);
    IntToStringShape(rg.end);
    var a := IntToString(rg.start);
    assert forall c | c in a :: c == '-' || IsDigit(c) by {
      forall c | c in a ensures c == '-' || IsDigit(c) {
        var j :| 0 <= j < |a| && a[j] == c;
      }
    }
    var b := IntToString(rg.end);
    assert forall c | c in b :: c == '-' || IsDigit(c) by {
      forall c | c in b ensures c == '-' || IsDigit(c) {
        var j :| 0 <= j < |b| && b[j] == c;
      }
    }
  }

  /** A number's text alone names the one-value run. */
  lemma ParseSingle(n: Int32)
    ensures ParseRange(IntToString(n)) == Some(Range(n, n))
  {
    IntToStringShape(n);
    ParseIntToString(n);
    FindDashPast(IntToString(n), 1);
  }

  /** In a number's text followed by `-`, that `-` is the first one
      after the leading sign. */
  lemma JoiningDash(a: Int32, y: string)
    ensures FindDash(IntToString(a) + "-" + y, 1) == |IntToString(a)|
  {
    var x := IntToString(a);
    var t := x + "-" + y;
    IntToStringShape(a);
    assert forall j | 1 <= j < |x| :: t[j] == x[j];
    FindDashAt(t, 1, |x|);
  }

  lemma AroundDash(x: string, y: string)
    ensures (x + "-" + y)[..|x|] == x
    ensures (x + "-" + y)[|x| + 1..] == y
  {
  }

  /** Two numbers' texts joined by `-` name the run between them. */
  lemma ParsePair(a: Int32, b: Int32)
    ensures ParseRange(IntToString(a) + "-" + IntToString(b)) == Some(Range(a, b))
  {
    var x, y := IntToString(a), IntToString(b);
    JoiningDash(a, y);
    AroundDash(x, y);
    ParseIntToString(a);
    ParseIntToString(b);
  }

  /** `ParseRange` undoes `FormatRange`. */
  lemma ParseFormatRange(rg: Range)
    ensures ParseRange(FormatRange(rg)) == Some(rg)
  {
    if rg.start == rg.end {
      ParseSingle(rg.start);
    } else {
      ParsePair(rg.start, rg.end);
    }
  }

  /** Trimming a run's text, with or without the space before it, gives
      the text itself: it starts and ends with a digit or `-`. */
  lemma TrimFormatRange(rg: Range, t: string)
    requires t == FormatRange(rg) || t == " " + FormatRange(rg)
    ensures Trim(t) == FormatRange(rg)
  {
    var f := FormatRange(rg);
    FormatRangeChars(rg);
    assert f[0] in f && f[|f| - 1] in f;
    var st := if t == f then 0 else 1;
    assert t[st..] == f;
    assert !IsTrimmable(t[st]);
    assert SkipForward(t, st) == st;
    assert TrimStart(t) == st;
    assert !IsTrimmable(t[|t| - 1]);
    assert TrimEnd(t) == |t|;
  }

  /** The pieces hold no comma, and joined with commas they are the
      rendered text. */
  lemma {:induction false} PiecesJoin(rs: seq<Range>)
    requires rs != []
    ensures forall k | 0 <= k < |Pieces(rs)| :: ',' !in Pieces(rs)[k]
    ensures JoinWith(Pieces(rs), ',') == Render(rs)
    decreases |rs|
  {
    FormatRangeChars(rs[|rs| - 1]);
    if |rs| > 1 {
      var init := rs[..|rs| - 1];
      var last := " " + FormatRange(rs[|rs| - 1]);
      PiecesJoin(init);
      JoinWithSnoc(Pieces(init), last, ',');
      assert Render(init) + [','] + last == Render(init) + ", " + FormatRange(rs[|rs| - 1]);
    }
  }

  /** One more field that names a run adds that run. */
  lemma ParseFieldsSnoc(fields: seq<string>, field: string, rs: seq<Range>, rg: Range)
    requires ParseFields(fields) == Some(rs)
    requires ParseRange(Trim(field)) == Some(rg)
    ensures ParseFields(fields + [field]) == Some(rs + [rg])
  {
    assert (fields + [field])[..|fields|] == fields;
  }

  lemma SplitLast<T>(s: seq<T>)
    requires s != []
    ensures s[..|s| - 1] + [s[|s| - 1]] == s
  {
  }

  /** A piece that renders a run, with or without its leading space,
      reads back as that run. */
  lemma PieceParses(rg: Range, piece: string)
    requires piece == FormatRange(rg) || piece == " " + FormatRange(rg)
    ensures ParseRange(Trim(piece)) == Some(rg)
  {
    TrimFormatRange(rg, piece);
    ParseFormatRange(rg);
  }

  lemma {:induction false} ParsePieces(rs: seq<Range>)
    requires rs != []
    ensures ParseFields(Pieces(rs)) == Some(rs)
    decreases |rs|
  {
    if |rs| == 1 {
      var piece := FormatRange(rs[0]);
      PieceParses(rs[0], piece);
      ParseFieldsSnoc([], piece, [], rs[0]);
      assert [] + [piece] == Pieces(rs);
      SplitLast(rs);
    } else {
      var init, last := rs[..|rs| - 1], rs[|rs| - 1];
      var piece := " " + FormatRange(last);
      PieceParses(last, piece);
      ParsePieces(init);
      ParseFieldsSnoc(Pieces(init), piece, init, last);
      assert Pieces(init) + [piece] == Pieces(rs);
      SplitLast(rs);
    }
  }

  /** Reading the summary back gives the runs it was written from, so
      different runs never share a summary text. */
  lemma ParseRender(rs: seq<Range>)
    ensures ParseSummary(Render(rs)) == Some(rs)
  {
    if rs != [] {
      PiecesJoin(rs);
      SplitJoin(Pieces(rs), ',');
      ParsePieces(rs);
    }
  }

  /** On strictly ascending input the summary text names the maximal runs
      of the input: expanding each piece (`a` to `[a]`, `a-b` to
      `[a, a+1, ..., b]`) and concatenating gives back the input. */
  lemma SummaryNamesMaximalRuns(s: seq<Int32>)
    requires StrictlyAscending(s)
    ensures ParseSummary(Summary(s)) == Some(Ranges(s))
    ensures IsMaximalRunCover(s, Ranges(s))
    ensures Flatten(ParseSummary(Summary(s)).value) == s
  {
    ParseRender(Ranges(s));
    RangesAreMaximalRuns(s);
  }
}
