/** The two `String` operations `collect` applies to its input:
    `trim()` and `split(",")`. */
module JavaText {

  /** `trim()` strips every character at or below U+0020 (space and the
      ASCII control characters), not only Unicode white space. */
  predicate IsTrimmable(c: char) {
    c <= ' '
  }

  predicate IsBlank(s: string) {
    forall i | 0 <= i < |s| :: IsTrimmable(s[i])
  }

  /** The first index at or after `i` whose character is kept by `trim()`,
      or `|s|`: the scan that advances `st` in `String.trim()`. */
  function SkipForward(s: string, i: nat): (j: nat)
    requires i <= |s|
    ensures i <= j <= |s|
    decreases |s| - i
  {
    if i < |s| && IsTrimmable(s[i]) then SkipForward(s, i + 1) else i
  }

  /** The scan that lowers `len` in `String.trim()`: from `j` down to no
      less than `low`, past trimmable characters. */
  function SkipBackward(s: string, j: nat, low: nat): (k: nat)
    requires low <= j <= |s|
    ensures low <= k <= j
    decreases j
  {
    if j > low && IsTrimmable(s[j - 1]) then SkipBackward(s, j - 1, low) else j
  }

  /** Where the trimmed text starts. */
  function TrimStart(s: string): nat {
    SkipForward(s, 0)
  }

  /** Where the trimmed text ends. */
  function TrimEnd(s: string): (e: nat)
    ensures TrimStart(s) <= e <= |s|
  {
    SkipBackward(s, |s|, TrimStart(s))
  }

  /** `String.trim()`. */
  function Trim(s: string): string {
    s[TrimStart(s)..TrimEnd(s)]
  }

  lemma {:induction false} SkipForwardShape(s: string, i: nat)
    requires i <= |s|
    ensures forall k | i <= k < SkipForward(s, i) :: IsTrimmable(s[k])
    ensures SkipForward(s, i) < |s| ==> !IsTrimmable(s[SkipForward(s, i)])
    decreases |s| - i
  {
    if i < |s| && IsTrimmable(s[i]) {
      SkipForwardShape(s, i + 1);
    }
  }

  lemma {:induction false} SkipBackwardShape(s: string, j: nat, low: nat)
    requires low <= j <= |s|
    ensures forall k | SkipBackward(s, j, low) <= k < j :: IsTrimmable(s[k])
    ensures SkipBackward(s, j, low) > low ==> !IsTrimmable(s[SkipBackward(s, j, low) - 1])
    decreases j
  {
    if j > low && IsTrimmable(s[j - 1]) {
      SkipBackwardShape(s, j - 1, low);
    }
  }

  /** What `trim()` removes is blank, and what it keeps neither starts nor
      ends with a trimmable character: the trimmed text is the longest
      infix of `s` between a blank prefix and a blank suffix. */
  lemma TrimShape(s: string)
    ensures forall k | 0 <= k < TrimStart(s) :: IsTrimmable(s[k])
    ensures forall k | TrimEnd(s) <= k < |s| :: IsTrimmable(s[k])
    ensures Trim(s) != [] ==> !IsTrimmable(Trim(s)[0]) && !IsTrimmable(Trim(s)[|Trim(s)| - 1])
    ensures TrimStart(s) < |s| ==> TrimStart(s) < TrimEnd(s)
  {
    SkipForwardShape(s, 0);
    SkipBackwardShape(s, |s|, TrimStart(s));
  }

  lemma {:induction false} SkipForwardTo(s: string, i: nat, j: nat)
    requires i <= j <= |s|
    requires forall k | i <= k < j :: IsTrimmable(s[k])
    requires j < |s| ==> !IsTrimmable(s[j])
    ensures SkipForward(s, i) == j
    decreases j - i
  {
    if i < j {
      SkipForwardTo(s, i + 1, j);
    }
  }

  lemma {:induction false} SkipBackwardTo(s: string, j: nat, low: nat, k: nat)
    requires low <= k <= j <= |s|
    requires forall m | k <= m < j :: IsTrimmable(s[m])
    requires k > low ==> !IsTrimmable(s[k - 1])
    ensures SkipBackward(s, j, low) == k
    decreases j - k
  {
    if k < j {
      SkipBackwardTo(s, j - 1, low, k);
    }
  }

  /** `trim()` removes blank padding on both sides and nothing more from
      text that neither starts nor ends with a trimmable character. */
  lemma TrimPadded(before: string, t: string, after: string)
    requires IsBlank(before) && IsBlank(after)
    requires t != [] && !IsTrimmable(t[0]) && !IsTrimmable(t[|t| - 1])
    ensures Trim(before + t + after) == t
  {
    var s := before + t + after;
    var i, j := |before|, |before| + |t|;
    assert s[i] == t[0] && s[j - 1] == t[|t| - 1];
    assert forall k | 0 <= k < i :: s[k] == before[k];
    assert forall k | j <= k < |s| :: s[k] == after[k - j];
    SkipForwardTo(s, 0, i);
    SkipBackwardTo(s, |s|, i, j);
    assert s[i..j] == t;
  }

  /** `trim()` leaves nothing exactly when every character is trimmable. */
  lemma TrimEmptyIffBlank(s: string)
    ensures Trim(s) == [] <==> IsBlank(s)
  {
    TrimShape(s);
  }

  /** Trimming never introduces a character. */
  lemma TrimKeepsOut(s: string, c: char)
    requires c !in s
    ensures c !in Trim(s)
  {
  }

  /** The fields of `s` between occurrences of `sep`, as `s.split(",")`
      yields them, but keeping trailing empty fields (see README). */
  function Split(s: string, sep: char): (r: seq<string>)
    ensures |r| > 0
    ensures forall k | 0 <= k < |r| :: sep !in r[k]
    ensures JoinWith(r, sep) == s
    decreases |s|
  {
    if s == [] then [[]]
    else
      var rest := Split(s[1..], sep);
      if s[0] == sep then
        var r := [[]] + rest;
        assert r[1..] == rest;
        r
      else
        var r := [[s[0]] + rest[0]] + rest[1..];
        assert |rest| > 1 ==> rest[1..][1..] == rest[2..];
        assert |r| > 1 ==> r[1..] == rest[1..];
        r
  }

  /** The fields joined back together with `sep` between them. */
  function JoinWith(parts: seq<string>, sep: char): string
    requires |parts| > 0
    decreases |parts|
  {
    if |parts| == 1 then parts[0] else parts[0] + [sep] + JoinWith(parts[1..], sep)
  }

  /** Joining one more field appends the separator and that field. */
  lemma {:induction false} JoinWithSnoc(parts: seq<string>, field: string, sep: char)
    requires |parts| > 0
    ensures JoinWith(parts + [field], sep) == JoinWith(parts, sep) + [sep] + field
    decreases |parts|
  {
    var longer := parts + [field];
    if |parts| == 1 {
      assert longer[1..] == [field];
    } else {
      assert longer[1..] == parts[1..] + [field];
      JoinWithSnoc(parts[1..], field, sep);
      var rest := JoinWith(parts[1..], sep);
      assert parts[0] + [sep] + (rest + [sep] + field) == parts[0] + [sep] + rest + [sep] + field;
    }
  }

  /** Joining two lists of fields joins their joins with one more
      separator. */
  lemma {:induction false} JoinWithAppend(a: seq<string>, b: seq<string>, sep: char)
    requires |a| > 0 && |b| > 0
    ensures JoinWith(a + b, sep) == JoinWith(a, sep) + [sep] + JoinWith(b, sep)
    decreases |a|
  {
    var ab := a + b;
    assert ab[0] == a[0];
    if |a| == 1 {
      assert ab[1..] == b;
    } else {
      assert ab[1..] == a[1..] + b;
      JoinWithAppend(a[1..], b, sep);
      var rest, tail := JoinWith(a[1..], sep), JoinWith(b, sep);
      assert a[0] + [sep] + (rest + [sep] + tail) == a[0] + [sep] + rest + [sep] + tail;
    }
  }

  lemma {:induction false} SplitNoSeparator(s: string, sep: char)
    requires sep !in s
    ensures Split(s, sep) == [s]
    decreases |s|
  {
    if s != [] {
      SplitNoSeparator(s[1..], sep);
      assert [s[0]] + s[1..] == s;
    }
  }

  lemma {:induction false} SplitAfterField(a: string, b: string, sep: char)
    requires sep !in a
    ensures Split(a + [sep] + b, sep) == [a] + Split(b, sep)
    decreases |a|
  {
    var s := a + [sep] + b;
    if a == [] {
      assert s[1..] == b;
    } else {
      assert s[1..] == a[1..] + [sep] + b;
      SplitAfterField(a[1..], b, sep);
      assert [a[0]] + a[1..] == a;
    }
  }

  /** `Split` is the only way to cut `s` into separator-free fields whose
      join is `s`: splitting the join of such fields gives them back. */
  lemma {:induction false} SplitJoin(parts: seq<string>, sep: char)
    requires |parts| > 0
    requires forall k | 0 <= k < |parts| :: sep !in parts[k]
    ensures Split(JoinWith(parts, sep), sep) == parts
    decreases |parts|
  {
    if |parts| == 1 {
      SplitNoSeparator(parts[0], sep);
    } else {
      SplitJoin(parts[1..], sep);
      SplitAfterField(parts[0], JoinWith(parts[1..], sep), sep);
    }
  }
}
