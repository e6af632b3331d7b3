/** The JavaScript string operations the page relies on (`indexOf`, `replace`,
    `split`, `join`, `Number`, `toString`), with the facts about them that the
    rest of the model needs. */
module Text {
  import opened Wrappers

  /** `pat` is found in `s` starting at index `i`. */
  predicate Occurs(s: string, pat: string, i: int) {
    0 <= i && i + |pat| <= |s| && s[i..i + |pat|] == pat
  }

  /** `s` begins with `prefix`. */
  predicate StartsWith(s: string, prefix: string) {
    |prefix| <= |s| && s[..|prefix|] == prefix
  }

  /** `pat` is found nowhere in `s`. */
  ghost predicate Free(s: string, pat: string) {
    forall i :: !Occurs(s, pat, i)
  }

  /** `s.indexOf(pat, from)`: the first index at or after `from` where `pat` occurs. */
  function IndexOfFrom(s: string, pat: string, from: nat): (r: Option<nat>)
    ensures r.Some? ==> from <= r.value && Occurs(s, pat, r.value)
    ensures forall j :: from <= j && (r.None? || j < r.value) ==> !Occurs(s, pat, j)
    decreases |s| - from
  {
    if from + |pat| > |s| then None
    else if s[from..from + |pat|] == pat then Some(from)
    else IndexOfFrom(s, pat, from + 1)
  }

  function IndexOf(s: string, pat: string): Option<nat> {
    IndexOfFrom(s, pat, 0)
  }

  /** `s.replace(pat, rep)` with `rep` inserted literally: only the first
      occurrence of `pat` is replaced, and `s` is returned unchanged when there is none. */
  function ReplaceFirst(s: string, pat: string, rep: string): string {
    match IndexOf(s, pat)
    case None => s
    case Some(k) => s[..k] + rep + s[k + |pat|..]
  }

  /** Where an occurrence of `pat` in `x + y` can lie: inside `x`, inside `y`,
      or across the boundary, in which case both boundary characters are in `pat`. */
  lemma OccurrenceSplit(x: string, y: string, pat: string, i: int)
    ensures Occurs(x + y, pat, i) ==>
      Occurs(x, pat, i) || Occurs(y, pat, i - |x|) ||
      (|x| > 0 && |y| > 0 && x[|x| - 1] in pat && y[0] in pat)
  {
    var s := x + y;
    if Occurs(s, pat, i) {
      if i + |pat| <= |x| {
        assert x[i..i + |pat|] == s[i..i + |pat|];
      } else if i >= |x| {
        assert y[i - |x|..i - |x| + |pat|] == s[i..i + |pat|];
      } else {
        assert x[|x| - 1] == s[i..i + |pat|][|x| - 1 - i] == pat[|x| - 1 - i];
        assert y[0] == s[i..i + |pat|][|x| - i] == pat[|x| - i];
      }
    }
  }

  lemma CharOfOccurrence(s: string, pat: string, i: int, c: char)
    requires c in pat
    ensures Occurs(s, pat, i) ==> c in s
  {
    if Occurs(s, pat, i) {
      var k :| 0 <= k < |pat| && pat[k] == c;
      assert s[i + k] == s[i..i + |pat|][k];
    }
  }

  /** A character of `pat` that `s` lacks keeps `pat` out of `s`. */
  lemma FreeByChar(s: string, pat: string, c: char)
    requires c in pat && c !in s
    ensures Free(s, pat)
  {
    forall i ensures !Occurs(s, pat, i) {
      CharOfOccurrence(s, pat, i, c);
    }
  }

  /** Two pieces free of `pat` stay free of it when joined at a boundary that
      no occurrence can straddle. */
  lemma FreeConcat(x: string, y: string, pat: string)
    requires Free(x, pat) && Free(y, pat)
    requires (|x| > 0 && x[|x| - 1] !in pat) || (|y| > 0 && y[0] !in pat)
    ensures Free(x + y, pat)
  {
    forall i ensures !Occurs(x + y, pat, i) {
      OccurrenceSplit(x, y, pat, i);
    }
  }

  /** When nothing before it can hold `pat`, the first `pat` is the one right after `x`. */
  lemma FirstOccurrence(x: string, pat: string, z: string)
    requires pat != "" && Free(x, pat)
    requires |x| == 0 || x[|x| - 1] !in pat
    ensures IndexOf(x + pat + z, pat) == Some(|x|)
  {
    var s := x + pat + z;
    assert s[|x|..|x| + |pat|] == pat;
    assert Occurs(s, pat, |x|);
    forall j | 0 <= j < |x| ensures !Occurs(s, pat, j) {
      assert s == x + (pat + z);
      OccurrenceSplit(x, pat + z, pat, j);
    }
  }

  lemma ReplaceFirstAt(x: string, pat: string, z: string, rep: string)
    requires pat != "" && Free(x, pat)
    requires |x| == 0 || x[|x| - 1] !in pat
    ensures ReplaceFirst(x + pat + z, pat, rep) == x + rep + z
  {
    FirstOccurrence(x, pat, z);
    var s := x + pat + z;
    assert s[..|x|] == x;
    assert s[|x| + |pat|..] == z;
  }

  // ---------------------------------------------------------------------------
  // split and join

  /** `s.split(sep)` for a non-empty separator: the separator is matched
      leftmost first and the pieces between matches are returned in order.
      There is always at least one piece (`"".split(sep)` is `[""]`). */
  function Split(s: string, sep: string): (pieces: seq<string>)
    requires sep != ""
    ensures |pieces| >= 1
    decreases |s|
  {
    if |s| < |sep| then [s]
    else if s[..|sep|] == sep then [""] + Split(s[|sep|..], sep)
    else
      var rest := Split(s[1..], sep);
      [[s[0]] + rest[0]] + rest[1..]
  }

  /** `parts.join(sep)`; the join of no parts is the empty string. */
  function Join(parts: seq<string>, sep: string): string
    decreases |parts|
  {
    if |parts| == 0 then ""
    else if |parts| == 1 then parts[0]
    else parts[0] + sep + Join(parts[1..], sep)
  }

  /** Splitting undoes nothing and loses nothing: joining the pieces with the
      separator gives back the original string. */
  lemma {:induction false} JoinSplit(s: string, sep: string)
    requires sep != ""
    ensures Join(Split(s, sep), sep) == s
    decreases |s|
  {
    if |s| < |sep| {
    } else if s[..|sep|] == sep {
      JoinSplit(s[|sep|..], sep);
      JoinSplitAtSeparator(s, sep);
    } else {
      JoinSplit(s[1..], sep);
      JoinSplitPastChar(s, sep);
    }
  }

  /** A string is its first `n` characters followed by the rest. */
  lemma TakeDrop(s: string, n: nat)
    requires n <= |s|
    ensures s == s[..n] + s[n..]
  {
  }

  /** The step of `JoinSplit` when `s` begins with the separator. */
  lemma JoinSplitAtSeparator(s: string, sep: string)
    requires sep != "" && |s| >= |sep| && s[..|sep|] == sep
    requires Join(Split(s[|sep|..], sep), sep) == s[|sep|..]
    ensures Join(Split(s, sep), sep) == s
  {
    var rest := s[|sep|..];
    TakeDrop(s, |sep|);
    var parts := Split(rest, sep);
    assert Split(s, sep) == [""] + parts;
    JoinEmptyFirst(parts, sep, rest);
  }

  /** The step of `JoinSplit` when `s` does not begin with the separator. */
  lemma JoinSplitPastChar(s: string, sep: string)
    requires sep != "" && |s| >= |sep| && s[..|sep|] != sep
    requires Join(Split(s[1..], sep), sep) == s[1..]
    ensures Join(Split(s, sep), sep) == s
  {
    var rest := s[1..];
    TakeDrop(s, 1);
    assert s[..1] == [s[0]];
    var parts := Split(rest, sep);
    assert Split(s, sep) == [[s[0]] + parts[0]] + parts[1..];
    JoinGrowFirst(s[0], parts, sep, rest);
  }

  /** An empty first piece puts a separator in front of the join. */
  lemma JoinEmptyFirst(parts: seq<string>, sep: string, joined: string)
    requires |parts| >= 1 && Join(parts, sep) == joined
    ensures Join([""] + parts, sep) == sep + joined
  {
    assert ([""] + parts)[1..] == parts;
    assert Join([""] + parts, sep) == "" + sep + joined;
    assert "" + sep == sep;
  }

  /** A character added to the front of the first piece is added to the
      front of the join. */
  lemma JoinGrowFirst(c: char, parts: seq<string>, sep: string, joined: string)
    requires |parts| >= 1 && Join(parts, sep) == joined
    ensures Join([[c] + parts[0]] + parts[1..], sep) == [c] + joined
  {
    var grown := [[c] + parts[0]] + parts[1..];
    if |parts| > 1 {
      assert grown[1..] == parts[1..];
      var tail := Join(parts[1..], sep);
      assert [c] + parts[0] + sep + tail == [c] + (parts[0] + sep + tail);
    }
  }

  /** The pieces never hold the separator's first character. */
  ghost predicate SeparatorFree(parts: seq<string>, sep: string)
    requires sep != ""
  {
    forall k :: 0 <= k < |parts| ==> sep[0] !in parts[k]
  }

  /** A text in which the separator occurs nowhere splits into itself alone. */
  lemma {:induction false} SplitPlain(p: string, sep: string)
    requires sep != "" && Free(p, sep)
    ensures Split(p, sep) == [p]
    decreases |p|
  {
    if |p| >= |sep| {
      assert !Occurs(p, sep, 0);
      assert Free(p[1..], sep) by {
        forall i ensures !Occurs(p[1..], sep, i) {
          TailOccurrence(p, sep, i);
        }
      }
      SplitPlain(p[1..], sep);
      assert [p[0]] + p[1..] == p;
    }
  }

  /** An occurrence in the tail of a text is an occurrence in the text. */
  lemma TailOccurrence(p: string, sep: string, i: int)
    requires |p| >= 1
    ensures Occurs(p[1..], sep, i) ==> Occurs(p, sep, i + 1)
  {
    if Occurs(p[1..], sep, i) {
      assert p[i + 1..i + 1 + |sep|] == p[1..][i..i + |sep|];
    }
  }

  /** Lacking the separator's first character is one way to lack the separator. */
  lemma SplitPlainByChar(p: string, sep: string)
    requires sep != "" && sep[0] !in p
    ensures Split(p, sep) == [p]
  {
    FreeByChar(p, sep, sep[0]);
    SplitPlain(p, sep);
  }

  lemma {:induction false} SplitAfterPiece(p: string, sep: string, rest: string)
    requires sep != "" && sep[0] !in p
    ensures Split(p + sep + rest, sep) == [p] + Split(rest, sep)
    decreases |p|
  {
    var s := p + sep + rest;
    if |p| == 0 {
      assert s[..|sep|] == sep;
      assert s[|sep|..] == rest;
    } else {
      assert s[..|sep|][0] == p[0] != sep[0];
      assert s[1..] == p[1..] + sep + rest;
      SplitAfterPiece(p[1..], sep, rest);
      assert [p[0]] + p[1..] == p;
    }
  }

  /** Joining pieces that do not hold the separator and splitting again gives
      back exactly those pieces. */
  lemma {:induction false} SplitJoin(parts: seq<string>, sep: string)
    requires sep != "" && |parts| >= 1 && SeparatorFree(parts, sep)
    ensures Split(Join(parts, sep), sep) == parts
    decreases |parts|
  {
    if |parts| == 1 {
      SplitPlainByChar(parts[0], sep);
    } else {
      SplitAfterPiece(parts[0], sep, Join(parts[1..], sep));
      SplitJoin(parts[1..], sep);
    }
  }

  lemma {:induction false} JoinSnoc(parts: seq<string>, x: string, sep: string)
    requires |parts| >= 1
    ensures Join(parts + [x], sep) == Join(parts, sep) + sep + x
    decreases |parts|
  {
    if |parts| > 1 {
      assert (parts + [x])[1..] == parts[1..] + [x];
      JoinSnoc(parts[1..], x, sep);
    }
  }

  // ---------------------------------------------------------------------------
  // numbers as text

  predicate IsDigit(c: char) {
    '0' <= c <= '9'
  }

  predicate AllDigits(s: string) {
    forall i :: 0 <= i < |s| ==> IsDigit(s[i])
  }

  function DigitChar(d: nat): char
    requires d < 10
  {
    ('0' as int + d) as char
  }

  /** The value of a string of decimal digits, most significant first. */
  function DigitsValue(s: string): nat
    requires AllDigits(s)
    decreases |s|
  {
    if |s| == 0 then 0
    else DigitsValue(s[..|s| - 1]) * 10 + (s[|s| - 1] as int - '0' as int)
  }

  /** `n.toString()` for a natural number: its shortest decimal form. */
  function DecimalString(n: nat): (r: string)
    ensures |r| >= 1 && AllDigits(r)
    ensures |r| == 1 <==> n < 10
  {
    if n < 10 then [DigitChar(n)] else DecimalString(n / 10) + [DigitChar(n % 10)]
  }

  /** `Number(s)` on the strings the page compares with numbers: the empty
      string is 0, decimal digits with an optional leading minus sign are that
      integer, and anything else is NaN (`None`), which fails every comparison. */
  function JsNumber(s: string): Option<int> {
    if s == "" then Some(0)
    else if AllDigits(s) then Some(DigitsValue(s))
    else if s[0] == '-' && |s| > 1 && AllDigits(s[1..]) then Some(0 - DigitsValue(s[1..]))
    else None
  }

  /** Reading back the decimal form of `n` gives `n`. */
  lemma {:induction false} DigitsOfDecimal(n: nat)
    ensures DigitsValue(DecimalString(n)) == n
  {
    if n >= 10 {
      var r := DecimalString(n);
      assert r[..|r| - 1] == DecimalString(n / 10);
      DigitsOfDecimal(n / 10);
    }
  }

  lemma NumberOfDecimal(n: nat)
    ensures JsNumber(DecimalString(n)) == Some(n)
  {
    DigitsOfDecimal(n);
  }

  /** Distinct numbers have distinct decimal forms. */
  lemma DecimalInjective(m: nat, n: nat)
    ensures DecimalString(m) == DecimalString(n) <==> m == n
  {
    if DecimalString(m) == DecimalString(n) {
      NumberOfDecimal(m);
      NumberOfDecimal(n);
    }
  }
}
