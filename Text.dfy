/**
  The handful of Python `str` operations the scanner relies on, over `string`
  (a sequence of Unicode characters): `isspace`, `splitlines`, `find`/`in`,
  `split(sep)`, `split()`, `strip()` and `upper()`.
*/
module Text {
  import opened Wrappers

  /** Python `str.isspace` for one character. */
  predicate IsSpace(c: char) {
    var n := c as int;
    9 <= n <= 13 || 0x1C <= n <= 0x20 || n == 0x85 || n == 0xA0 || n == 0x1680 ||
    0x2000 <= n <= 0x200A || n == 0x2028 || n == 0x2029 || n == 0x202F || n == 0x205F || n == 0x3000
  }

  /** The line boundaries recognised by Python `str.splitlines`. */
  predicate IsLineBreak(c: char) {
    var n := c as int;
    10 <= n <= 13 || 0x1C <= n <= 0x1E || n == 0x85 || n == 0x2028 || n == 0x2029
  }

  predicate IsDigit(c: char) {
    '0' <= c <= '9'
  }

  /** `pat` occurs in `s` starting at position `i`. */
  predicate OccursAt(s: string, pat: string, i: nat) {
    i + |pat| <= |s| && s[i..i + |pat|] == pat
  }

  /** The first position at or after `i` where `pat` occurs in `s`. */
  function FindFrom(s: string, pat: string, i: nat): (r: Option<nat>)
    ensures r.Some? ==> i <= r.value && OccursAt(s, pat, r.value)
    ensures r.Some? ==> forall j :: i <= j < r.value ==> !OccursAt(s, pat, j)
    ensures r.None? ==> forall j :: i <= j ==> !OccursAt(s, pat, j)
    decreases |s| - i
  {
    if i + |pat| > |s| then None
    else if OccursAt(s, pat, i) then Some(i)
    else FindFrom(s, pat, i + 1)
  }

  /** Python `s.find(pat)`, with `None` for -1. */
  function Find(s: string, pat: string): (r: Option<nat>)
    ensures r.Some? ==> OccursAt(s, pat, r.value)
    ensures r.Some? ==> forall j :: 0 <= j < r.value ==> !OccursAt(s, pat, j)
    ensures r.None? <==> forall j: nat :: !OccursAt(s, pat, j)
  {
    FindFrom(s, pat, 0)
  }

  /** Python `pat in s`. */
  predicate Contains(s: string, pat: string) {
    Find(s, pat).Some?
  }

  /** Python `s.split(sep)[0]`: the text before the first `sep`, or all of `s`. */
  function BeforeFirst(s: string, sep: string): (r: string)
    requires |sep| > 0
    ensures r <= s
    ensures !Contains(r, sep)
    ensures Contains(s, sep) ==> |r| == Find(s, sep).value && OccursAt(s, sep, |r|)
    ensures !Contains(s, sep) ==> r == s
  {
    match Find(s, sep)
    case None => s
    case Some(i) =>
      assert forall j: nat :: OccursAt(s[..i], sep, j) ==> j < i && OccursAt(s, sep, j) by {
        forall j: nat | OccursAt(s[..i], sep, j) ensures j < i && OccursAt(s, sep, j) {
          assert s[..i][j..j + |sep|] == s[j..j + |sep|];
        }
      }
      s[..i]
  }

  /** Python `s.split(sep)[1]` where `sep` occurs in `s`: the text between its first and second occurrence. */
  function SecondField(s: string, sep: string): (r: string)
    requires |sep| > 0 && Contains(s, sep)
    ensures !Contains(r, sep)
    ensures OccursAt(s, r, Find(s, sep).value + |sep|)
    ensures var e := Find(s, sep).value + |sep| + |r|; e == |s| || OccursAt(s, sep, e)
  {
    var n := Find(s, sep).value + |sep|;
    var r := BeforeFirst(s[n..], sep);
    FieldAt(s, n, sep, r);
    r
  }

  /** The text from `n` up to the next `sep` sits at `n` and ends at `sep` or at the end of `s`. */
  lemma FieldAt(s: string, n: nat, sep: string, r: string)
    requires |sep| > 0 && n <= |s| && r == BeforeFirst(s[n..], sep)
    ensures OccursAt(s, r, n)
    ensures n + |r| == |s| || OccursAt(s, sep, n + |r|)
  {
    var rest := s[n..];
    assert s[n..n + |r|] == rest[..|r|] == r;
    if Contains(rest, sep) {
      OccursInSuffix(s, n, sep, |r|);
    }
  }

  /** The position of the first line boundary at or after `i`, or `|s|`. */
  function LineEnd(s: string, i: nat): (j: nat)
    requires i <= |s|
    ensures i <= j <= |s|
    ensures forall k :: i <= k < j ==> !IsLineBreak(s[k])
    ensures j < |s| ==> IsLineBreak(s[j])
    decreases |s| - i
  {
    if i == |s| || IsLineBreak(s[i]) then i else LineEnd(s, i + 1)
  }

  /** Where the text resumes after the line boundary at `i`: past "\r\n" as one boundary, else past one character. */
  function AfterBreak(s: string, i: nat): (j: nat)
    requires i < |s|
    ensures i < j <= |s|
  {
    if s[i] == '\r' && i + 1 < |s| && s[i + 1] == '\n' then i + 2 else i + 1
  }

  /**
    Python `s.splitlines()`: the text between line boundaries, a "\r\n" pair
    being one boundary, with no empty line after a final boundary.
  */
  function SplitLines(s: string): (lines: seq<string>)
    ensures lines == [] <==> s == []
    ensures forall k, i :: 0 <= k < |lines| && 0 <= i < |lines[k]| ==> !IsLineBreak(lines[k][i])
    decreases |s|
  {
    if s == [] then []
    else
      var i := LineEnd(s, 0);
      if i == |s| then [s] else [s[..i]] + SplitLines(s[AfterBreak(s, i)..])
  }

  /** An occurrence in a suffix of `s` is an occurrence in `s`. */
  lemma OccursInSuffix(s: string, n: nat, t: string, p: nat)
    requires n <= |s| && OccursAt(s[n..], t, p)
    ensures OccursAt(s, t, n + p)
  {
    assert s[n + p..n + p + |t|] == s[n..][p..p + |t|];
  }

  /** A piece of a piece of `s` is a piece of `s`. */
  lemma OccursWithin(s: string, m: string, a: nat, t: string, b: nat)
    requires OccursAt(s, m, a) && OccursAt(m, t, b)
    ensures OccursAt(s, t, a + b)
  {
    assert m == s[a..a + |m|] && t == m[b..b + |t|];
    assert forall i :: 0 <= i < |t| ==> s[a + b + i] == m[b + i] == t[i];
    assert s[a + b..a + b + |t|] == t;
  }

  /** A piece of a text that does not contain `pat` does not contain `pat` either. */
  lemma NotContainedInPiece(m: string, t: string, b: nat, pat: string)
    requires OccursAt(m, t, b) && !Contains(m, pat)
    ensures !Contains(t, pat)
  {
    if Contains(t, pat) {
      OccursWithin(m, t, b, pat, Find(t, pat).value);
      assert false;
    }
  }

  /** Every line of `s` is a piece of `s`. */
  lemma {:induction false} LinesOccurInText(s: string, k: nat)
    requires k < |SplitLines(s)|
    ensures exists p: nat :: OccursAt(s, SplitLines(s)[k], p)
    decreases |s|
  {
    var lines := SplitLines(s);
    var i := LineEnd(s, 0);
    if i == |s| {
      assert lines[k] == s;
      assert OccursAt(s, s, 0);
    } else {
      var next := AfterBreak(s, i);
      var rest := s[next..];
      assert lines == [s[..i]] + SplitLines(rest);
      if k == 0 {
        assert lines[k] == s[..i];
        assert OccursAt(s, s[..i], 0);
      } else {
        assert lines[k] == SplitLines(rest)[k - 1];
        LinesOccurInText(rest, k - 1);
        var p: nat :| OccursAt(rest, SplitLines(rest)[k - 1], p);
        OccursInSuffix(s, next, lines[k], p);
      }
    }
  }

  /** One line boundary as `splitlines` reads it: the pair "\r\n", or a single boundary character. */
  predicate IsBoundary(b: string) {
    b == "\r\n" || (|b| == 1 && IsLineBreak(b[0]))
  }

  /** The text made of each line followed by its boundary. */
  function JoinLines(lines: seq<string>, breaks: seq<string>): string
    requires |breaks| == |lines|
    decreases |lines|
  {
    if lines == [] then [] else lines[0] + breaks[0] + JoinLines(lines[1..], breaks[1..])
  }

  /**
    `lines` with `breaks` is how `splitlines` cuts `s`: joined they give `s`
    back; no line holds a boundary character; every line but the last is followed by one boundary, and the last by
    one or by the end of the text; a lone "\r" is never followed by an empty
    line ended by "\n" (that pair is one boundary); and the text never ends in
    an empty line with no boundary.
  */
  predicate SplitsText(s: string, lines: seq<string>, breaks: seq<string>) {
    |breaks| == |lines| &&
    JoinLines(lines, breaks) == s &&
    LinesUnbroken(lines) &&
    BoundariesBetween(lines, breaks) &&
    PairsKept(lines, breaks)
  }

  predicate LinesUnbroken(lines: seq<string>) {
    forall k, i :: 0 <= k < |lines| && 0 <= i < |lines[k]| ==> !IsLineBreak(lines[k][i])
  }

  /** A boundary after every line but the last; after the last a boundary or the end, and not an empty line at the end. */
  predicate BoundariesBetween(lines: seq<string>, breaks: seq<string>)
    requires |breaks| == |lines|
  {
    (forall k :: 0 <= k < |lines| - 1 ==> IsBoundary(breaks[k])) &&
    (|lines| > 0 ==> IsBoundary(breaks[|lines| - 1]) || breaks[|lines| - 1] == []) &&
    (|lines| > 0 ==> lines[|lines| - 1] != [] || breaks[|lines| - 1] != [])
  }

  /** A lone "\r" boundary is never followed by an empty line ended by "\n": the pair is one boundary. */
  predicate PairsKept(lines: seq<string>, breaks: seq<string>)
    requires |breaks| == |lines|
  {
    forall k :: 0 < k < |lines| && lines[k] == [] && breaks[k - 1] == "\r" ==> breaks[k] == [] || breaks[k][0] != '\n'
  }

  /** The boundary after each line of `SplitLines(s)`; "" when the text ends without one. */
  function LineBreaks(s: string): (breaks: seq<string>)
    decreases |s|
  {
    if s == [] then []
    else
      var i := LineEnd(s, 0);
      if i == |s| then [[]] else [s[i..AfterBreak(s, i)]] + LineBreaks(s[AfterBreak(s, i)..])
  }

  /** The lines `splitlines` yields, with their boundaries, rebuild the text. */
  lemma {:induction false} SplitLinesRebuildsText(s: string)
    ensures SplitsText(s, SplitLines(s), LineBreaks(s))
    decreases |s|
  {
    if s != [] {
      var i := LineEnd(s, 0);
      if i == |s| {
        assert JoinLines([s], [[]]) == s + [] + JoinLines([], []);
      } else {
        var j := AfterBreak(s, i);
        var rest := s[j..];
        SplitLinesRebuildsText(rest);
        BoundaryAt(s, i);
        if s[i..j] == "\r" && SplitLines(rest) != [] && SplitLines(rest)[0] == [] {
          CarriageReturnAlone(s, i, rest);
        }
        SplitsTextCons(s, s[..i], s[i..j], rest, SplitLines(rest), LineBreaks(rest));
      }
    }
  }

  /** The text at a boundary character up to where the text resumes is one boundary, and cuts `s` in three. */
  lemma BoundaryAt(s: string, i: nat)
    requires i < |s| && IsLineBreak(s[i])
    ensures IsBoundary(s[i..AfterBreak(s, i)])
    ensures s == s[..i] + s[i..AfterBreak(s, i)] + s[AfterBreak(s, i)..]
  {
  }

  /** One more line and its boundary in front of a split text split the longer text. */
  lemma SplitsTextCons(s: string, line: string, b: string, rest: string, lines: seq<string>, breaks: seq<string>)
    requires s == line + b + rest && IsBoundary(b)
    requires forall i :: 0 <= i < |line| ==> !IsLineBreak(line[i])
    requires SplitsText(rest, lines, breaks)
    requires b == "\r" && lines != [] && lines[0] == [] ==> breaks[0] == [] || breaks[0][0] != '\n'
    ensures SplitsText(s, [line] + lines, [b] + breaks)
  {
    var lines2, breaks2 := [line] + lines, [b] + breaks;
    assert lines2[1..] == lines && breaks2[1..] == breaks;
    assert JoinLines(lines2, breaks2) == s;
    forall k | 0 < k < |lines2| && lines2[k] == [] && breaks2[k - 1] == "\r"
      ensures breaks2[k] == [] || breaks2[k][0] != '\n'
    {
      assert lines2[k] == lines[k - 1] && breaks2[k] == breaks[k - 1];
    }
    forall k, i | 0 <= k < |lines2| && 0 <= i < |lines2[k]| ensures !IsLineBreak(lines2[k][i]) {
      if k > 0 {
        assert lines2[k] == lines[k - 1];
      }
    }
  }

  /** Dropping the first line and its boundary leaves a split of the rest of the text. */
  lemma SplitsTextTail(s: string, lines: seq<string>, breaks: seq<string>)
    requires SplitsText(s, lines, breaks) && lines != []
    ensures var rest := JoinLines(lines[1..], breaks[1..]);
      s == lines[0] + breaks[0] + rest && SplitsText(rest, lines[1..], breaks[1..])
  {
    var lines', breaks' := lines[1..], breaks[1..];
    forall k | 0 < k < |lines'| && lines'[k] == [] && breaks'[k - 1] == "\r"
      ensures breaks'[k] == [] || breaks'[k][0] != '\n'
    {
      assert lines'[k] == lines[k + 1] && breaks'[k] == breaks[k + 1] && breaks'[k - 1] == breaks[k];
    }
    forall k, i | 0 <= k < |lines'| && 0 <= i < |lines'[k]| ensures !IsLineBreak(lines'[k][i]) {
      assert lines'[k] == lines[k + 1];
    }
  }

  /** `splitlines` is the only way to cut a text that `SplitsText` allows. */
  lemma {:induction false} SplitsTextUnique(s: string, lines: seq<string>, breaks: seq<string>)
    requires SplitsText(s, lines, breaks)
    ensures lines == SplitLines(s) && breaks == LineBreaks(s)
    decreases |lines|
  {
    if lines != [] {
      SplitsTextTail(s, lines, breaks);
      var line, b := lines[0], breaks[0];
      var rest := JoinLines(lines[1..], breaks[1..]);
      SplitsTextUnique(rest, lines[1..], breaks[1..]);
      assert s[..|line|] == line;
      if b == [] {
        assert |lines| == 1;
        assert rest == [];
        assert LineEnd(s, 0) == |s|;
        assert s == line;
      } else {
        var i := |line|;
        assert s[i] == b[0];
        assert LineEnd(s, 0) == i;
        FirstBoundaryLength(s, lines, breaks);
        assert s[i..AfterBreak(s, i)] == b;
        assert s[AfterBreak(s, i)..] == rest;
        assert SplitLines(s) == [line] + SplitLines(rest);
        assert LineBreaks(s) == [b] + LineBreaks(rest);
      }
      assert lines == [line] + lines[1..] && breaks == [b] + breaks[1..];
    }
  }

  /** The first boundary of a split is exactly what `AfterBreak` skips. */
  lemma FirstBoundaryLength(s: string, lines: seq<string>, breaks: seq<string>)
    requires SplitsText(s, lines, breaks) && lines != [] && breaks[0] != []
    ensures |lines[0]| < |s| && AfterBreak(s, |lines[0]|) == |lines[0]| + |breaks[0]|
  {
    SplitsTextTail(s, lines, breaks);
    var i := |lines[0]|;
    var rest := JoinLines(lines[1..], breaks[1..]);
    assert s[i] == breaks[0][0];
    if breaks[0] == "\r" && i + 1 < |s| {
      assert s[i + 1] == rest[0];
      assert |lines| > 1;
      if lines[1] == [] {
        assert breaks[1] != [];
        assert rest[0] == breaks[1][0];
      } else {
        assert rest[0] == lines[1][0];
      }
    } else if breaks[0] == "\r\n" {
      assert s[i + 1] == '\n';
    }
  }

  /** After a boundary "\r" that is not part of "\r\n", the next line is not an empty line ended by "\n". */
  lemma CarriageReturnAlone(s: string, i: nat, rest: string)
    requires i < |s| && s[i] == '\r' && AfterBreak(s, i) == i + 1 && rest == s[i + 1..]
    requires SplitLines(rest) != [] && SplitLines(rest)[0] == []
    ensures LineBreaks(rest)[0] == [] || LineBreaks(rest)[0][0] != '\n'
  {
    var e := LineEnd(rest, 0);
    if e < |rest| {
      assert rest[0] == s[i + 1];
      assert [rest[0]] == rest[e..AfterBreak(rest, e)][..1];
    }
  }

  /** The first position at or after `i` that is not whitespace, or `|s|`. */
  function SkipSpace(s: string, i: nat): (j: nat)
    requires i <= |s|
    ensures i <= j <= |s|
    ensures forall k :: i <= k < j ==> IsSpace(s[k])
    ensures j < |s| ==> !IsSpace(s[j])
    decreases |s| - i
  {
    if i < |s| && IsSpace(s[i]) then SkipSpace(s, i + 1) else i
  }

  /** The first position at or after `i` that is whitespace, or `|s|`. */
  function SkipText(s: string, i: nat): (j: nat)
    requires i <= |s|
    ensures i <= j <= |s|
    ensures forall k :: i <= k < j ==> !IsSpace(s[k])
    ensures j < |s| ==> IsSpace(s[j])
    decreases |s| - i
  {
    if i < |s| && !IsSpace(s[i]) then SkipText(s, i + 1) else i
  }

  /** `t` is the first whitespace-delimited word of `s`, and it starts at position `i`. */
  predicate TokenAt(s: string, t: string, i: nat) {
    |t| > 0 && OccursAt(s, t, i) &&
    (forall k :: 0 <= k < i ==> IsSpace(s[k])) &&
    (forall k :: 0 <= k < |t| ==> !IsSpace(t[k])) &&
    (i + |t| == |s| || IsSpace(s[i + |t|]))
  }

  /** Python `s.split()[0]`, or `None` where `s.split()` is empty (so indexing it raises). */
  function FirstToken(s: string): (r: Option<string>)
    ensures r.None? <==> forall k :: 0 <= k < |s| ==> IsSpace(s[k])
    ensures r.Some? ==> TokenAt(s, r.value, SkipSpace(s, 0))
  {
    var i := SkipSpace(s, 0);
    if i == |s| then None else Some(s[i..SkipText(s, i)])
  }

  /** The first position `e` at or below `j` such that `s[e..j]` is all whitespace. */
  function TrimEnd(s: string, j: nat): (e: nat)
    requires j <= |s|
    ensures e <= j
    ensures forall k :: e <= k < j ==> IsSpace(s[k])
    ensures e > 0 ==> !IsSpace(s[e - 1])
    decreases j
  {
    if j > 0 && IsSpace(s[j - 1]) then TrimEnd(s, j - 1) else j
  }

  /** Python `s.strip()`. */
  function Strip(s: string): (r: string)
    ensures r == [] <==> forall k :: 0 <= k < |s| ==> IsSpace(s[k])
    ensures |r| > 0 ==> !IsSpace(r[0]) && !IsSpace(r[|r| - 1])
    ensures |r| > 0 ==> OccursAt(s, r, SkipSpace(s, 0))
    ensures forall k :: SkipSpace(s, 0) + |r| <= k < |s| ==> IsSpace(s[k])
  {
    var i := SkipSpace(s, 0);
    if i == |s| then [] else s[i..TrimEnd(s, |s|)]
  }

  /** Python `c.upper()` for the ASCII letters; every other character is left as it is. */
  function UpperChar(c: char): char {
    if 'a' <= c <= 'z' then (c as int - 'a' as int + 'A' as int) as char else c
  }

  /** Python `s.upper()`, restricted to ASCII case mapping. */
  function Upper(s: string): (r: string)
    ensures |r| == |s|
    ensures forall k :: 0 <= k < |s| ==> r[k] == UpperChar(s[k])
  {
    seq(|s|, k requires 0 <= k < |s| => UpperChar(s[k]))
  }
}
