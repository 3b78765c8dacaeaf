/**
  ExtractVersionNumbers of validator.go. The regular expression Expected\s+(\d+),\s+Actual\s+(\d+)
  is given its declarative meaning (Fits, Chosen) and an explicit scanner (Find); the scanner is
  proved to compute the leftmost, greedy match.
 */
module VersionParser {
  import opened Common
  import opened Decimal

  /** The class \s of Go's regular expressions. */
  predicate IsSpace(c: char) {
    c == '\t' || c == '\n' || c == '\r' || c == ' ' || c == 12 as char
  }

  /** Where the parts of a match lie: spaces1 is the end of the first run of spaces, and so on. */
  datatype Match = Match(start: nat, spaces1: nat, digits1: nat, spaces2: nat, spaces3: nat, end: nat)

  predicate Literal(s: string, i: nat, lit: string) {
    i + |lit| <= |s| && forall k :: 0 <= k < |lit| ==> s[i + k] == lit[k]
  }

  predicate Spaces(s: string, i: nat, j: nat) {
    i < j <= |s| && forall k :: i <= k < j ==> IsSpace(s[k])
  }

  predicate Digits(s: string, i: nat, j: nat) {
    i < j <= |s| && forall k :: i <= k < j ==> IsDigit(s[k])
  }

  const EXPECTED := "Expected"
  const ACTUAL := "Actual"

  /** m is one way in which the regular expression matches a part of s. */
  predicate Fits(s: string, m: Match) {
    && Literal(s, m.start, EXPECTED)
    && Spaces(s, m.start + 8, m.spaces1)
    && Digits(s, m.spaces1, m.digits1)
    && Literal(s, m.digits1, ",")
    && Spaces(s, m.digits1 + 1, m.spaces2)
    && Literal(s, m.spaces2, ACTUAL)
    && Spaces(s, m.spaces2 + 6, m.spaces3)
    && Digits(s, m.spaces3, m.end)
  }

  /** What the expression demands, with its words and classes written out: both ways. */
  lemma FitsMeans(s: string, m: Match)
    ensures Fits(s, m)
            <==> && m.start + 8 < m.spaces1 < m.digits1 && m.digits1 + 1 < m.spaces2 && m.spaces2 + 6 < m.spaces3 < m.end <= |s|
                 && s[m.start..m.start + 8] == "Expected"
                 && (forall c :: c in s[m.start + 8..m.spaces1] ==> c in "\t\n\U{C}\r ")
                 && (forall c :: c in s[m.spaces1..m.digits1] ==> c in "0123456789")
                 && s[m.digits1] == ','
                 && (forall c :: c in s[m.digits1 + 1..m.spaces2] ==> c in "\t\n\U{C}\r ")
                 && s[m.spaces2..m.spaces2 + 6] == "Actual"
                 && (forall c :: c in s[m.spaces2 + 6..m.spaces3] ==> c in "\t\n\U{C}\r ")
                 && (forall c :: c in s[m.spaces3..m.end] ==> c in "0123456789")
  {
    if m.start + 8 < m.spaces1 < m.digits1 && m.digits1 + 1 < m.spaces2 && m.spaces2 + 6 < m.spaces3 < m.end <= |s| {
      LiteralIs(s, m.start, "Expected");
      SpacesAre(s, m.start + 8, m.spaces1);
      DigitsAre(s, m.spaces1, m.digits1);
      LiteralIs(s, m.digits1, ",");
      assert s[m.digits1..m.digits1 + 1] == [s[m.digits1]];
      SpacesAre(s, m.digits1 + 1, m.spaces2);
      LiteralIs(s, m.spaces2, "Actual");
      SpacesAre(s, m.spaces2 + 6, m.spaces3);
      DigitsAre(s, m.spaces3, m.end);
    }
  }

  lemma LiteralIs(s: string, i: nat, lit: string)
    requires i + |lit| <= |s|
    ensures Literal(s, i, lit) <==> s[i..i + |lit|] == lit
  {
    var t := s[i..i + |lit|];
    assert forall k :: 0 <= k < |lit| ==> t[k] == s[i + k];
  }

  lemma SpacesAre(s: string, i: nat, j: nat)
    requires i < j <= |s|
    ensures Spaces(s, i, j) <==> forall c :: c in s[i..j] ==> c in "\t\n\U{C}\r "
  {
    forall c ensures IsSpace(c) <==> c in "\t\n\U{C}\r " {
      SpaceIs(c);
    }
    SliceHolds(s, i, j);
    if forall c :: c in s[i..j] ==> c in "\t\n\U{C}\r " {
      forall k | i <= k < j ensures IsSpace(s[k]) {
        assert s[k] in s[i..j];
      }
    }
  }

  lemma SpaceIs(c: char)
    ensures IsSpace(c) <==> c in "\t\n\U{C}\r "
  {
  }

  lemma DigitsAre(s: string, i: nat, j: nat)
    requires i < j <= |s|
    ensures Digits(s, i, j) <==> forall c :: c in s[i..j] ==> c in "0123456789"
  {
    forall c ensures IsDigit(c) <==> c in "0123456789" {
      DigitIs(c, 0);
    }
    SliceHolds(s, i, j);
    if forall c :: c in s[i..j] ==> c in "0123456789" {
      forall k | i <= k < j ensures IsDigit(s[k]) {
        assert s[k] in s[i..j];
      }
    }
  }

  lemma SliceHolds(s: string, i: nat, j: nat)
    requires i <= j <= |s|
    ensures forall k :: i <= k < j ==> s[k] in s[i..j]
    ensures forall c :: c in s[i..j] ==> exists k :: i <= k < j && s[k] == c
  {
    forall k | i <= k < j ensures s[k] in s[i..j] {
      assert s[i..j][k - i] == s[k];
    }
    forall c | c in s[i..j] ensures exists k :: i <= k < j && s[k] == c {
      var x :| 0 <= x < j - i && s[i..j][x] == c;
      assert s[i + x] == c;
    }
  }

  /** m is the match the engine reports: the leftmost one, and of those the one that is greedy. */
  ghost predicate Chosen(s: string, m: Match) {
    && Fits(s, m)
    && forall o: Match :: Fits(s, o) ==>
         m.start <= o.start && (m.start == o.start ==> o.(end := m.end) == m && o.end <= m.end)
  }

  /** The end of the longest run of spaces from i. */
  function SpaceRun(s: string, i: nat): (j: nat)
    requires i <= |s|
    ensures i <= j <= |s|
    decreases |s| - i
  {
    if i < |s| && IsSpace(s[i]) then SpaceRun(s, i + 1) else i
  }

  function DigitRun(s: string, i: nat): (j: nat)
    requires i <= |s|
    ensures i <= j <= |s|
    decreases |s| - i
  {
    if i < |s| && IsDigit(s[i]) then DigitRun(s, i + 1) else i
  }

  /** Matches at position i, each run taken as long as it goes. */
  function MatchAt(s: string, i: nat): (r: Option<Match>)
    requires i <= |s|
    ensures r.Some? ==> r.value.start == i
  {
    if !Literal(s, i, EXPECTED) then None else
    var spaces1 := SpaceRun(s, i + 8);
    var digits1 := DigitRun(s, spaces1);
    if spaces1 == i + 8 || digits1 == spaces1 || !Literal(s, digits1, ",") then None else
    var spaces2 := SpaceRun(s, digits1 + 1);
    if spaces2 == digits1 + 1 || !Literal(s, spaces2, ACTUAL) then None else
    var spaces3 := SpaceRun(s, spaces2 + 6);
    var end := DigitRun(s, spaces3);
    if spaces3 == spaces2 + 6 || end == spaces3 then None else
    Some(Match(i, spaces1, digits1, spaces2, spaces3, end))
  }

  function Find(s: string, i: nat): Option<Match>
    requires i <= |s|
    decreases |s| - i
  {
    if MatchAt(s, i).Some? then MatchAt(s, i)
    else if i == |s| then None
    else Find(s, i + 1)
  }

  lemma {:induction false} SpaceRunIs(s: string, i: nat, j: nat)
    requires i <= j <= |s| && (forall k :: i <= k < j ==> IsSpace(s[k])) && (j < |s| ==> !IsSpace(s[j]))
    ensures SpaceRun(s, i) == j
    decreases |s| - i
  {
    if i < j {
      SpaceRunIs(s, i + 1, j);
    }
  }

  lemma {:induction false} DigitRunAtLeast(s: string, i: nat, j: nat)
    requires i <= j <= |s| && (forall k :: i <= k < j ==> IsDigit(s[k]))
    ensures DigitRun(s, i) >= j && (j == |s| || !IsDigit(s[j]) ==> DigitRun(s, i) == j)
    decreases |s| - i
  {
    if i < j {
      DigitRunAtLeast(s, i + 1, j);
    }
  }

  lemma {:induction false} SpaceRunHolds(s: string, i: nat)
    requires i <= |s|
    ensures forall k :: i <= k < SpaceRun(s, i) ==> IsSpace(s[k])
    decreases |s| - i
  {
    if i < |s| && IsSpace(s[i]) {
      SpaceRunHolds(s, i + 1);
    }
  }

  lemma {:induction false} DigitRunHolds(s: string, i: nat)
    requires i <= |s|
    ensures forall k :: i <= k < DigitRun(s, i) ==> IsDigit(s[k])
    decreases |s| - i
  {
    if i < |s| && IsDigit(s[i]) {
      DigitRunHolds(s, i + 1);
    }
  }

  lemma MatchAtFits(s: string, i: nat)
    requires i <= |s| && MatchAt(s, i).Some?
    ensures Fits(s, MatchAt(s, i).value) && MatchAt(s, i).value.start == i
  {
    var m := MatchAt(s, i).value;
    SpaceRunHolds(s, i + 8);
    DigitRunHolds(s, m.spaces1);
    SpaceRunHolds(s, m.digits1 + 1);
    SpaceRunHolds(s, m.spaces2 + 6);
    DigitRunHolds(s, m.spaces3);
  }

  lemma ExpectedRuns(s: string, o: Match)
    requires Fits(s, o)
    ensures o.start + 8 <= |s| && SpaceRun(s, o.start + 8) == o.spaces1
    ensures DigitRun(s, o.spaces1) == o.digits1
  {
    SpaceRunIs(s, o.start + 8, o.spaces1);
    assert s[o.digits1 + 0] == ","[0];
    DigitRunAtLeast(s, o.spaces1, o.digits1);
  }

  lemma ActualRuns(s: string, o: Match)
    requires Fits(s, o)
    ensures o.digits1 + 1 <= |s| && SpaceRun(s, o.digits1 + 1) == o.spaces2
    ensures o.spaces2 + 6 <= |s| && SpaceRun(s, o.spaces2 + 6) == o.spaces3
    ensures DigitRun(s, o.spaces3) >= o.end
  {
    assert s[o.spaces2 + 0] == ACTUAL[0];
    SpaceRunIs(s, o.digits1 + 1, o.spaces2);
    SpaceRunIs(s, o.spaces2 + 6, o.spaces3);
    DigitRunAtLeast(s, o.spaces3, o.end);
  }

  /** A match leaves no choice but the length of the last run, which the scanner takes in full. */
  lemma FitsAgree(s: string, o: Match)
    requires Fits(s, o)
    ensures o.start <= |s| && MatchAt(s, o.start).Some?
    ensures var m := MatchAt(s, o.start).value; o.(end := m.end) == m && o.end <= m.end
  {
    ExpectedRuns(s, o);
    ActualRuns(s, o);
  }

  lemma {:induction false} FindFits(s: string, i: nat)
    requires i <= |s| && Find(s, i).Some?
    ensures var m := Find(s, i).value; Fits(s, m) && m.start >= i && MatchAt(s, m.start) == Some(m)
    decreases |s| - i
  {
    if MatchAt(s, i).Some? {
      MatchAtFits(s, i);
    } else {
      FindFits(s, i + 1);
    }
  }

  lemma {:induction false} FindUpTo(s: string, i: nat, k: nat)
    requires i <= k <= |s| && MatchAt(s, k).Some?
    ensures Find(s, i).Some? && Find(s, i).value.start <= k
    decreases |s| - i
  {
    if MatchAt(s, i).None? {
      FindUpTo(s, i + 1, k);
    }
  }

  lemma FindIsFirst(s: string, o: Match)
    requires Fits(s, o)
    ensures Find(s, 0).Some? && Find(s, 0).value.start <= o.start
  {
    FitsAgree(s, o);
    FindUpTo(s, 0, o.start);
  }

  /** The scanner finds exactly the match that the regular expression engine reports, if there is one. */
  lemma FindIffChosen(s: string)
    ensures forall m: Match :: Find(s, 0) == Some(m) <==> Chosen(s, m)
    ensures Find(s, 0) == None <==> forall m: Match :: !Fits(s, m)
  {
    forall o: Match | Fits(s, o) ensures Find(s, 0).Some? && Find(s, 0).value.start <= o.start {
      FindIsFirst(s, o);
    }
    if Find(s, 0).Some? {
      FindFits(s, 0);
      var f := Find(s, 0).value;
      forall o: Match | Fits(s, o)
        ensures f.start <= o.start && (f.start == o.start ==> o.(end := f.end) == f && o.end <= f.end)
      {
        FitsAgree(s, o);
      }
      assert Chosen(s, f);
      forall m: Match | Chosen(s, m) ensures m == f {
        assert Fits(s, m);
      }
    }
  }

  /* ---- ExtractVersionNumbers ---- */

  datatype ParseError = NotFound | ExpectedOutOfRange | ActualOutOfRange

  /** fmt.Sscanf of a run of digits with "%d" into an int64. */
  function ScanInt64(d: string): Option<int>
    requires AllDigits(d)
  {
    if Value(d) <= MAX_INT64 then Some(Value(d)) else None
  }

  /** The expected version, the actual version, and the error if there is one. */
  function ExtractVersionNumbers(msg: string): (int, int, Option<ParseError>) {
    var found := Find(msg, 0);
    if found.None? then (0, 0, Some(NotFound)) else
    FindFits(msg, 0);
    var m := found.value;
    var expected := ScanInt64(msg[m.spaces1..m.digits1]);
    if expected.None? then (0, 0, Some(ExpectedOutOfRange)) else
    var actual := ScanInt64(msg[m.spaces3..m.end]);
    if actual.None? then (0, 0, Some(ActualOutOfRange)) else
    (expected.value, actual.value, None)
  }

  /** The two numbers of a match. */
  function Expected(s: string, m: Match): nat
    requires Fits(s, m)
  {
    Value(s[m.spaces1..m.digits1])
  }

  function Actual(s: string, m: Match): nat
    requires Fits(s, m)
  {
    Value(s[m.spaces3..m.end])
  }

  /**
    ExtractVersionNumbers returns (e, a) exactly when the match that the expression chooses holds
    these numbers and both fit in an int64; in every other case it returns zeros and an error.
   */
  lemma ExtractIff(msg: string, e: int, a: int)
    ensures ExtractVersionNumbers(msg) == (e, a, None)
            <==> exists m: Match :: Chosen(msg, m) && Expected(msg, m) == e <= MAX_INT64 && Actual(msg, m) == a <= MAX_INT64
    ensures ExtractVersionNumbers(msg).2.Some? ==> ExtractVersionNumbers(msg).0 == ExtractVersionNumbers(msg).1 == 0
  {
    FindIffChosen(msg);
    if Find(msg, 0).Some? {
      var f := Find(msg, 0).value;
      assert Chosen(msg, f);
    }
  }

  /** Which error: no match, the expected version too large, or only the actual version too large. */
  lemma ErrorIff(msg: string)
    ensures ExtractVersionNumbers(msg).2 == Some(NotFound) <==> forall m: Match :: !Fits(msg, m)
    ensures ExtractVersionNumbers(msg).2 == Some(ExpectedOutOfRange)
            <==> exists m: Match :: Chosen(msg, m) && Expected(msg, m) > 9223372036854775807
    ensures ExtractVersionNumbers(msg).2 == Some(ActualOutOfRange)
            <==> exists m: Match :: Chosen(msg, m) && Expected(msg, m) <= 9223372036854775807 < Actual(msg, m)
  {
    FindIffChosen(msg);
    if Find(msg, 0).Some? {
      assert Chosen(msg, Find(msg, 0).value);
    }
  }

  /* ---- What surrounds the match ---- */

  /** An E occurs in a match only at its start. */
  lemma InsideNoE(s: string, m: Match, x: nat)
    requires Fits(s, m) && m.start < x < m.end
    ensures s[x] != 'E'
  {
    if x < m.start + 8 {
      assert s[m.start + (x - m.start)] == EXPECTED[x - m.start];
    } else if x == m.digits1 {
      assert s[m.digits1 + 0] == ","[0];
    } else if m.spaces2 <= x < m.spaces2 + 6 {
      assert s[m.spaces2 + (x - m.spaces2)] == ACTUAL[x - m.spaces2];
    }
  }

  lemma FitsLocally(s: string, t: string, m: Match)
    requires Fits(s, m) && m.end <= |t| && s[..m.end] == t[..m.end]
    ensures Fits(t, m)
  {
    assert forall k :: 0 <= k < m.end ==> s[k] == t[k];
  }

  /** A match that starts before an E ends before it. */
  lemma EndsBeforeE(s: string, m: Match, n: nat)
    requires Fits(s, m) && m.start < n < |s| && s[n] == 'E'
    ensures m.end <= n
  {
    if m.end > n {
      InsideNoE(s, m, n);
    }
  }

  predicate StartsWithDigit(s: string) {
    s != "" && IsDigit(s[0])
  }

  lemma SuffixKeepsChosen(s: string, m: Match, suffix: string)
    requires Chosen(s, m) && !StartsWithDigit(suffix)
    ensures Chosen(s[..m.end] + suffix, m)
  {
    var t := s[..m.end] + suffix;
    assert t[..m.end] == s[..m.end];
    FitsLocally(s, t, m);
    forall o: Match | Fits(t, o)
      ensures m.start <= o.start && (m.start == o.start ==> o.(end := m.end) == m && o.end <= m.end)
    {
      ChosenAfterCut(s, t, m, o);
    }
  }

  lemma ExtractChosen(s: string, m: Match)
    requires Chosen(s, m)
    ensures ExtractVersionNumbers(s)
            == if Expected(s, m) > MAX_INT64 then (0, 0, Some(ExpectedOutOfRange))
               else if Actual(s, m) > MAX_INT64 then (0, 0, Some(ActualOutOfRange))
               else (Expected(s, m), Actual(s, m), None)
  {
    FindIffChosen(s);
  }

  /** Text after the chosen match, beyond its last digit, never changes the result. */
  lemma SuffixIrrelevant(s: string, m: Match, suffix: string)
    requires Chosen(s, m) && !StartsWithDigit(suffix)
    ensures ExtractVersionNumbers(s[..m.end] + suffix) == ExtractVersionNumbers(s)
  {
    var t := s[..m.end] + suffix;
    SuffixKeepsChosen(s, m, suffix);
    ExtractChosen(s, m);
    ExtractChosen(t, m);
    SameNumbers(s, t, m);
  }

  lemma SameNumbers(s: string, t: string, m: Match)
    requires Fits(s, m) && Fits(t, m) && s[..m.end] == t[..m.end]
    ensures Expected(s, m) == Expected(t, m) && Actual(s, m) == Actual(t, m)
  {
    SameSlice(s, t, m.end, m.spaces1, m.digits1);
    SameSlice(s, t, m.end, m.spaces3, m.end);
  }

  lemma SameSlice(s: string, t: string, n: nat, i: nat, j: nat)
    requires i <= j <= n <= |s| && n <= |t| && s[..n] == t[..n]
    ensures s[i..j] == t[i..j]
  {
    forall k | i <= k < j ensures s[k] == t[k] {
      assert s[..n][k] == t[..n][k];
    }
  }

  lemma ChosenAfterCut(s: string, t: string, m: Match, o: Match)
    requires Chosen(s, m) && Fits(t, m) && Fits(t, o) && m.end <= |t| && t[..m.end] == s[..m.end]
    requires m.end < |t| ==> !IsDigit(t[m.end])
    ensures m.start <= o.start && (m.start == o.start ==> o.(end := m.end) == m && o.end <= m.end)
  {
    if o.start < m.start {
      assert t[m.start + 0] == EXPECTED[0];
      EndsBeforeE(t, o, m.start);
      assert t[..o.end] == t[..m.end][..o.end] == s[..m.end][..o.end] == s[..o.end];
      FitsLocally(t, s, o);
    } else if o.start == m.start {
      FitsAgree(t, o);
      FitsAgree(t, m);
    }
  }

  function Printed(e: nat, a: nat): string {
    EXPECTED + " " + Print(e) + ", " + ACTUAL + " " + Print(a)
  }

  function PrintedMatch(n: nat, e: nat, a: nat): Match {
    var d1 := n + 9 + |Print(e)|;
    Match(n, n + 9, d1, d1 + 2, d1 + 9, d1 + 9 + |Print(a)|)
  }

  lemma LiteralIn(a: string, lit: string, b: string)
    ensures Literal(a + lit + b, |a|, lit)
  {
  }

  lemma SpaceIn(a: string, b: string)
    ensures Spaces(a + " " + b, |a|, |a| + 1)
  {
  }

  lemma DigitsIn(a: string, d: string, b: string)
    requires d != "" && AllDigits(d)
    ensures Digits(a + d + b, |a|, |a| + |d|) && (a + d + b)[|a|..|a| + |d|] == d
  {
    var s := a + d + b;
    forall k | |a| <= k < |a| + |d| ensures IsDigit(s[k]) {
      assert s[k] == d[k - |a|];
    }
  }

  lemma PrintedExpected(p: string, d: string, r: string)
    requires d != "" && AllDigits(d)
    ensures var s, n := p + EXPECTED + " " + d + r, |p|;
            && Literal(s, n, EXPECTED) && Spaces(s, n + 8, n + 9) && Digits(s, n + 9, n + 9 + |d|)
            && s[n + 9..n + 9 + |d|] == d
  {
    var s := p + EXPECTED + " " + d + r;
    assert s == p + EXPECTED + (" " + d + r);
    LiteralIn(p, EXPECTED, " " + d + r);
    assert s == (p + EXPECTED) + " " + (d + r);
    SpaceIn(p + EXPECTED, d + r);
    DigitsIn(p + EXPECTED + " ", d, r);
  }

  lemma PrintedComma(p: string, r: string)
    ensures var s, n := p + ", " + r, |p|;
            Literal(s, n, ",") && Spaces(s, n + 1, n + 2)
  {
  }

  lemma PrintedActual(p: string, d: string, r: string)
    requires d != "" && AllDigits(d)
    ensures var s, n := p + ACTUAL + " " + d + r, |p|;
            && Literal(s, n, ACTUAL) && Spaces(s, n + 6, n + 7) && Digits(s, n + 7, n + 7 + |d|)
            && s[n + 7..n + 7 + |d|] == d
  {
    var s := p + ACTUAL + " " + d + r;
    assert s == p + ACTUAL + (" " + d + r);
    LiteralIn(p, ACTUAL, " " + d + r);
    assert s == (p + ACTUAL) + " " + (d + r);
    SpaceIn(p + ACTUAL, d + r);
    DigitsIn(p + ACTUAL + " ", d, r);
  }

  lemma Regrouped(prefix: string, e: string, a: string, suffix: string)
    ensures var s := prefix + (EXPECTED + " " + e + ", " + ACTUAL + " " + a) + suffix;
            var p := prefix + EXPECTED + " " + e;
            && s == prefix + EXPECTED + " " + e + (", " + ACTUAL + " " + a + suffix)
            && s == p + ", " + (ACTUAL + " " + a + suffix)
            && s == (p + ", ") + ACTUAL + " " + a + suffix
  {
  }

  lemma PrintedFits(prefix: string, e: nat, a: nat, suffix: string)
    ensures var s, m := prefix + Printed(e, a) + suffix, PrintedMatch(|prefix|, e, a);
            && Fits(s, m) && m.end == |prefix| + |Printed(e, a)|
            && s[m.spaces1..m.digits1] == Print(e) && s[m.spaces3..m.end] == Print(a)
  {
    var x, y := Print(e), Print(a);
    var p := prefix + EXPECTED + " " + x;
    Regrouped(prefix, x, y, suffix);
    PrintedExpected(prefix, x, ", " + ACTUAL + " " + y + suffix);
    PrintedComma(p, ACTUAL + " " + y + suffix);
    PrintedActual(p + ", ", y, suffix);
  }

  /** The match of a text that holds printed numbers is the printed one. */
  lemma PrintedChosen(prefix: string, e: nat, a: nat, suffix: string)
    requires forall m: Match :: !Fits(prefix, m)
    requires !StartsWithDigit(suffix)
    ensures Chosen(prefix + Printed(e, a) + suffix, PrintedMatch(|prefix|, e, a))
  {
    var s, m := prefix + Printed(e, a) + suffix, PrintedMatch(|prefix|, e, a);
    PrintedFits(prefix, e, a, suffix);
    forall o: Match | Fits(s, o)
      ensures m.start <= o.start && (m.start == o.start ==> o.(end := m.end) == m && o.end <= m.end)
    {
      if o.start < m.start {
        assert s[m.start + 0] == EXPECTED[0];
        EndsBeforeE(s, o, m.start);
        assert s[..o.end] == prefix[..o.end];
        FitsLocally(s, prefix, o);
      } else if o.start == m.start {
        FitsAgree(s, o);
        FitsAgree(s, m);
      }
    }
  }

  /** Any two printed numbers, of whatever size, are read back or refused for their size. */
  lemma PrintedRead(prefix: string, e: nat, a: nat, suffix: string)
    requires forall m: Match :: !Fits(prefix, m)
    requires !StartsWithDigit(suffix)
    ensures ExtractVersionNumbers(prefix + Printed(e, a) + suffix)
            == if e > MAX_INT64 then (0, 0, Some(ExpectedOutOfRange))
               else if a > MAX_INT64 then (0, 0, Some(ActualOutOfRange))
               else (e, a, None)
  {
    PrintedChosen(prefix, e, a, suffix);
    PrintedFits(prefix, e, a, suffix);
    ExtractChosen(prefix + Printed(e, a) + suffix, PrintedMatch(|prefix|, e, a));
    ValueOfPrint(e);
    ValueOfPrint(a);
  }

  /**
    Round trip: for all int64 versions, after any text that holds no match of its own and before
    any text that does not go on with a digit, the printed versions are read back.
   */
  lemma RoundTrip(prefix: string, e: nat, a: nat, suffix: string)
    requires e <= MAX_INT64 && a <= MAX_INT64
    requires forall m: Match :: !Fits(prefix, m)
    requires !StartsWithDigit(suffix)
    ensures ExtractVersionNumbers(prefix + Printed(e, a) + suffix) == (e, a, None)
  {
    PrintedRead(prefix, e, a, suffix);
  }

  /** The same for numbers of any size, in the words of the server. */
  lemma VersionsInWords(prefix: string, e: nat, a: nat, suffix: string)
    requires forall m: Match :: !Fits(prefix, m)
    requires suffix == "" || suffix[0] !in "0123456789"
    ensures ExtractVersionNumbers(prefix + ("Expected " + Print(e) + ", Actual " + Print(a)) + suffix)
            == if e > 9223372036854775807 then (0, 0, Some(ExpectedOutOfRange))
               else if a > 9223372036854775807 then (0, 0, Some(ActualOutOfRange))
               else (e, a, None)
  {
    if suffix != "" {
      DigitIs(suffix[0], 0);
    }
    PrintedWords(Print(e), Print(a));
    PrintedRead(prefix, e, a, suffix);
  }

  lemma PrintedWords(e: string, a: string)
    ensures EXPECTED + " " + e + ", " + ACTUAL + " " + a == "Expected " + e + ", Actual " + a
  {
    assert EXPECTED + " " == "Expected " && ", " + ACTUAL + " " == ", Actual ";
    assert EXPECTED + " " + e + ", " + ACTUAL + " " + a == (EXPECTED + " ") + e + (", " + ACTUAL + " ") + a;
  }
}
