/**
 * The rsync progress parser of `FileCopyThread.run`: each output line is
 * searched for `xfr#N, ir-chk=R/T`; a matching line sets the running count
 * `copied = T - R + offset`, and a count that is a multiple of 100 is
 * published as the fraction `copied / total_files`.
 */
module CopyProgress {
  import opened Strings
  import opened Wrappers

  /** The `ir-chk=remaining/total` pair of one progress line. */
  datatype Report = Report(remaining: nat, total: nat)

  /** Length of the run of decimal digits that begins `s`. */
  function DigitRun(s: string): (k: nat)
    ensures k <= |s|
    ensures forall j :: 0 <= j < k ==> IsDigit(s[j])
    ensures k < |s| ==> !IsDigit(s[k])
  {
    if |s| == 0 || !IsDigit(s[0]) then 0 else 1 + DigitRun(s[1..])
  }

  /**
   * The regular expression `xfr#(\d+), ir-chk=(\d+)/(\d+)` matched at index
   * `i` of `s`. Each `\d+` takes the longest run of digits: a shorter run could
   * only be followed by another digit, never by the `,` or `/` that comes next.
   */
  function MatchAt(s: string, i: nat): Option<Report>
  {
    if i <= |s| && StartsWith(s[i..], "xfr#") then MatchTransfer(s[i + 4..]) else None
  }

  /** `(\d+), ir-chk=` and the rest of the expression. */
  function MatchTransfer(a: string): Option<Report>
  {
    var d := DigitRun(a);
    if d > 0 && StartsWith(a[d..], ", ir-chk=") then MatchRemaining(a[d + 9..]) else None
  }

  /** `(\d+)/` and the rest of the expression. */
  function MatchRemaining(c: string): Option<Report>
  {
    var d := DigitRun(c);
    if d > 0 && StartsWith(c[d..], "/") then MatchTotal(DigitsValue(c[..d]), c[d + 1..]) else None
  }

  /** The final `(\d+)`. */
  function MatchTotal(remaining: nat, e: string): Option<Report>
  {
    var d := DigitRun(e);
    if d > 0 then Some(Report(remaining, DigitsValue(e[..d]))) else None
  }

  /** The match at each index of `s` (index `|s|` included, where only the empty string starts). */
  function Matches(s: string): (ms: seq<Option<Report>>)
    ensures |ms| == |s| + 1
  {
    seq(|s| + 1, k requires 0 <= k <= |s| => MatchAt(s, k))
  }

  /** The first present element at index `i` or later. */
  function FirstFrom(ms: seq<Option<Report>>, i: nat): Option<Report>
    decreases |ms| - i
  {
    if i >= |ms| then None
    else if ms[i].Some? then ms[i]
    else FirstFrom(ms, i + 1)
  }

  /** `m[0]` of `re.findall(...)`: the leftmost match, or `None` when the list is empty. */
  function FindReport(s: string): Option<Report>
  {
    FirstFrom(Matches(s), 0)
  }

  lemma {:induction false} FirstFromLeftmost(ms: seq<Option<Report>>, i: nat)
    ensures FirstFrom(ms, i).Some? <==> exists k :: i <= k < |ms| && ms[k].Some?
    ensures FirstFrom(ms, i).Some? ==>
              exists k :: i <= k < |ms| && ms[k] == FirstFrom(ms, i) && forall j :: i <= j < k ==> ms[j].None?
    decreases |ms| - i
  {
    if i < |ms| && ms[i].None? {
      FirstFromLeftmost(ms, i + 1);
      if exists k :: i <= k < |ms| && ms[k].Some? {
        var k :| i <= k < |ms| && ms[k].Some?;
        assert k != i;
      }
    }
  }

  lemma {:induction false} FirstFromSkips(ms: seq<Option<Report>>, i: nat, p: nat)
    requires i <= p < |ms|
    requires forall j :: i <= j < p ==> ms[j].None?
    ensures FirstFrom(ms, i) == FirstFrom(ms, p)
    decreases p - i
  {
    if i < p {
      FirstFromSkips(ms, i + 1, p);
    }
  }

  /** A line yields a report exactly when the expression matches somewhere, and then it is the leftmost match. */
  lemma FindReportLeftmost(s: string)
    ensures var ms := Matches(s);
            && (FindReport(s).Some? <==> exists k :: 0 <= k < |ms| && ms[k].Some?)
            && (FindReport(s).Some? ==>
                  exists k :: 0 <= k < |ms| && ms[k] == FindReport(s) && forall j :: 0 <= j < k ==> ms[j].None?)
  {
    FirstFromLeftmost(Matches(s), 0);
  }

  /** A progress line as rsync prints it, between any prefix and suffix. */
  function ProgressLine(prefix: string, xfr: nat, remaining: nat, total: nat, suffix: string): string
  {
    prefix + "xfr#" + NatToString(xfr) + ", ir-chk=" + NatToString(remaining) + "/" + NatToString(total) + suffix
  }

  /** What follows `xfr#` in a progress line. */
  function Tail(xfr: nat, remaining: nat, total: nat, suffix: string): string
  {
    NatToString(xfr) + (", ir-chk=" + (NatToString(remaining) + ("/" + (NatToString(total) + suffix))))
  }

  lemma ProgressLineShape(prefix: string, xfr: nat, remaining: nat, total: nat, suffix: string)
    ensures ProgressLine(prefix, xfr, remaining, total, suffix) == prefix + ("xfr#" + Tail(xfr, remaining, total, suffix))
  {
  }

  /**
   * Printing a progress line and parsing it gives back its pair, provided the
   * prefix holds no `xfr#` and the suffix does not continue the last number.
   */
  lemma ProgressLineRoundTrip(prefix: string, xfr: nat, remaining: nat, total: nat, suffix: string)
    requires !Contains(prefix, "xfr#")
    requires suffix == "" || !IsDigit(suffix[0])
    ensures FindReport(ProgressLine(prefix, xfr, remaining, total, suffix)) == Some(Report(remaining, total))
  {
    var rest := Tail(xfr, remaining, total, suffix);
    var s := prefix + ("xfr#" + rest);
    ProgressLineShape(prefix, xfr, remaining, total, suffix);
    MatchAtTag(s, |prefix|, rest);
    TailMatches(xfr, remaining, total, suffix);
    forall j | 0 <= j < |prefix|
      ensures !StartsWith(s[j..], "xfr#")
    {
      NoTagInPrefix(prefix, rest, j);
    }
    FirstMatchAt(s, |prefix|);
  }

  /** The leftmost `xfr#` that starts a match gives the report. */
  lemma FirstMatchAt(s: string, p: nat)
    requires p <= |s| && MatchAt(s, p).Some?
    requires forall j :: 0 <= j < p ==> !StartsWith(s[j..], "xfr#")
    ensures FindReport(s) == MatchAt(s, p)
  {
    var ms := Matches(s);
    forall j | 0 <= j < p
      ensures ms[j].None?
    {
      assert ms[j] == MatchAt(s, j);
    }
    FirstFromSkips(ms, 0, p);
    assert ms[p] == MatchAt(s, p);
  }

  lemma MatchAtTag(s: string, i: nat, rest: string)
    requires i <= |s| && s[i..] == "xfr#" + rest
    ensures MatchAt(s, i) == MatchTransfer(rest)
  {
    StartsWithConcat("xfr#", rest);
    assert s[i + 4..] == s[i..][4..] == rest;
  }

  /** The text after `xfr#` matches the rest of the expression. */
  lemma TailMatches(xfr: nat, remaining: nat, total: nat, suffix: string)
    requires suffix == "" || !IsDigit(suffix[0])
    ensures MatchTransfer(Tail(xfr, remaining, total, suffix)) == Some(Report(remaining, total))
  {
    var n1, n2, n3 := NatToString(xfr), NatToString(remaining), NatToString(total);
    var u := n2 + ("/" + (n3 + suffix));
    NumberThen(n1, ", ir-chk=", u);
    assert MatchTransfer(n1 + (", ir-chk=" + u)) == MatchRemaining(u);
    NumberThen(n2, "/", n3 + suffix);
    assert MatchRemaining(u) == MatchTotal(DigitsValue(n2), n3 + suffix);
    NatToStringRoundTrip(remaining);
    NatToStringRoundTrip(total);
    DigitRunOf(n3, suffix);
    assert (n3 + suffix)[..|n3|] == n3;
  }

  /** A number followed by a non-digit separator: its digits, the separator and the rest, in place. */
  lemma NumberThen(digits: string, sep: string, rest: string)
    requires |digits| > 0 && AllDigits(digits)
    requires |sep| > 0 && !IsDigit(sep[0])
    ensures var t := digits + (sep + rest);
            && DigitRun(t) == |digits|
            && t[..|digits|] == digits
            && StartsWith(t[|digits|..], sep)
            && t[|digits| + |sep|..] == rest
  {
    var t := digits + (sep + rest);
    DigitRunOf(digits, sep + rest);
    assert t[|digits|..] == sep + rest;
    StartsWithConcat(sep, rest);
  }

  lemma {:induction false} DigitRunOf(digits: string, rest: string)
    requires |digits| > 0 && AllDigits(digits)
    requires rest == "" || !IsDigit(rest[0])
    ensures DigitRun(digits + rest) == |digits|
    decreases |digits|
  {
    assert (digits + rest)[1..] == digits[1..] + rest;
    if |digits| == 1 {
      assert digits[1..] + rest == rest;
    } else {
      DigitRunOf(digits[1..], rest);
    }
  }

  /**
   * No `xfr#` starts inside the prefix: one wholly inside it would be an
   * occurrence in the prefix, and none can straddle its end because no proper
   * suffix of `xfr#` begins with `x`.
   */
  lemma NoTagInPrefix(prefix: string, rest: string, j: nat)
    requires !Contains(prefix, "xfr#") && j < |prefix|
    ensures !StartsWith((prefix + ("xfr#" + rest))[j..], "xfr#")
  {
    var s := prefix + ("xfr#" + rest);
    var p := |prefix|;
    if j + 4 <= p {
      if StartsWith(s[j..], "xfr#") {
        assert prefix[j..j + 4] == s[j..][..4];
        ContainsIffOccurs(prefix, "xfr#");
        assert OccursAt(prefix, "xfr#", j);
      }
    } else {
      var d := p - j;
      assert s[j..][d] == s[p] == 'x';
      assert d == 1 || d == 2 || d == 3;
      assert "xfr#"[d] != 'x';
    }
  }

  /** `num_files_copied` after a matching line. */
  function Copied(r: Report, offset: int): int
  {
    r.total - r.remaining + offset
  }

  /**
   * What the thread has done after some lines: the value of
   * `num_files_copied`, the counts it published, and whether
   * `update_progress` has raised `ZeroDivisionError` (which ends the thread).
   */
  datatype RunState = RunState(copied: int, published: seq<int>, crashed: bool)

  /** One iteration of the loop of `run`. */
  function Step(st: RunState, line: string, offset: int, totalFiles: int): RunState
  {
    if st.crashed then st
    else
      match FindReport(line)
      case None => st
      case Some(r) =>
        var c := Copied(r, offset);
        if c % 100 != 0 then RunState(c, st.published, false)
        else if totalFiles == 0 then RunState(c, st.published, true)
        else RunState(c, st.published + [c], false)
  }

  /** The loop of `run` over the first lines of rsync's output. */
  function RunOf(lines: seq<string>, offset: int, totalFiles: int): RunState
    decreases |lines|
  {
    if |lines| == 0 then RunState(0, [], false)
    else Step(RunOf(lines[..|lines| - 1], offset, totalFiles), lines[|lines| - 1], offset, totalFiles)
  }

  lemma RunOfSnoc(lines: seq<string>, i: nat, offset: int, totalFiles: int)
    requires i < |lines|
    ensures RunOf(lines[..i + 1], offset, totalFiles) == Step(RunOf(lines[..i], offset, totalFiles), lines[i], offset, totalFiles)
  {
    assert lines[..i + 1][..i] == lines[..i];
  }

  /** Once `update_progress` has raised, the thread is over: later lines change nothing. */
  lemma {:induction false} CrashIsFinal(lines: seq<string>, i: nat, offset: int, totalFiles: int)
    requires i <= |lines| && RunOf(lines[..i], offset, totalFiles).crashed
    ensures RunOf(lines, offset, totalFiles) == RunOf(lines[..i], offset, totalFiles)
    decreases |lines| - i
  {
    if i < |lines| {
      RunOfSnoc(lines, i, offset, totalFiles);
      CrashIsFinal(lines, i + 1, offset, totalFiles);
    } else {
      assert lines[..i] == lines;
    }
  }

  /** The `offset` the thread leaves behind: the last count, or the old offset if it stopped on an error. */
  function FinalOffset(lines: seq<string>, offset: int, totalFiles: int): int
  {
    var st := RunOf(lines, offset, totalFiles);
    if st.crashed then offset else st.copied
  }

  /** The counts of the matching lines, in order (a reference definition). */
  function Counts(lines: seq<string>, offset: int): seq<int>
    decreases |lines|
  {
    if |lines| == 0 then []
    else
      var last := lines[|lines| - 1];
      Counts(lines[..|lines| - 1], offset) + (if FindReport(last).Some? then [Copied(FindReport(last).value, offset)] else [])
  }

  /** The counts that are multiples of 100, in order. */
  function Multiples(counts: seq<int>): seq<int>
    decreases |counts|
  {
    if |counts| == 0 then []
    else Multiples(counts[..|counts| - 1]) + (if counts[|counts| - 1] % 100 == 0 then [counts[|counts| - 1]] else [])
  }

  /**
   * With a non-zero total, the thread publishes exactly the counts of the
   * matching lines that are multiples of 100, in order, and ends with
   * `num_files_copied` equal to the last count (0 if no line matched).
   */
  lemma {:induction false} RunPublishesMultiples(lines: seq<string>, offset: int, totalFiles: int)
    requires totalFiles != 0
    ensures var st := RunOf(lines, offset, totalFiles);
            var cs := Counts(lines, offset);
            && !st.crashed
            && st.published == Multiples(cs)
            && st.copied == (if |cs| == 0 then 0 else cs[|cs| - 1])
    decreases |lines|
  {
    if |lines| > 0 {
      var init := lines[..|lines| - 1];
      RunPublishesMultiples(init, offset, totalFiles);
      var cs := Counts(init, offset);
      var last := lines[|lines| - 1];
      if FindReport(last).Some? {
        var c := Copied(FindReport(last).value, offset);
        assert Counts(lines, offset) == cs + [c];
        assert (cs + [c])[..|cs|] == cs;
      } else {
        assert Counts(lines, offset) == cs + [];
        assert cs + [] == cs;
      }
    }
  }

  /** With `total_files == 0`, the first count due for publication ends the thread and nothing is published. */
  lemma {:induction false} RunWithZeroTotal(lines: seq<string>, offset: int)
    ensures var st := RunOf(lines, offset, 0);
            && st.published == []
            && (st.crashed <==> |Multiples(Counts(lines, offset))| > 0)
    decreases |lines|
  {
    if |lines| > 0 {
      var init := lines[..|lines| - 1];
      RunWithZeroTotal(init, offset);
      var cs := Counts(init, offset);
      var last := lines[|lines| - 1];
      if FindReport(last).Some? {
        var c := Copied(FindReport(last).value, offset);
        assert Counts(lines, offset) == cs + [c];
        assert (cs + [c])[..|cs|] == cs;
      } else {
        assert Counts(lines, offset) == cs + [];
        assert cs + [] == cs;
      }
    }
  }

  /** A line without a progress report changes nothing. */
  lemma NonMatchingLineIgnored(lines: seq<string>, line: string, offset: int, totalFiles: int)
    requires FindReport(line).None?
    ensures RunOf(lines + [line], offset, totalFiles) == RunOf(lines, offset, totalFiles)
  {
    assert (lines + [line])[..|lines|] == lines;
  }

  /** Every published count is a multiple of 100. */
  lemma PublishedAreMultiples(lines: seq<string>, offset: int, totalFiles: int)
    ensures forall k :: 0 <= k < |RunOf(lines, offset, totalFiles).published| ==> RunOf(lines, offset, totalFiles).published[k] % 100 == 0
    decreases |lines|
  {
    if |lines| > 0 {
      PublishedAreMultiples(lines[..|lines| - 1], offset, totalFiles);
    }
  }

  /**
   * `ir-chk=40/100` with offset 0 gives a count of 60, which is not a multiple
   * of 100: nothing is published for it, whatever `total_files` is.
   */
  lemma FortyOfHundredPublishesNothing(xfr: nat, remaining: nat, total: nat, totalFiles: int)
    requires remaining == 40 && total == 100
    ensures var line := ProgressLine("", xfr, remaining, total, "\n");
            && FindReport(line) == Some(Report(40, 100))
            && RunOf([line], 0, totalFiles) == RunState(60, [], false)
  {
    var line := ProgressLine("", xfr, remaining, total, "\n");
    ProgressLineRoundTrip("", xfr, remaining, total, "\n");
    assert [line][..0] == [];
    assert RunOf([line], 0, totalFiles) == Step(RunState(0, [], false), line, 0, totalFiles);
    assert Copied(Report(40, 100), 0) == 60;
  }

  /**
   * Published counts need not grow: when rsync's running total grows between
   * two lines, a later count can be smaller than an earlier one.
   */
  lemma PublishedCanDecrease(x1: nat, r1: nat, t1: nat, x2: nat, r2: nat, t2: nat, totalFiles: int)
    requires r1 == 0 && t1 == 200 && r2 == 200 && t2 == 300 && totalFiles != 0
    ensures var lines := [ProgressLine("", x1, r1, t1, "\n"), ProgressLine("", x2, r2, t2, "\n")];
            RunOf(lines, 0, totalFiles).published == [200, 100]
  {
    ProgressLineRoundTrip("", x1, r1, t1, "\n");
    ProgressLineRoundTrip("", x2, r2, t2, "\n");
    TwoReports(ProgressLine("", x1, r1, t1, "\n"), ProgressLine("", x2, r2, t2, "\n"), totalFiles);
  }

  lemma TwoReports(l1: string, l2: string, totalFiles: int)
    requires FindReport(l1) == Some(Report(0, 200)) && FindReport(l2) == Some(Report(200, 300))
    requires totalFiles != 0
    ensures RunOf([l1, l2], 0, totalFiles) == RunState(100, [200, 100], false)
  {
    RunOfTwo(l1, l2, 0, totalFiles);
    assert Copied(Report(0, 200), 0) == 200;
    assert 200 % 100 == 0;
    StepPublishes(RunState(0, [], false), l1, 0, totalFiles, Report(0, 200), 200);
    assert [] + [200] == [200];
    StepPublishes(RunState(200, [200], false), l2, 0, totalFiles, Report(200, 300), 100);
    assert [200] + [100] == [200, 100];
  }

  /** A line whose count is a multiple of 100 publishes it, with a non-zero total. */
  lemma StepPublishes(st: RunState, line: string, offset: int, totalFiles: int, r: Report, c: int)
    requires !st.crashed && FindReport(line) == Some(r) && totalFiles != 0
    requires c == Copied(r, offset) && c % 100 == 0
    ensures Step(st, line, offset, totalFiles) == RunState(c, st.published + [c], false)
  {
  }

  lemma RunOfTwo(l1: string, l2: string, offset: int, totalFiles: int)
    ensures RunOf([l1, l2], offset, totalFiles)
         == Step(Step(RunState(0, [], false), l1, offset, totalFiles), l2, offset, totalFiles)
  {
    var two, one := [l1, l2], [l1];
    assert two[..1] == one && two[1] == l2;
    assert one[..0] == [] && one[0] == l1;
    assert RunOf(one, offset, totalFiles) == Step(RunOf([], offset, totalFiles), l1, offset, totalFiles);
  }
}
