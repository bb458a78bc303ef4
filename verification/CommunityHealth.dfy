/** The health score of a community (src/admin-communities/admin-communities-response.ts). */
module CommunityHealth {
  import opened Wrappers
  import opened CommunityReports
  import opened CommunityDashboard

  const SAFETY_LOAD_SCALE := 500.0
  const OVERDUE_PENALTY := 6.0

  datatype HealthBreakdown = HealthBreakdown(memberActivity: int, reportResolution: int,
    memberSentiment: Option<int>, safetyLoad: int)

  /** `Math.round`: halves go up. */
  function Round(x: real): int { (x + 0.5).Floor }

  function ClampToPercentage(x: real): int {
    var r := Round(x);
    if r < 0 then 0 else if r > 100 then 100 else r
  }

  function Ratio(part: real, members: nat): real { if members > 0 then part / members as real else part }

  function SafetyLoad(n: Numbers): int {
    var load := Ratio(n.totals.load as real, n.memberCount);
    ClampToPercentage(100.0 - load * SAFETY_LOAD_SCALE - n.totals.overdue as real * OVERDUE_PENALTY)
  }

  function ReportResolution(t: Totals): int {
    if t.total > 0 then ClampToPercentage(100.0 * (t.total - t.open) as real / t.total as real) else 100
  }

  function ComputeHealthBreakdown(n: Numbers): HealthBreakdown {
    HealthBreakdown(
      if n.memberCount > 0 then ClampToPercentage(100.0 * n.activeThisWeek as real / n.memberCount as real) else 0,
      ReportResolution(n.totals),
      None,
      SafetyLoad(n))
  }

  function MeasuredSignals(b: HealthBreakdown): seq<int> {
    [b.memberActivity, b.reportResolution] + (if b.memberSentiment.Some? then [b.memberSentiment.value] else [])
      + [b.safetyLoad]
  }

  function Total(s: seq<int>): int { if s == [] then 0 else Total(s[..|s| - 1]) + s[|s| - 1] }

  function ComputeHealthScore(b: HealthBreakdown): int {
    var signals := MeasuredSignals(b);
    Round(Total(signals) as real / |signals| as real)
  }

  lemma {:induction false} TotalOfMore(s: seq<int>, x: int)
    ensures Total(s + [x]) == Total(s) + x
  {
    assert (s + [x])[..|s|] == s;
  }

  lemma {:induction false} TotalOfThree(x: int, y: int, z: int)
    ensures Total([x, y, z]) == x + y + z
  {
    TotalOfMore([], x);
    TotalOfMore([x], y);
    TotalOfMore([x, y], z);
    assert [] + [x] == [x] && [x] + [y] == [x, y] && [x, y] + [z] == [x, y, z];
  }

  /** The sentiment signal has no data yet, so it is skipped rather than counted as nought. */
  lemma {:induction false} ScoreIsTheMeanOfThree(b: HealthBreakdown)
    requires b.memberSentiment == None
    ensures ComputeHealthScore(b) == Round((b.memberActivity + b.reportResolution + b.safetyLoad) as real / 3.0)
  {
    assert MeasuredSignals(b) == [b.memberActivity, b.reportResolution, b.safetyLoad];
    TotalOfThree(b.memberActivity, b.reportResolution, b.safetyLoad);
  }

  lemma {:induction false} RoundGrows(x: real, y: real)
    requires x <= y
    ensures Round(x) <= Round(y) && ClampToPercentage(x) <= ClampToPercentage(y)
  {
  }

  lemma {:induction false} QuotientGrows(x: real, y: real, d: real)
    requires x <= y && d > 0.0
    ensures x / d <= y / d
  {
  }

  /** Every community's score is a percentage, whatever its numbers. */
  lemma {:induction false} ScoreIsPercentage(n: Numbers)
    ensures 0 <= ComputeHealthScore(ComputeHealthBreakdown(n)) <= 100
  {
    ScoreIsTheMeanOfThree(ComputeHealthBreakdown(n));
  }

  /** With the same members and reports, more of them open, late or severe never scores higher. */
  lemma {:induction false} MoreTroubleNeverScoresHigher(a: Numbers, b: Numbers)
    requires a.memberCount == b.memberCount && a.activeThisWeek == b.activeThisWeek && a.totals.total == b.totals.total
    requires a.totals.open <= b.totals.open && a.totals.overdue <= b.totals.overdue && a.totals.load <= b.totals.load
    ensures ComputeHealthScore(ComputeHealthBreakdown(b)) <= ComputeHealthScore(ComputeHealthBreakdown(a))
  {
    var x, y := ComputeHealthBreakdown(b), ComputeHealthBreakdown(a);
    ScoreIsTheMeanOfThree(x);
    ScoreIsTheMeanOfThree(y);
    ResolutionFalls(a.totals, b.totals);
    SafetyFalls(a, b);
    var low := x.memberActivity + x.reportResolution + x.safetyLoad;
    var high := y.memberActivity + y.reportResolution + y.safetyLoad;
    QuotientGrows(low as real, high as real, 3.0);
    RoundGrows(low as real / 3.0, high as real / 3.0);
  }

  lemma {:induction false} ResolutionFalls(a: Totals, b: Totals)
    requires a.total == b.total && a.open <= b.open
    ensures ReportResolution(b) <= ReportResolution(a)
  {
    if a.total > 0 {
      var left, right := 100.0 * (a.total - b.open) as real, 100.0 * (a.total - a.open) as real;
      QuotientGrows(left, right, a.total as real);
      RoundGrows(left / a.total as real, right / a.total as real);
    }
  }

  lemma {:induction false} SafetyFalls(a: Numbers, b: Numbers)
    requires a.memberCount == b.memberCount && a.totals.overdue <= b.totals.overdue && a.totals.load <= b.totals.load
    ensures SafetyLoad(b) <= SafetyLoad(a)
  {
    if a.memberCount > 0 {
      QuotientGrows(a.totals.load as real, b.totals.load as real, a.memberCount as real);
    }
    var loadA, loadB := Ratio(a.totals.load as real, a.memberCount), Ratio(b.totals.load as real, b.memberCount);
    RoundGrows(
      100.0 - loadB * SAFETY_LOAD_SCALE - b.totals.overdue as real * OVERDUE_PENALTY,
      100.0 - loadA * SAFETY_LOAD_SCALE - a.totals.overdue as real * OVERDUE_PENALTY);
  }

  predicate NoWorse(a: Totals, b: Totals) {
    a.total == b.total && a.open <= b.open && a.overdue <= b.overdue && a.load <= b.load
  }

  lemma {:induction false} ResolvingEasesTheTotals(share: seq<Report>, i: nat, closed: Report, now: int)
    requires i < |share| && !closed.status.Open?
    ensures NoWorse(TotalsOf(share[i := closed], now), TotalsOf(share, now))
  {
    var n := |share|;
    var before, last := share[..n - 1], share[n - 1];
    assert share == before + [last];
    CountingOneMore(before, last, now);
    if i == n - 1 {
      assert share[i := closed] == before + [closed];
      CountingOneMore(before, closed, now);
    } else {
      ResolvingEasesTheTotals(before, i, closed, now);
      assert share[i := closed] == before[i := closed] + [last];
      CountingOneMore(before[i := closed], last, now);
      CountingKeepsNoWorse(TotalsOf(before[i := closed], now), TotalsOf(before, now), last, now);
    }
  }

  lemma {:induction false} CountingKeepsNoWorse(a: Totals, b: Totals, r: Report, now: int)
    requires NoWorse(a, b)
    ensures NoWorse(Counted(a, r, now), Counted(b, r, now))
  {
  }

  /** Closing a report, whichever it is, never lowers its community's score. */
  lemma {:induction false} ResolvingNeverLowersTheScore(
      n: Numbers, share: seq<Report>, i: nat, closed: Report, now: int)
    requires i < |share| && !closed.status.Open?
    ensures ComputeHealthScore(ComputeHealthBreakdown(n.(totals := TotalsOf(share, now))))
         <= ComputeHealthScore(ComputeHealthBreakdown(n.(totals := TotalsOf(share[i := closed], now))))
  {
    ResolvingEasesTheTotals(share, i, closed, now);
    MoreTroubleNeverScoresHigher(n.(totals := TotalsOf(share[i := closed], now)), n.(totals := TotalsOf(share, now)));
  }

  // ------------------------------------------------------------------- the signals as numbers

  /** `r` is `part / whole` to the nearest integer, halves up. */
  predicate IsNearest(r: int, part: int, whole: int) { (2 * r - 1) * whole <= 2 * part < (2 * r + 1) * whole }

  /** A percentage: the nearest integer, cut off at 0 and 100. */
  ghost predicate IsPercentage(p: int, part: int, whole: int) {
    exists r :: IsNearest(r, part, whole) && p == if r < 0 then 0 else if r > 100 then 100 else r
  }

  lemma {:induction false} Scales(x: real, y: real, w: real, xw: real, yw: real)
    requires x <= y && w > 0.0 && xw == x * w && yw == y * w
    ensures xw <= yw && (x < y ==> xw < yw)
  {
    assert (y - x) * w >= 0.0 && (x < y ==> (y - x) * w > 0.0);
    assert (y - x) * w == y * w - x * w;
  }

  lemma {:induction false} TimesMore(x: real, more: real, w: real, xw: real, yw: real)
    requires xw == x * w && yw == (x + more) * w
    ensures yw == xw + more * w
  {
  }

  lemma {:induction false} NearestByParts(r: int, rw: int, part: int, whole: int)
    requires rw == r * whole && 2 * rw - whole <= 2 * part < 2 * rw + whole
    ensures IsNearest(r, part, whole)
  {
  }

  lemma {:induction false} HalfAWayAtMost(x: real, r: real, w: real, part: real, rw: real)
    requires r <= x + 0.5 < r + 1.0 && w > 0.0 && part == x * w && rw == r * w
    ensures rw - 0.5 * w <= part < rw + 0.5 * w
  {
    var middle, high := (x + 0.5) * w, (r + 1.0) * w;
    Scales(r, x + 0.5, w, rw, middle);
    Scales(x + 0.5, r + 1.0, w, middle, high);
    TimesMore(x, 0.5, w, part, middle);
    TimesMore(r, 1.0, w, rw, high);
  }

  lemma {:induction false} RoundIsNearest(x: real, part: int, whole: int)
    requires whole > 0 && x * whole as real == part as real
    ensures IsNearest(Round(x), part, whole)
  {
    var r, w := Round(x), whole as real;
    var rw := r * whole;
    assert rw as real == r as real * w;
    HalfAWayAtMost(x, r as real, w, part as real, rw as real);
    assert (2 * rw - whole) as real <= (2 * part) as real < (2 * rw + whole) as real;
    NearestByParts(r, rw, part, whole);
  }

  lemma {:induction false} ClampIsPercentage(x: real, part: int, whole: int)
    requires whole > 0 && x * whole as real == part as real
    ensures IsPercentage(ClampToPercentage(x), part, whole)
  {
    RoundIsNearest(x, part, whole);
  }

  /** Activity: the members who posted or replied this week, of all members. */
  lemma {:induction false} ActivityIs(n: Numbers)
    ensures var activity := ComputeHealthBreakdown(n).memberActivity;
            if n.memberCount == 0 then activity == 0
            else IsPercentage(activity, 100 * n.activeThisWeek, n.memberCount)
  {
    if n.memberCount > 0 {
      ClampIsPercentage(
        100.0 * n.activeThisWeek as real / n.memberCount as real, 100 * n.activeThisWeek, n.memberCount);
    }
  }

  /** Resolution: the reports that are not open, of all reports. */
  lemma {:induction false} ResolutionIs(n: Numbers)
    ensures var resolution, t := ComputeHealthBreakdown(n).reportResolution, n.totals;
            if t.total == 0 then resolution == 100
            else IsPercentage(resolution, 100 * (t.total - t.open), t.total)
  {
    var t := n.totals;
    if t.total > 0 {
      ClampIsPercentage(100.0 * (t.total - t.open) as real / t.total as real, 100 * (t.total - t.open), t.total);
    }
  }

  /** Safety: 100, less 500 for every unit of weight per member and 6 for every overdue report. */
  lemma {:induction false} SafetyIs(n: Numbers)
    ensures var members := if n.memberCount == 0 then 1 else n.memberCount;
            IsPercentage(ComputeHealthBreakdown(n).safetyLoad,
              (100 - 6 * n.totals.overdue) * members - 500 * n.totals.load, members)
  {
    var members := if n.memberCount == 0 then 1 else n.memberCount;
    var m, load, overdue := members as real, n.totals.load as real, n.totals.overdue as real;
    var x := 100.0 - Ratio(load, n.memberCount) * SAFETY_LOAD_SCALE - overdue * OVERDUE_PENALTY;
    assert Ratio(load, n.memberCount) * m == load;
    assert x * m == (100.0 - overdue * 6.0) * m - 500.0 * (Ratio(load, n.memberCount) * m);
    assert ((100 - 6 * n.totals.overdue) * members) as real == (100.0 - overdue * 6.0) * m;
    ClampIsPercentage(x, (100 - 6 * n.totals.overdue) * members - 500 * n.totals.load, members);
  }

  /** The score: the mean of the three, to the nearest integer. */
  lemma {:induction false} ScoreIs(n: Numbers)
    ensures var b := ComputeHealthBreakdown(n);
            IsNearest(ComputeHealthScore(b), b.memberActivity + b.reportResolution + b.safetyLoad, 3)
  {
    var b := ComputeHealthBreakdown(n);
    var sum := b.memberActivity + b.reportResolution + b.safetyLoad;
    ScoreIsTheMeanOfThree(b);
    RoundIsNearest(sum as real / 3.0, sum, 3);
  }
}
