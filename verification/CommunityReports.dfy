/**
 * How reports reach the communities of the admin dashboard: the attribution and its totals
 * (src/admin-communities/community-report-scope.ts), the lookups it is given, and the open queue of one
 * community (src/admin-communities/admin-communities.service.ts).
 */
module CommunityReports {
  import opened Wrappers

  type Id = string

  datatype SubjectType = Post | Reply | EventPhoto | Community

  datatype Status = Open | Resolved | Escalated

  datatype Severity = Emergency | High | Medium | Low

  datatype Report = Report(
    id: Id, subjectType: SubjectType, subjectId: string, severity: Severity, reasonCode: string, detail: Option<string>,
    status: Status, slaDueAt: int, createdAt: int)

  function SeverityWeight(severity: Severity): nat {
    match severity
    case Emergency => 8
    case High => 4
    case Medium => 2
    case Low => 1
  }

  // ----------------------------------------------------------------------- attribution

  datatype Scope = Scope(communityOfContent: map<string, Id>, communityOfSlug: map<string, Id>)

  function Lookup(m: map<string, Id>, key: string): Option<Id> { if key in m then Some(m[key]) else None }

  function CommunityOf(scope: Scope, r: Report): Option<Id> {
    Lookup(if r.subjectType.Community? then scope.communityOfSlug else scope.communityOfContent, r.subjectId)
  }

  /** The reports that fall to one community, in their order, among the first `n`. */
  function Share(reports: seq<Report>, n: nat, scope: Scope, community: Id): seq<Report>
    requires n <= |reports|
  {
    if n == 0 then []
    else
      var before := Share(reports, n - 1, scope, community);
      if CommunityOf(scope, reports[n - 1]) == Some(community) then before + [reports[n - 1]] else before
  }

  predicate IsOverdue(r: Report, now: int) { r.slaDueAt < now }

  function OpenOf(reports: seq<Report>): seq<Report> {
    if reports == [] then []
    else
      var before, last := OpenOf(reports[..|reports| - 1]), reports[|reports| - 1];
      if last.status.Open? then before + [last] else before
  }

  function OverdueCount(reports: seq<Report>, now: int): nat {
    if reports == [] then 0
    else OverdueCount(reports[..|reports| - 1], now) + if IsOverdue(reports[|reports| - 1], now) then 1 else 0
  }

  function Load(reports: seq<Report>): nat {
    if reports == [] then 0 else Load(reports[..|reports| - 1]) + SeverityWeight(reports[|reports| - 1].severity)
  }

  lemma {:induction false} Snoc(s: seq<Report>, r: Report, now: int)
    ensures OpenOf(s + [r]) == if r.status.Open? then OpenOf(s) + [r] else OpenOf(s)
    ensures Load(s + [r]) == Load(s) + SeverityWeight(r.severity)
    ensures OverdueCount(s + [r], now) == OverdueCount(s, now) + if IsOverdue(r, now) then 1 else 0
  {
    assert (s + [r])[..|s|] == s;
  }

  datatype Totals = Totals(total: nat, open: nat, overdue: nat, load: nat)

  /** What one community's totals should be, from its own reports alone. */
  function TotalsOf(share: seq<Report>, now: int): Totals {
    var open := OpenOf(share);
    Totals(|share|, |open|, OverdueCount(open, now), Load(open))
  }

  function Counted(t: Totals, r: Report, now: int): Totals {
    var t := t.(total := t.total + 1);
    if !r.status.Open? then t
    else
      var t := t.(open := t.open + 1, load := t.load + SeverityWeight(r.severity));
      if IsOverdue(r, now) then t.(overdue := t.overdue + 1) else t
  }

  lemma {:induction false} CountingOneMore(share: seq<Report>, r: Report, now: int)
    ensures TotalsOf(share + [r], now) == Counted(TotalsOf(share, now), r, now)
  {
    Snoc(share, r, now);
    Snoc(OpenOf(share), r, now);
  }

  ghost predicate CountsOf(totals: map<Id, Totals>, reports: seq<Report>, n: nat, scope: Scope, now: int)
    requires n <= |reports|
  {
    && (forall c :: c in totals <==> c != "" && Share(reports, n, scope, c) != [])
    && (forall c | c in totals :: totals[c] == TotalsOf(Share(reports, n, scope, c), now))
  }

  lemma {:induction false} SharesOfTheNext(
      reports: seq<Report>, n: nat, scope: Scope, now: int, totals: map<Id, Totals>, after: map<Id, Totals>)
    requires n < |reports| && CountsOf(totals, reports, n, scope, now)
    requires var c := CommunityOf(scope, reports[n]);
             after == if c == None || c == Some("") then totals
                      else totals[c.value := Counted(if c.value in totals then totals[c.value]
                      else Totals(0, 0, 0, 0), reports[n], now)]
    ensures CountsOf(after, reports, n + 1, scope, now)
  {
    var community := CommunityOf(scope, reports[n]);
    forall c ensures c in after <==> c != "" && Share(reports, n + 1, scope, c) != [] {
    }
    forall c | c in after ensures after[c] == TotalsOf(Share(reports, n + 1, scope, c), now) {
      if community == Some(c) {
        CountingOneMore(Share(reports, n, scope, c), reports[n], now);
      }
    }
  }

  /** One report on its community's record. */
  method Count(record: Totals, report: Report, now: int) returns (t: Totals)
    ensures t == Counted(record, report, now)
  {
    t := record.(total := record.total + 1);
    if report.status.Open? {
      t := t.(open := t.open + 1, load := t.load + SeverityWeight(report.severity));
      if report.slaDueAt < now {
        t := t.(overdue := t.overdue + 1);
      }
    }
  }

  /** `summariseReportsByCommunity`: one pass over the reports of every community. */
  method SummariseReportsByCommunity(reports: seq<Report>, scope: Scope, now: int) returns (totals: map<Id, Totals>)
    ensures forall c :: c in totals <==> c != "" && Share(reports, |reports|, scope, c) != []
    ensures forall c | c in totals :: totals[c] == TotalsOf(Share(reports, |reports|, scope, c), now)
  {
    totals := map[];
    for i := 0 to |reports|
      invariant CountsOf(totals, reports, i, scope, now)
    {
      ghost var before := totals;
      var report := reports[i];
      var community := CommunityOf(scope, report);
      if community.Some? && community.value != "" {
        var t := if community.value in totals then totals[community.value] else Totals(0, 0, 0, 0);
        t := Count(t, report, now);
        totals := totals[community.value := t];
      }
      SharesOfTheNext(reports, i, scope, now, before, totals);
    }
  }

  // ------------------------------------------------------------------------- the open queue

  datatype QueueItem = QueueItem(
    id: Id, severity: Severity, reasonCode: string, detail: Option<Option<string>>, status: Status, overdue: bool,
      createdAt: int)

  /** The reporter's own words are left out for anyone but platform staff. */
  function Item(r: Report, now: int, isPlatformStaffReader: bool): QueueItem {
    QueueItem(r.id, r.severity, r.reasonCode, if isPlatformStaffReader then Some(r.detail)
      else None, r.status, IsOverdue(r, now), r.createdAt)
  }

  /** Into a list sorted newest first, behind whatever is as new. */
  function Insert(sorted: seq<Report>, r: Report): seq<Report> {
    if sorted == [] || sorted[|sorted| - 1].createdAt >= r.createdAt then sorted + [r]
    else Insert(sorted[..|sorted| - 1], r) + [sorted[|sorted| - 1]]
  }

  function NewestFirst(reports: seq<Report>): seq<Report> {
    if reports == [] then [] else Insert(NewestFirst(reports[..|reports| - 1]), reports[|reports| - 1])
  }

  function OpenQueue(reports: seq<Report>, scope: Scope, community: Id): seq<Report> {
    NewestFirst(OpenOf(Share(reports, |reports|, scope, community)))
  }

  function ScopedQueueFor(
      community: Id, reports: seq<Report>, scope: Scope, now: int, isPlatformStaffReader: bool): seq<QueueItem>
  {
    var queue := OpenQueue(reports, scope, community);
    seq(|queue|, i requires 0 <= i < |queue| => Item(queue[i], now, isPlatformStaffReader))
  }

  predicate IsNewestFirst(s: seq<Report>) { forall i, j | 0 <= i < j < |s| :: s[i].createdAt >= s[j].createdAt }

  /** The reports made at one instant, in their order. */
  function MadeAt(reports: seq<Report>, t: int): seq<Report> {
    if reports == [] then []
    else
      var before, last := MadeAt(reports[..|reports| - 1], t), reports[|reports| - 1];
      if last.createdAt == t then before + [last] else before
  }

  lemma {:induction false} InsertIsPermutation(sorted: seq<Report>, r: Report)
    ensures multiset(Insert(sorted, r)) == multiset(sorted) + multiset{r}
  {
    var n := |sorted|;
    if n == 0 || sorted[n - 1].createdAt >= r.createdAt {
    } else {
      InsertIsPermutation(sorted[..n - 1], r);
      assert sorted == sorted[..n - 1] + [sorted[n - 1]];
    }
  }

  lemma {:induction false} InsertKeepsOrder(sorted: seq<Report>, r: Report)
    requires IsNewestFirst(sorted)
    ensures IsNewestFirst(Insert(sorted, r))
  {
    var n := |sorted|;
    if n == 0 || sorted[n - 1].createdAt >= r.createdAt {
    } else {
      var last, rest := sorted[n - 1], Insert(sorted[..n - 1], r);
      InsertKeepsOrder(sorted[..n - 1], r);
      InsertIsPermutation(sorted[..n - 1], r);
      forall i | 0 <= i < |rest| ensures rest[i].createdAt >= last.createdAt {
        assert rest[i] in multiset(rest);
        assert rest[i] == r || rest[i] in sorted[..n - 1];
      }
    }
  }

  lemma {:induction false} InsertKeepsTheNumbers(sorted: seq<Report>, r: Report, now: int)
    ensures Load(Insert(sorted, r)) == Load(sorted) + SeverityWeight(r.severity)
    ensures OverdueCount(Insert(sorted, r), now) == OverdueCount(sorted, now) + if IsOverdue(r, now) then 1 else 0
  {
    var n := |sorted|;
    if n == 0 || sorted[n - 1].createdAt >= r.createdAt {
      Snoc(sorted, r, now);
    } else {
      InsertKeepsTheNumbers(sorted[..n - 1], r, now);
      Snoc(Insert(sorted[..n - 1], r), sorted[n - 1], now);
    }
  }

  lemma {:induction false} InsertKeepsTies(sorted: seq<Report>, r: Report, t: int)
    requires IsNewestFirst(sorted)
    ensures MadeAt(Insert(sorted, r), t) == MadeAt(sorted, t) + if r.createdAt == t then [r] else []
  {
    var n := |sorted|;
    if n == 0 || sorted[n - 1].createdAt >= r.createdAt {
      assert (sorted + [r])[..n] == sorted;
    } else {
      var last, rest := sorted[n - 1], Insert(sorted[..n - 1], r);
      InsertKeepsTies(sorted[..n - 1], r, t);
      assert (rest + [last])[..|rest|] == rest;
      if r.createdAt == t {
        NoneMadeLater(sorted, t);
      }
    }
  }

  lemma {:induction false} NoneMadeLater(sorted: seq<Report>, t: int)
    requires sorted != [] && sorted[|sorted| - 1].createdAt < t
    ensures MadeAt(sorted, t) == MadeAt(sorted[..|sorted| - 1], t)
  {
  }

  lemma {:induction false} NumbersSurviveSorting(reports: seq<Report>, now: int)
    ensures Load(NewestFirst(reports)) == Load(reports)
        && OverdueCount(NewestFirst(reports), now) == OverdueCount(reports, now)
  {
    if reports == [] {
    } else {
      var n := |reports|;
      NumbersSurviveSorting(reports[..n - 1], now);
      InsertKeepsTheNumbers(NewestFirst(reports[..n - 1]), reports[n - 1], now);
    }
  }

  lemma {:induction false} SortingIsPermutation(reports: seq<Report>)
    ensures multiset(NewestFirst(reports)) == multiset(reports)
  {
    if reports == [] {
    } else {
      var n := |reports|;
      SortingIsPermutation(reports[..n - 1]);
      assert reports == reports[..n - 1] + [reports[n - 1]];
      InsertIsPermutation(NewestFirst(reports[..n - 1]), reports[n - 1]);
    }
  }

  /** Newest first, and reports made together keep the scan's order. */
  lemma {:induction false} QueueIsSorted(reports: seq<Report>, t: int)
    ensures IsNewestFirst(NewestFirst(reports))
    ensures MadeAt(NewestFirst(reports), t) == MadeAt(reports, t)
  {
    if reports == [] {
    } else {
      var n := |reports|;
      QueueIsSorted(reports[..n - 1], t);
      InsertKeepsOrder(NewestFirst(reports[..n - 1]), reports[n - 1]);
      InsertKeepsTies(NewestFirst(reports[..n - 1]), reports[n - 1], t);
    }
  }

  /** Every open report of the community is in its queue once, and nothing else is. */
  lemma {:induction false} OpenShareIs(reports: seq<Report>, n: nat, scope: Scope, community: Id, r: Report)
    requires n <= |reports|
    ensures multiset(OpenOf(Share(reports, n, scope, community)))[r]
         == if r.status.Open? && CommunityOf(scope, r) == Some(community) then multiset(reports[..n])[r] else 0
  {
    if n == 0 {
    } else {
      OpenShareIs(reports, n - 1, scope, community, r);
      assert reports[..n] == reports[..n - 1] + [reports[n - 1]];
      var before := Share(reports, n - 1, scope, community);
      assert (before + [reports[n - 1]])[..|before|] == before;
    }
  }

  function OverdueItems(queue: seq<QueueItem>, n: nat): nat
    requires n <= |queue|
  {
    if n == 0 then 0 else OverdueItems(queue, n - 1) + if queue[n - 1].overdue then 1 else 0
  }

  function ItemsLoad(queue: seq<QueueItem>, n: nat): nat
    requires n <= |queue|
  {
    if n == 0 then 0 else ItemsLoad(queue, n - 1) + SeverityWeight(queue[n - 1].severity)
  }

  lemma {:induction false} ItemsKeepTheNumbers(rows: seq<Report>, queue: seq<QueueItem>, n: nat, now: int, staff: bool)
    requires n <= |rows| == |queue| && forall i | 0 <= i < |rows| :: queue[i] == Item(rows[i], now, staff)
    ensures OverdueItems(queue, n) == OverdueCount(rows[..n], now) && ItemsLoad(queue, n) == Load(rows[..n])
  {
    if n == 0 {
    } else {
      ItemsKeepTheNumbers(rows, queue, n - 1, now, staff);
      assert rows[..n][..n - 1] == rows[..n - 1];
    }
  }

  /** The queue a reader opens and the numbers on the card are the same reports. */
  lemma {:induction false} QueueMatchesTotals(reports: seq<Report>, scope: Scope, community: Id, now: int, staff: bool)
    ensures var queue := ScopedQueueFor(community, reports, scope, now, staff);
            var totals := TotalsOf(Share(reports, |reports|, scope, community), now);
            && |queue| == totals.open
            && OverdueItems(queue, |queue|) == totals.overdue
            && ItemsLoad(queue, |queue|) == totals.load
  {
    var open := OpenOf(Share(reports, |reports|, scope, community));
    var rows := NewestFirst(open);
    SortingIsPermutation(open);
    NumbersSurviveSorting(open, now);
    assert |multiset(rows)| == |multiset(open)|;
    ItemsKeepTheNumbers(rows, ScopedQueueFor(community, reports, scope, now, staff), |rows|, now, staff);
    assert rows[..|rows|] == rows;
  }

  // ------------------------------------------------------------------- what the queue shows

  /** The reporter's own words travel with an item only to platform staff. */
  lemma {:induction false} ItemShows(
      community: Id, reports: seq<Report>, scope: Scope, now: int, isPlatformStaffReader: bool, i: nat)
    requires i < |OpenQueue(reports, scope, community)|
    ensures var r := OpenQueue(reports, scope, community)[i];
            var queue := ScopedQueueFor(community, reports, scope, now, isPlatformStaffReader);
            && |queue| == |OpenQueue(reports, scope, community)|
            && queue[i].id == r.id && queue[i].severity == r.severity && queue[i].reasonCode == r.reasonCode
            && queue[i].status == r.status && queue[i].createdAt == r.createdAt
            && (queue[i].overdue <==> r.slaDueAt < now)
            && (isPlatformStaffReader ==> queue[i].detail == Some(r.detail))
            && (!isPlatformStaffReader ==> queue[i].detail == None)
  {
  }

  function CountSeverity(reports: seq<Report>, severity: Severity): nat {
    if reports == [] then 0
    else CountSeverity(reports[1..], severity) + if reports[0].severity == severity then 1 else 0
  }

  lemma {:induction false} CountSeverityOneMore(reports: seq<Report>, r: Report, severity: Severity)
    ensures CountSeverity(reports + [r], severity)
         == CountSeverity(reports, severity) + if r.severity == severity then 1 else 0
  {
    if reports == [] {
      assert [r][1..] == [] && reports + [r] == [r];
    } else {
      assert (reports + [r])[1..] == reports[1..] + [r];
      CountSeverityOneMore(reports[1..], r, severity);
    }
  }

  /** An emergency weighs as much as two high reports, four of medium severity or eight of low. */
  lemma {:induction false} LoadIs(reports: seq<Report>)
    ensures Load(reports)
         == 8 * CountSeverity(reports, Emergency) + 4 * CountSeverity(reports, High)
            + 2 * CountSeverity(reports, Medium) + CountSeverity(reports, Low)
  {
    if reports == [] {
    } else {
      var before, last := reports[..|reports| - 1], reports[|reports| - 1];
      LoadIs(before);
      assert reports == before + [last];
      CountSeverityOneMore(before, last, Emergency);
      CountSeverityOneMore(before, last, High);
      CountSeverityOneMore(before, last, Medium);
      CountSeverityOneMore(before, last, Low);
    }
  }
}
