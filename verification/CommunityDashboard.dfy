/** The admin dashboard's aggregates: one batched pass (`aggregatesForMany`) against a definition per community. */
module CommunityDashboard {
  import opened Wrappers
  import opened CommunityReports
  import opened ReportScope
  import opened CommunityActivity
  import opened Days

  datatype Membership = Membership(community: Id, user: Id)

  datatype Tables = Tables(members: set<Membership>, posts: seq<Activity>, replies: seq<Activity>,
    reports: seq<Report>, content: Content)

  /** What the dashboard shows of one community. */
  datatype Numbers = Numbers(memberCount: nat, activeThisWeek: nat, postsThisWeek: nat, weeklyActivity: seq<nat>,
    totals: Totals, ageInDays: nat)

  function MemberCount(members: set<Membership>, community: Id): nat {
    |set m | m in members && m.community == community|
  }

  function ActiveAuthors(t: Tables, community: Id, now: int): set<Option<Id>> {
    AuthorsSince(t.posts, |t.posts|, community, now - WEEK_MS)
      + AuthorsSince(t.replies, |t.replies|, community, now - WEEK_MS)
  }

  function AgeInDays(createdAt: int, now: int): nat { if now < createdAt then 0 else (now - createdAt) / DAY_MS }

  function ShownTotals(reports: seq<Report>, scope: Scope, community: Id, now: int): Totals {
    if community == "" then Totals(0, 0, 0, 0) else TotalsOf(Share(reports, |reports|, scope, community), now)
  }

  /** One community's numbers from its own rows. */
  function NumbersOf(t: Tables, community: CommunityRow, scope: Scope, now: int): Numbers {
    Numbers(
      MemberCount(t.members, community.id),
      |ActiveAuthors(t, community.id, now)|,
      CountSince(t.posts, |t.posts|, community.id, now - WEEK_MS),
      Sparkline(t.posts, t.replies, community.id, now),
      ShownTotals(t.reports, scope, community.id, now),
      AgeInDays(community.createdAt, now))
  }

  /** Listing more communities changes none of them. */
  lemma {:induction false} NumbersIgnoreTheRestOfTheScope(
      t: Tables, s: seq<CommunityRow>, s': seq<CommunityRow>, table: set<CommunityRow>, c: CommunityRow, now: int)
    requires Keyed(table) && OneHome(t.content) && c in s && c in s'
    requires forall d | d in s || d in s' :: d in table
    ensures NumbersOf(t, c, LoadReportScope(t.reports, s, t.content), now)
        == NumbersOf(t, c, LoadReportScope(t.reports, s', t.content), now)
  {
    ScopeNeverMovesAShare(t.reports, |t.reports|, s, s', table, t.content, c);
  }

  // -------------------------------------------------------------------- the batched pass

  function Zeros(): Weeks { [0, 0, 0, 0, 0, 0, 0, 0] }

  class CommunityAggregates {
    var memberCount: nat
    var activeThisWeek: nat
    var postsThisWeek: nat
    const weeklyActivity: array<nat>
    var totals: Totals
    var communityAgeInDays: nat

    constructor (ageInDays: nat)
      ensures fresh(weeklyActivity) && weeklyActivity.Length == SPARKLINE_WEEK_COUNT
      ensures weeklyActivity[..] == Zeros()
      ensures memberCount == activeThisWeek == postsThisWeek == 0 && totals == Totals(0, 0, 0, 0)
      ensures communityAgeInDays == ageInDays
    {
      memberCount, activeThisWeek, postsThisWeek := 0, 0, 0;
      totals := Totals(0, 0, 0, 0);
      communityAgeInDays := ageInDays;
      weeklyActivity := new nat[SPARKLINE_WEEK_COUNT](_ => 0);
    }

    function View(): Numbers
      reads this, weeklyActivity
    {
      Numbers(memberCount, activeThisWeek, postsThisWeek, weeklyActivity[..], totals, communityAgeInDays)
    }

    /** Newest week is index 0 while filling. */
    method AddToSparkline(createdAt: int, now: int)
      requires weeklyActivity.Length == SPARKLINE_WEEK_COUNT
      modifies weeklyActivity
      ensures weeklyActivity[..] == Bump(old(weeklyActivity[..]), now - createdAt)
    {
      var weekIndex := (now - createdAt) / WEEK_MS;
      if weekIndex < 0 || weekIndex >= SPARKLINE_WEEK_COUNT { return; }
      weeklyActivity[weekIndex] := weeklyActivity[weekIndex] + 1;
    }

    method ReverseSparkline()
      requires weeklyActivity.Length == SPARKLINE_WEEK_COUNT
      modifies weeklyActivity
      ensures forall k | 0 <= k < SPARKLINE_WEEK_COUNT ::
          weeklyActivity[k] == old(weeklyActivity[SPARKLINE_WEEK_COUNT - 1 - k])
    {
      var lo, hi := 0, SPARKLINE_WEEK_COUNT - 1;
      while lo < hi
        invariant 0 <= lo && hi == SPARKLINE_WEEK_COUNT - 1 - lo && lo <= 4
        invariant forall k | lo <= k <= hi :: weeklyActivity[k] == old(weeklyActivity[k])
        invariant forall k | 0 <= k < lo || hi < k < SPARKLINE_WEEK_COUNT ::
            weeklyActivity[k] == old(weeklyActivity[SPARKLINE_WEEK_COUNT - 1 - k])
      {
        weeklyActivity[lo], weeklyActivity[hi] := weeklyActivity[hi], weeklyActivity[lo];
        lo, hi := lo + 1, hi - 1;
      }
    }
  }

  type Records = map<Id, CommunityAggregates>

  ghost function Objects(records: Records): set<CommunityAggregates> { set c | c in records :: records[c] }

  ghost function Arrays(records: Records): set<array<nat>> { set c | c in records :: records[c].weeklyActivity }

  /** One record a community, each with an array of its own. */
  ghost predicate Separate(records: Records) {
    && (forall c | c in records :: records[c].weeklyActivity.Length == SPARKLINE_WEEK_COUNT)
    && (forall c, d | c in records && d in records && c != d ::
        records[c] != records[d] && records[c].weeklyActivity != records[d].weeklyActivity)
  }

  ghost predicate DistinctIds(communities: seq<CommunityRow>) {
    forall i, j | 0 <= i < j < |communities| :: communities[i].id != communities[j].id
  }

  /** The records every community in scope starts from. */
  method EmptyRecords(communities: seq<CommunityRow>, now: int) returns (records: Records)
    requires DistinctIds(communities)
    ensures records.Keys == IdsOf(communities) && Separate(records)
    ensures forall c | c in records :: fresh(records[c]) && fresh(records[c].weeklyActivity)
    ensures forall c | c in records ::
        records[c].memberCount == records[c].activeThisWeek == records[c].postsThisWeek == 0
    ensures forall c | c in records :: records[c].totals == Totals(0, 0, 0, 0)
    ensures forall c | c in records :: records[c].weeklyActivity[..] == Zeros()
    ensures forall c | c in communities :: records[c.id].communityAgeInDays == AgeInDays(c.createdAt, now)
  {
    records := map[];
    for i := 0 to |communities|
      invariant forall c :: c in records <==> exists j | 0 <= j < i :: communities[j].id == c
      invariant Separate(records)
      invariant forall c | c in records :: fresh(records[c]) && fresh(records[c].weeklyActivity)
      invariant forall c | c in records ::
          records[c].memberCount == records[c].activeThisWeek == records[c].postsThisWeek == 0
      invariant forall c | c in records :: records[c].totals == Totals(0, 0, 0, 0)
      invariant forall c | c in records :: records[c].weeklyActivity[..] == Zeros()
      invariant forall j | 0 <= j < i ::
          records[communities[j].id].communityAgeInDays == AgeInDays(communities[j].createdAt, now)
    {
      var record := new CommunityAggregates(AgeInDays(communities[i].createdAt, now));
      records := records[communities[i].id := record];
    }
  }

  /** The grouped count: a community without members has no row. */
  function MemberCounts(members: set<Membership>, ids: set<Id>): map<Id, nat> {
    map c | c in ids && MemberCount(members, c) > 0 :: MemberCount(members, c)
  }

  method ApplyMemberCounts(records: Records, rows: map<Id, nat>)
    requires Separate(records)
    modifies Objects(records)`memberCount
    ensures forall c | c in records ::
        records[c].memberCount == if c in rows then rows[c] else old(records[c].memberCount)
  {
    var left := rows.Keys;
    while left != {}
      invariant left <= rows.Keys
      invariant forall c | c in records ::
          records[c].memberCount == if c in rows && c !in left then rows[c] else old(records[c].memberCount)
      decreases left
    {
      var id :| id in left;
      if id in records { records[id].memberCount := rows[id]; }
      left := left - {id};
    }
  }

  type AuthorSets = map<Id, set<Option<Id>>>

  ghost function CountersOf(records: Records, authors: AuthorSets, c: Id): Counters
    reads Objects(records), Arrays(records)
    requires Separate(records) && authors.Keys == records.Keys && c in records
  {
    Counters(records[c].weeklyActivity[..], records[c].postsThisWeek, authors[c])
  }

  /** One post or reply on its community's record. */
  method CountRow(
      records: Records, row: Activity, now: int, isPost: bool, authors: AuthorSets) returns (authors': AuthorSets)
    requires Separate(records) && authors.Keys == records.Keys && row.community.Some?
    modifies Objects(records)`postsThisWeek, Arrays(records)
    ensures authors'.Keys == records.Keys
    ensures forall c | c in records ::
        CountersOf(records, authors', c) == CountOne(old(CountersOf(records, authors, c)), row, c, now, isPost)
  {
    authors' := authors;
    var id := row.community.value;
    if id !in records { return; }
    records[id].AddToSparkline(row.createdAt, now);
    if row.createdAt >= now - WEEK_MS {
      if isPost { records[id].postsThisWeek := records[id].postsThisWeek + 1; }
      authors' := authors'[id := authors'[id] + {row.author}];
    }
  }

  /** One pass over the window's posts, or over its replies, which count as activity only. */
  method ApplyActivity(
      records: Records, rows: seq<Activity>, now: int, isPost: bool, authors: AuthorSets)
    returns (authors': AuthorSets)
    requires Separate(records) && authors.Keys == records.Keys
    requires forall r | r in rows :: r.community.Some?
    modifies Objects(records)`postsThisWeek, Arrays(records)
    ensures authors'.Keys == records.Keys
    ensures forall c | c in records ::
        CountersOf(records, authors', c) == CountAll(old(CountersOf(records, authors, c)), rows, |rows|, c, now, isPost)
  {
    authors' := authors;
    for i := 0 to |rows|
      invariant authors'.Keys == records.Keys
      invariant forall c | c in records ::
          CountersOf(records, authors', c) == CountAll(old(CountersOf(records, authors, c)), rows, i, c, now, isPost)
    {
      authors' := CountRow(records, rows[i], now, isPost, authors');
    }
  }

  method ApplyActiveAuthors(records: Records, authors: AuthorSets)
    requires Separate(records) && authors.Keys == records.Keys
    modifies Objects(records)`activeThisWeek
    ensures forall c | c in records :: records[c].activeThisWeek == |authors[c]|
  {
    var left := authors.Keys;
    while left != {}
      invariant left <= authors.Keys
      invariant forall c | c in records && c !in left :: records[c].activeThisWeek == |authors[c]|
      decreases left
    {
      var id :| id in left;
      records[id].activeThisWeek := |authors[id]|;
      left := left - {id};
    }
  }

  /** The buckets were filled newest first; the response is oldest first. */
  method ReverseSparklines(records: Records)
    requires Separate(records)
    modifies Arrays(records)
    ensures forall c, k | c in records && 0 <= k < SPARKLINE_WEEK_COUNT ::
              records[c].weeklyActivity[k] == old(records[c].weeklyActivity[SPARKLINE_WEEK_COUNT - 1 - k])
  {
    var left := records.Keys;
    while left != {}
      invariant left <= records.Keys
      invariant forall c, k | c in records && 0 <= k < SPARKLINE_WEEK_COUNT ::
                  records[c].weeklyActivity[k] == if c in left then old(records[c].weeklyActivity[k])
                    else old(records[c].weeklyActivity[SPARKLINE_WEEK_COUNT - 1 - k])
      decreases left
    {
      var id :| id in left;
      records[id].ReverseSparkline();
      left := left - {id};
    }
  }

  method ApplyReportTotals(records: Records, totals: map<Id, Totals>)
    requires Separate(records)
    modifies Objects(records)`totals
    ensures forall c | c in records :: records[c].totals == if c in totals then totals[c] else old(records[c].totals)
  {
    var left := totals.Keys;
    while left != {}
      invariant left <= totals.Keys
      invariant forall c | c in records ::
          records[c].totals == if c in totals && c !in left then totals[c] else old(records[c].totals)
      decreases left
    {
      var id :| id in left;
      if id in records { records[id].totals := totals[id]; }
      left := left - {id};
    }
  }

  lemma {:induction false} SelectedHaveCommunities(rows: seq<Activity>, n: nat, ids: set<Id>, now: int)
    requires n <= |rows|
    ensures forall r | r in Selected(rows, n, ids, now) :: r.community.Some?
  {
    if n == 0 {
    } else {
      SelectedHaveCommunities(rows, n - 1, ids, now);
    }
  }

  /** The window's rows of one table, fetched for the whole scope and counted. */
  method ApplyTable(
      records: Records, rows: seq<Activity>, now: int, isPost: bool, authors: AuthorSets)
    returns (authors': AuthorSets)
    requires Separate(records) && authors.Keys == records.Keys
    modifies Objects(records)`postsThisWeek, Arrays(records)
    ensures authors'.Keys == records.Keys
    ensures forall c | c in records :: authors'[c] == authors[c] + AuthorsSince(rows, |rows|, c, now - WEEK_MS)
    ensures forall c | c in records ::
              records[c].postsThisWeek == old(records[c].postsThisWeek) + if isPost
                then CountSince(rows, |rows|, c, now - WEEK_MS) else 0
    ensures forall c | c in records ::
              var selected := Selected(rows, |rows|, records.Keys, now);
              records[c].weeklyActivity[..] == Filled(old(records[c].weeklyActivity[..]), selected, |selected|, c, now)
  {
    var selected := Selected(rows, |rows|, records.Keys, now);
    SelectedHaveCommunities(rows, |rows|, records.Keys, now);
    authors' := ApplyActivity(records, selected, now, isPost, authors);
    forall c | c in records
      ensures CountersOf(records, authors', c).posts == old(records[c].postsThisWeek) + if isPost
          then CountSince(rows, |rows|, c, now - WEEK_MS) else 0
      ensures CountersOf(records, authors', c).authors == authors[c] + AuthorsSince(rows, |rows|, c, now - WEEK_MS)
      ensures CountersOf(records, authors', c).weeks
          == Filled(old(records[c].weeklyActivity[..]), selected, |selected|, c, now)
    {
      CountAllIs(old(CountersOf(records, authors, c)), selected, |selected|, c, now, isPost);
      SelectionKeepsThisWeek(rows, |rows|, records.Keys, c, now, now - WEEK_MS);
    }
  }

  /** The weeks of one community after both tables, newest first. */
  function FilledTwice(t: Tables, ids: set<Id>, community: Id, now: int): Weeks {
    var posts, replies := Selected(t.posts, |t.posts|, ids, now), Selected(t.replies, |t.replies|, ids, now);
    Filled(Filled(Zeros(), posts, |posts|, community, now), replies, |replies|, community, now)
  }

  /** Posts, then replies. */
  method CountActivity(records: Records, t: Tables, now: int) returns (authors: AuthorSets)
    requires Separate(records)
    requires forall c | c in records :: records[c].postsThisWeek == 0 && records[c].weeklyActivity[..] == Zeros()
    modifies Objects(records)`postsThisWeek, Arrays(records)
    ensures authors.Keys == records.Keys && forall c | c in records :: authors[c] == ActiveAuthors(t, c, now)
    ensures forall c | c in records :: records[c].postsThisWeek == CountSince(t.posts, |t.posts|, c, now - WEEK_MS)
    ensures forall c | c in records :: records[c].weeklyActivity[..] == FilledTwice(t, records.Keys, c, now)
  {
    authors := map c | c in records :: {};
    authors := ApplyTable(records, t.posts, now, true, authors);
    authors := ApplyTable(records, t.replies, now, false, authors);
  }

  method TurnSparklines(records: Records, t: Tables, now: int)
    requires Separate(records)
    requires forall c | c in records :: records[c].weeklyActivity[..] == FilledTwice(t, records.Keys, c, now)
    modifies Arrays(records)
    ensures forall c | c in records :: records[c].weeklyActivity[..] == Sparkline(t.posts, t.replies, c, now)
  {
    ReverseSparklines(records);
    forall c | c in records ensures records[c].weeklyActivity[..] == Sparkline(t.posts, t.replies, c, now) {
      forall i: nat | i < SPARKLINE_WEEK_COUNT
        ensures records[c].weeklyActivity[i] == Sparkline(t.posts, t.replies, c, now)[i] {
        FilledIsTheSparkline(t.posts, t.replies, records.Keys, c, now, Zeros(), i);
        assert old(records[c].weeklyActivity[..])[SPARKLINE_WEEK_COUNT - 1 - i]
            == old(records[c].weeklyActivity[SPARKLINE_WEEK_COUNT - 1 - i]);
      }
    }
  }

  /** The counts, then the sizes of the author sets, then the sparklines turned around. */
  method FillActivity(records: Records, t: Tables, now: int)
    requires Separate(records)
    requires forall c | c in records :: records[c].postsThisWeek == 0 && records[c].weeklyActivity[..] == Zeros()
    modifies Objects(records)`postsThisWeek, Objects(records)`activeThisWeek, Arrays(records)
    ensures forall c | c in records :: records[c].activeThisWeek == |ActiveAuthors(t, c, now)|
    ensures forall c | c in records :: records[c].postsThisWeek == CountSince(t.posts, |t.posts|, c, now - WEEK_MS)
    ensures forall c | c in records :: records[c].weeklyActivity[..] == Sparkline(t.posts, t.replies, c, now)
  {
    var authors := CountActivity(records, t, now);
    ApplyActiveAuthors(records, authors);
    TurnSparklines(records, t, now);
  }

  /** Everything but the reports. */
  method FillRecords(records: Records, t: Tables, now: int)
    requires Separate(records)
    requires forall c | c in records ::
        records[c].memberCount == records[c].postsThisWeek == 0 && records[c].weeklyActivity[..] == Zeros()
    modifies Objects(records)`memberCount, Objects(records)`postsThisWeek, Objects(records)`activeThisWeek,
      Arrays(records)
    ensures forall c | c in records :: records[c].memberCount == MemberCount(t.members, c)
    ensures forall c | c in records :: records[c].activeThisWeek == |ActiveAuthors(t, c, now)|
    ensures forall c | c in records :: records[c].postsThisWeek == CountSince(t.posts, |t.posts|, c, now - WEEK_MS)
    ensures forall c | c in records :: records[c].weeklyActivity[..] == Sparkline(t.posts, t.replies, c, now)
  {
    ApplyMemberCounts(records, MemberCounts(t.members, records.Keys));
    FillActivity(records, t, now);
  }

  /** The report totals, summed for everybody at once. */
  method FillTotals(records: Records, reports: seq<Report>, scope: Scope, now: int)
    requires Separate(records)
    requires forall c | c in records :: records[c].totals == Totals(0, 0, 0, 0)
    modifies Objects(records)`totals
    ensures forall c | c in records :: records[c].totals == ShownTotals(reports, scope, c, now)
  {
    var totals := SummariseReportsByCommunity(reports, scope, now);
    ApplyReportTotals(records, totals);
    forall c | c in records ensures records[c].totals == ShownTotals(reports, scope, c, now) {
      ShownTotalsAre(reports, scope, c, now, totals);
    }
  }

  /** Every pass over records that start empty. */
  method FillNumbers(records: Records, communities: seq<CommunityRow>, t: Tables, scope: Scope, now: int)
    requires Separate(records) && forall c | c in communities :: c.id in records
    requires forall c | c in records ::
        records[c].memberCount == records[c].postsThisWeek == 0 && records[c].weeklyActivity[..] == Zeros()
    requires forall c | c in records :: records[c].totals == Totals(0, 0, 0, 0)
    requires forall c | c in communities :: records[c.id].communityAgeInDays == AgeInDays(c.createdAt, now)
    modifies Objects(records), Arrays(records)
    ensures forall c | c in communities :: records[c.id].View() == NumbersOf(t, c, scope, now)
  {
    FillRecords(records, t, now);
    FillTotals(records, t.reports, scope, now);
  }

  /** `aggregatesForMany`: a fixed number of passes, and each community gets its own numbers. */
  method AggregatesForMany(communities: seq<CommunityRow>, t: Tables, now: int) returns (records: Records)
    requires DistinctIds(communities)
    ensures records.Keys == IdsOf(communities) && Separate(records)
    ensures forall c | c in communities ::
        records[c.id].View() == NumbersOf(t, c, LoadReportScope(t.reports, communities, t.content), now)
  {
    records := EmptyRecords(communities, now);
    FillNumbers(records, communities, t, LoadReportScope(t.reports, communities, t.content), now);
  }

  lemma {:induction false} ShownTotalsAre(
      reports: seq<Report>, scope: Scope, community: Id, now: int, totals: map<Id, Totals>)
    requires community in totals <==> community != "" && Share(reports, |reports|, scope, community) != []
    requires community in totals ==> totals[community] == TotalsOf(Share(reports, |reports|, scope, community), now)
    ensures ShownTotals(reports, scope, community, now) == if community in totals then totals[community]
        else Totals(0, 0, 0, 0)
  {
  }
}
