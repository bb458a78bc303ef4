/** The numbers on a community's card as counts over the tables' own rows. */
module DashboardNumbers {
  import opened Wrappers
  import opened CommunityReports
  import opened ReportScope
  import opened CommunityActivity
  import opened CommunityDashboard

  /** How many of the first `n` rows meet `p`. */
  function HowMany<T>(rows: seq<T>, n: nat, p: T -> bool): nat
    requires n <= |rows|
  {
    if n == 0 then 0 else HowMany(rows, n - 1, p) + if p(rows[n - 1]) then 1 else 0
  }

  // -------------------------------------------------------------------------- the activity

  predicate IsAtAge(a: Activity, community: Id, now: int, from: int, until: int) {
    a.community == Some(community) && from <= now - a.createdAt && now - a.createdAt < until
  }

  predicate IsRecent(a: Activity, community: Id, now: int) {
    a.community == Some(community) && now - a.createdAt <= 7 * 24 * 60 * 60 * 1000
  }

  lemma {:induction false} CountSinceIs(rows: seq<Activity>, n: nat, community: Id, now: int)
    requires n <= |rows|
    ensures CountSince(rows, n, community, now - WEEK_MS) == HowMany(rows, n, a => IsRecent(a, community, now))
  {
    if n == 0 {
    } else {
      CountSinceIs(rows, n - 1, community, now);
    }
  }

  /** Posts this week are those at most seven days old. */
  lemma {:induction false} PostsThisWeekAre(t: Tables, c: CommunityRow, scope: Scope, now: int)
    ensures NumbersOf(t, c, scope, now).postsThisWeek == HowMany(t.posts, |t.posts|, a => IsRecent(a, c.id, now))
  {
    CountSinceIs(t.posts, |t.posts|, c.id, now);
  }

  predicate IsWeeksOld(a: Activity, community: Id, now: int, k: nat) {
    IsAtAge(a, community, now, k * (7 * 24 * 60 * 60 * 1000), (k + 1) * (7 * 24 * 60 * 60 * 1000))
  }

  lemma {:induction false} WeekIs(rows: seq<Activity>, n: nat, community: Id, now: int, k: nat)
    requires n <= |rows|
    ensures Week(rows, n, community, now, k) == HowMany(rows, n, a => IsWeeksOld(a, community, now, k))
  {
    if n == 0 {
    } else {
      WeekIs(rows, n - 1, community, now, k);
      assert IsAged(rows[n - 1], community, now, k * WEEK_MS, (k + 1) * WEEK_MS)
        <==> IsWeeksOld(rows[n - 1], community, now, k);
    }
  }

  /** Posts and replies from `k` to under `k + 1` weeks old are counted `k` places before the end of the sparkline. */
  lemma {:induction false} SparklineIs(t: Tables, c: CommunityRow, scope: Scope, now: int, k: nat)
    requires k < 8
    ensures var bars := NumbersOf(t, c, scope, now).weeklyActivity;
            && |bars| == 8
            && bars[7 - k] == HowMany(t.posts, |t.posts|, a => IsWeeksOld(a, c.id, now, k))
                              + HowMany(t.replies, |t.replies|, a => IsWeeksOld(a, c.id, now, k))
  {
    WeekIs(t.posts, |t.posts|, c.id, now, k);
    WeekIs(t.replies, |t.replies|, c.id, now, k);
    assert SPARKLINE_WEEK_COUNT - 1 - (7 - k) == k;
  }

  predicate WroteThisWeek(rows: seq<Activity>, community: Id, now: int, author: Option<Id>) {
    exists i | 0 <= i < |rows| :: IsRecent(rows[i], community, now) && rows[i].author == author
  }

  /** The active members are the different authors of recent posts and replies. */
  lemma {:induction false} ActiveAre(
      t: Tables, c: CommunityRow, scope: Scope, now: int) returns (active: set<Option<Id>>)
    ensures NumbersOf(t, c, scope, now).activeThisWeek == |active|
    ensures forall author :: author in active <==>
              WroteThisWeek(t.posts, c.id, now, author) || WroteThisWeek(t.replies, c.id, now, author)
  {
    active := ActiveAuthors(t, c.id, now);
    forall author
      ensures author in active <==>
          WroteThisWeek(t.posts, c.id, now, author) || WroteThisWeek(t.replies, c.id, now, author)
    {
      AuthorsAre(t.posts, c.id, now, author);
      AuthorsAre(t.replies, c.id, now, author);
    }
  }

  lemma {:induction false} AuthorsAre(rows: seq<Activity>, community: Id, now: int, author: Option<Id>)
    ensures author in AuthorsSince(rows, |rows|, community, now - WEEK_MS)
       <==> WroteThisWeek(rows, community, now, author)
  {
    AuthorsSinceAre(rows, |rows|, community, now - WEEK_MS, author);
    forall i | 0 <= i < |rows|
      ensures IsSince(rows[i], community, now - WEEK_MS) <==> IsRecent(rows[i], community, now)
    {
    }
  }

  // -------------------------------------------------------------------------- the members

  /** The members are the users who joined. */
  lemma {:induction false} MembersAre(t: Tables, c: CommunityRow, scope: Scope, now: int) returns (users: set<Id>)
    ensures NumbersOf(t, c, scope, now).memberCount == |users|
    ensures forall user :: user in users <==> Membership(c.id, user) in t.members
  {
    var joined := set m | m in t.members && m.community == c.id;
    users := UsersOf(joined, c.id);
  }

  lemma {:induction false} UsersOf(joined: set<Membership>, community: Id) returns (users: set<Id>)
    requires forall m | m in joined :: m.community == community
    ensures |users| == |joined| && forall user :: user in users <==> Membership(community, user) in joined
    decreases joined
  {
    if joined == {} {
      users := {};
    } else {
      var m :| m in joined;
      users := UsersOf(joined - {m}, community);
      assert m == Membership(community, m.user) && m.user !in users;
      users := users + {m.user};
    }
  }

  /** Whole days since it was founded, and none before. */
  lemma {:induction false} AgeIs(t: Tables, c: CommunityRow, scope: Scope, now: int)
    ensures var days, age := NumbersOf(t, c, scope, now).ageInDays, now - c.createdAt;
            if age < 0 then days == 0
            else days * (24 * 60 * 60 * 1000) <= age < (days + 1) * (24 * 60 * 60 * 1000)
  {
  }

  // --------------------------------------------------------------------------- the reports

  predicate IsOpenOf(scope: Scope, r: Report, community: Id) {
    CommunityOf(scope, r) == Some(community) && r.status == Open
  }

  predicate IsOpenAt(scope: Scope, r: Report, community: Id, severity: Severity) {
    IsOpenOf(scope, r, community) && r.severity == severity
  }

  function HowManyAt(reports: seq<Report>, n: nat, scope: Scope, community: Id, severity: Severity): nat
    requires n <= |reports|
  {
    HowMany(reports, n, r => IsOpenAt(scope, r, community, severity))
  }

  lemma {:induction false} ShareIsCounted(reports: seq<Report>, n: nat, scope: Scope, community: Id, now: int)
    requires n < |reports|
    ensures var before := TotalsOf(Share(reports, n, scope, community), now);
            TotalsOf(Share(reports, n + 1, scope, community), now)
              == if CommunityOf(scope, reports[n]) == Some(community) then Counted(before, reports[n], now) else before
  {
    CountingOneMore(Share(reports, n, scope, community), reports[n], now);
  }

  lemma {:induction false} CountsAre(reports: seq<Report>, n: nat, scope: Scope, community: Id, now: int)
    requires n <= |reports|
    ensures var totals := TotalsOf(Share(reports, n, scope, community), now);
            && totals.total == HowMany(reports, n, r => CommunityOf(scope, r) == Some(community))
            && totals.open == HowMany(reports, n, r => IsOpenOf(scope, r, community))
            && totals.overdue == HowMany(reports, n, r => IsOpenOf(scope, r, community) && r.slaDueAt < now)
  {
    if n == 0 {
    } else {
      CountsAre(reports, n - 1, scope, community, now);
      ShareIsCounted(reports, n - 1, scope, community, now);
    }
  }

  lemma {:induction false} WeightsAre(reports: seq<Report>, n: nat, scope: Scope, community: Id, now: int)
    requires n <= |reports|
    ensures TotalsOf(Share(reports, n, scope, community), now).load
         == 8 * HowManyAt(reports, n, scope, community, Emergency) + 4 * HowManyAt(reports, n, scope, community, High)
            + 2 * HowManyAt(reports, n, scope, community, Medium) + HowManyAt(reports, n, scope, community, Low)
  {
    if n == 0 {
    } else {
      WeightsAre(reports, n - 1, scope, community, now);
      ShareIsCounted(reports, n - 1, scope, community, now);
    }
  }

  /** The report totals on the card of a community: all its reports, its open ones, the late ones and their weight. */
  lemma {:induction false} ReportTotalsAre(t: Tables, c: CommunityRow, scope: Scope, now: int)
    requires c.id != ""
    ensures var totals, n := NumbersOf(t, c, scope, now).totals, |t.reports|;
            && totals.total == HowMany(t.reports, n, r => CommunityOf(scope, r) == Some(c.id))
            && totals.open == HowMany(t.reports, n, r => IsOpenOf(scope, r, c.id))
            && totals.overdue == HowMany(t.reports, n, r => IsOpenOf(scope, r, c.id) && r.slaDueAt < now)
            && totals.load
               == 8 * HowManyAt(t.reports, n, scope, c.id, Emergency) + 4 * HowManyAt(t.reports, n, scope, c.id, High)
                  + 2 * HowManyAt(t.reports, n, scope, c.id, Medium) + HowManyAt(t.reports, n, scope, c.id, Low)
  {
    CountsAre(t.reports, |t.reports|, scope, c.id, now);
    WeightsAre(t.reports, |t.reports|, scope, c.id, now);
  }
}
