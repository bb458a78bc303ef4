/** The activity window of the admin dashboard: what the batched queries return and what a sparkline counts. */
module CommunityActivity {
  import opened Wrappers
  import opened CommunityReports
  import opened Days

  const WEEK_MS := 7 * DAY_MS
  const SPARKLINE_WEEK_COUNT := 8

  /** A post, or a reply under the community of its post. Erased authors leave None. */
  datatype Activity = Activity(community: Option<Id>, author: Option<Id>, createdAt: int)

  predicate IsAged(a: Activity, community: Id, now: int, from: int, until: int) {
    a.community == Some(community) && from <= now - a.createdAt < until
  }

  /** Rows of one community, among the first `n`, of age `from` up to but not including `until`. */
  function CountAged(rows: seq<Activity>, n: nat, community: Id, now: int, from: int, until: int): nat
    requires n <= |rows|
  {
    if n == 0 then 0
    else CountAged(rows, n - 1, community, now, from, until) + if IsAged(rows[n - 1], community, now, from, until)
      then 1 else 0
  }

  predicate IsSince(a: Activity, community: Id, since: int) { a.community == Some(community) && a.createdAt >= since }

  function CountSince(rows: seq<Activity>, n: nat, community: Id, since: int): nat
    requires n <= |rows|
  {
    if n == 0 then 0
    else CountSince(rows, n - 1, community, since) + if IsSince(rows[n - 1], community, since) then 1 else 0
  }

  function AuthorsSince(rows: seq<Activity>, n: nat, community: Id, since: int): set<Option<Id>>
    requires n <= |rows|
  {
    if n == 0 then {}
    else AuthorsSince(rows, n - 1, community, since) + if IsSince(rows[n - 1], community, since)
      then {rows[n - 1].author} else {}
  }

  predicate IsSelected(a: Activity, ids: set<Id>, now: int) {
    a.community.Some? && a.community.value in ids && a.createdAt >= now - SPARKLINE_WEEK_COUNT * WEEK_MS
  }

  /** `loadPostActivity` and `loadReplyActivity`, over the whole scope at once. */
  function Selected(rows: seq<Activity>, n: nat, ids: set<Id>, now: int): seq<Activity>
    requires n <= |rows|
  {
    if n == 0 then []
    else
      var before := Selected(rows, n - 1, ids, now);
      if IsSelected(rows[n - 1], ids, now) then before + [rows[n - 1]] else before
  }

  lemma {:induction false} CountsIgnoreTheRest(
      a: seq<Activity>, b: seq<Activity>, n: nat, community: Id, now: int, from: int, until: int)
    requires n <= |a| && n <= |b| && a[..n] == b[..n]
    ensures CountAged(a, n, community, now, from, until) == CountAged(b, n, community, now, from, until)
    ensures CountSince(a, n, community, from) == CountSince(b, n, community, from)
    ensures AuthorsSince(a, n, community, from) == AuthorsSince(b, n, community, from)
  {
    if n == 0 {
    } else {
      assert a[..n][..n - 1] == a[..n - 1] && b[..n][..n - 1] == b[..n - 1];
      assert a[n - 1] == a[..n][n - 1] == b[..n][n - 1] == b[n - 1];
      CountsIgnoreTheRest(a, b, n - 1, community, now, from, until);
    }
  }

  /** The batched query loses no row a community's numbers depend on, whoever else is in scope. */
  lemma {:induction false} SelectionKeepsAges(
      rows: seq<Activity>, n: nat, ids: set<Id>, community: Id, now: int, from: int, until: int)
    requires n <= |rows| && community in ids && until <= SPARKLINE_WEEK_COUNT * WEEK_MS
    ensures var s := Selected(rows, n, ids, now);
            CountAged(s, |s|, community, now, from, until) == CountAged(rows, n, community, now, from, until)
  {
    if n == 0 {
    } else {
      SelectionKeepsAges(rows, n - 1, ids, community, now, from, until);
      var before := Selected(rows, n - 1, ids, now);
      var longer := before + [rows[n - 1]];
      assert longer[..|before|] == before[..|before|];
      CountsIgnoreTheRest(longer, before, |before|, community, now, from, until);
    }
  }

  lemma {:induction false} SelectionKeepsThisWeek(
      rows: seq<Activity>, n: nat, ids: set<Id>, community: Id, now: int, since: int)
    requires n <= |rows| && community in ids && since >= now - SPARKLINE_WEEK_COUNT * WEEK_MS
    ensures var s := Selected(rows, n, ids, now);
            && CountSince(s, |s|, community, since) == CountSince(rows, n, community, since)
            && AuthorsSince(s, |s|, community, since) == AuthorsSince(rows, n, community, since)
  {
    if n == 0 {
    } else {
      SelectionKeepsThisWeek(rows, n - 1, ids, community, now, since);
      var before := Selected(rows, n - 1, ids, now);
      var longer := before + [rows[n - 1]];
      assert longer[..|before|] == before[..|before|];
      CountsIgnoreTheRest(longer, before, |before|, community, now, since, 0);
    }
  }

  lemma {:induction false} AgesSplit(
      rows: seq<Activity>, n: nat, community: Id, now: int, from: int, mid: int, until: int)
    requires n <= |rows| && from <= mid <= until
    ensures CountAged(rows, n, community, now, from, until)
         == CountAged(rows, n, community, now, from, mid) + CountAged(rows, n, community, now, mid, until)
  {
    if n == 0 {
    } else {
      AgesSplit(rows, n - 1, community, now, from, mid, until);
    }
  }

  /** Who is active: exactly the authors of a row recent enough. */
  lemma {:induction false} AuthorsSinceAre(rows: seq<Activity>, n: nat, community: Id, since: int, author: Option<Id>)
    requires n <= |rows|
    ensures author in AuthorsSince(rows, n, community, since)
       <==> exists i | 0 <= i < n :: IsSince(rows[i], community, since) && rows[i].author == author
  {
    if n == 0 {
    } else {
      AuthorsSinceAre(rows, n - 1, community, since, author);
    }
  }

  /** Bucket `k`, newest week first. */
  function Week(rows: seq<Activity>, n: nat, community: Id, now: int, k: nat): nat
    requires n <= |rows|
  {
    CountAged(rows, n, community, now, k * WEEK_MS, (k + 1) * WEEK_MS)
  }

  type Weeks = s: seq<nat> | |s| == SPARKLINE_WEEK_COUNT witness [0, 0, 0, 0, 0, 0, 0, 0]

  /** One row of that age counted into its week; a row outside the eight weeks is not. */
  function Bump(weeks: Weeks, age: int): Weeks {
    var week := age / WEEK_MS;
    if week < 0 || week >= SPARKLINE_WEEK_COUNT then weeks else weeks[week := weeks[week] + 1]
  }

  /** The weeks of one community after the first `n` rows. */
  function Filled(start: Weeks, rows: seq<Activity>, n: nat, community: Id, now: int): Weeks
    requires n <= |rows|
  {
    if n == 0 then start
    else
      var before := Filled(start, rows, n - 1, community, now);
      if rows[n - 1].community == Some(community) then Bump(before, now - rows[n - 1].createdAt) else before
  }

  lemma {:induction false} FilledIs(start: Weeks, rows: seq<Activity>, n: nat, community: Id, now: int, k: nat)
    requires n <= |rows| && k < SPARKLINE_WEEK_COUNT
    ensures Filled(start, rows, n, community, now)[k] == start[k] + Week(rows, n, community, now, k)
  {
    if n == 0 {
    } else {
      FilledIs(start, rows, n - 1, community, now, k);
    }
  }

  /** Filled newest week first from the batched queries, then turned around: the community's own sparkline. */
  lemma {:induction false} FilledIsTheSparkline(
      posts: seq<Activity>, replies: seq<Activity>, ids: set<Id>, community: Id, now: int, zeros: Weeks, i: nat)
    requires community in ids && i < SPARKLINE_WEEK_COUNT && forall k | 0 <= k < SPARKLINE_WEEK_COUNT :: zeros[k] == 0
    ensures var p, r := Selected(posts, |posts|, ids, now), Selected(replies, |replies|, ids, now);
            (Filled(Filled(zeros, p, |p|, community, now), r, |r|, community, now)[SPARKLINE_WEEK_COUNT - 1 - i]
          == Sparkline(posts, replies, community, now)[i])
  {
    var p, r := Selected(posts, |posts|, ids, now), Selected(replies, |replies|, ids, now);
    var k := SPARKLINE_WEEK_COUNT - 1 - i;
    FilledIs(zeros, p, |p|, community, now, k);
    FilledIs(Filled(zeros, p, |p|, community, now), r, |r|, community, now, k);
    SelectionKeepsAges(posts, |posts|, ids, community, now, k * WEEK_MS, (k + 1) * WEEK_MS);
    SelectionKeepsAges(replies, |replies|, ids, community, now, k * WEEK_MS, (k + 1) * WEEK_MS);
    assert Week(p, |p|, community, now, k) == Week(posts, |posts|, community, now, k);
    assert Week(r, |r|, community, now, k) == Week(replies, |replies|, community, now, k);
    assert zeros[k] == 0;
  }

  /** What one community's record and author set hold while rows are counted. */
  datatype Counters = Counters(weeks: Weeks, posts: nat, authors: set<Option<Id>>)

  function CountOne(k: Counters, row: Activity, community: Id, now: int, isPost: bool): Counters {
    if row.community != Some(community) then k
    else
      var recent := row.createdAt >= now - WEEK_MS;
      Counters(Bump(k.weeks, now - row.createdAt), k.posts + (if isPost && recent then 1 else 0),
        k.authors + (if recent then {row.author} else {}))
  }

  function CountAll(k: Counters, rows: seq<Activity>, n: nat, community: Id, now: int, isPost: bool): Counters
    requires n <= |rows|
  {
    if n == 0 then k
    else CountOne(CountAll(k, rows, n - 1, community, now, isPost), rows[n - 1], community, now, isPost)
  }

  lemma {:induction false} CountAllIs(k: Counters, rows: seq<Activity>, n: nat, community: Id, now: int, isPost: bool)
    requires n <= |rows|
    ensures var after := CountAll(k, rows, n, community, now, isPost);
            && after.weeks == Filled(k.weeks, rows, n, community, now)
            && after.posts == k.posts + (if isPost then CountSince(rows, n, community, now - WEEK_MS) else 0)
            && after.authors == k.authors + AuthorsSince(rows, n, community, now - WEEK_MS)
  {
    if n == 0 {
    } else {
      CountAllIs(k, rows, n - 1, community, now, isPost);
    }
  }

  function Sum(s: seq<nat>): nat { if s == [] then 0 else Sum(s[..|s| - 1]) + s[|s| - 1] }

  /** The sparkline, oldest week first. */
  function Sparkline(posts: seq<Activity>, replies: seq<Activity>, community: Id, now: int): seq<nat> {
    seq(SPARKLINE_WEEK_COUNT, i requires 0 <= i < SPARKLINE_WEEK_COUNT =>
      Week(posts, |posts|, community, now, SPARKLINE_WEEK_COUNT - 1 - i)
        + Week(replies, |replies|, community, now, SPARKLINE_WEEK_COUNT - 1 - i))
  }

  lemma {:induction false} SumOfWeeks(posts: seq<Activity>, replies: seq<Activity>, community: Id, now: int, m: nat)
    requires m <= SPARKLINE_WEEK_COUNT
    ensures var from, until := (SPARKLINE_WEEK_COUNT - m) * WEEK_MS, SPARKLINE_WEEK_COUNT * WEEK_MS;
            (Sum(Sparkline(posts, replies, community, now)[..m])
          == CountAged(posts, |posts|, community, now, from, until)
             + CountAged(replies, |replies|, community, now, from, until))
  {
    if m == 0 {
      NothingInBetween(posts, |posts|, community, now, SPARKLINE_WEEK_COUNT * WEEK_MS);
      NothingInBetween(replies, |replies|, community, now, SPARKLINE_WEEK_COUNT * WEEK_MS);
    } else {
      SumOfWeeks(posts, replies, community, now, m - 1);
      var line := Sparkline(posts, replies, community, now);
      assert Sum(line[..m]) == Sum(line[..m - 1]) + line[m - 1] by {
        assert line[..m][..m - 1] == line[..m - 1];
      }
      var from, mid, until := (SPARKLINE_WEEK_COUNT - m) * WEEK_MS, (SPARKLINE_WEEK_COUNT - m + 1) * WEEK_MS,
        SPARKLINE_WEEK_COUNT * WEEK_MS;
      AgesSplit(posts, |posts|, community, now, from, mid, until);
      AgesSplit(replies, |replies|, community, now, from, mid, until);
      var k := SPARKLINE_WEEK_COUNT - m;
      assert line[m - 1] == Week(posts, |posts|, community, now, k) + Week(replies, |replies|, community, now, k);
      assert k * WEEK_MS == from && (k + 1) * WEEK_MS == mid;
    }
  }

  lemma {:induction false} NothingInBetween(rows: seq<Activity>, n: nat, community: Id, now: int, t: int)
    requires n <= |rows|
    ensures CountAged(rows, n, community, now, t, t) == 0
  {
    if n == 0 {
    } else {
      NothingInBetween(rows, n - 1, community, now, t);
    }
  }

  /** Eight buckets lose and repeat nothing: they add up to what is 0 to under 56 days old. */
  lemma {:induction false} SparklineAddsUp(posts: seq<Activity>, replies: seq<Activity>, community: Id, now: int)
    ensures |Sparkline(posts, replies, community, now)| == 8
    ensures Sum(Sparkline(posts, replies, community, now))
         == CountAged(posts, |posts|, community, now, 0, 56 * DAY_MS)
            + CountAged(replies, |replies|, community, now, 0, 56 * DAY_MS)
  {
    SumOfWeeks(posts, replies, community, now, SPARKLINE_WEEK_COUNT);
    var line := Sparkline(posts, replies, community, now);
    assert line[..SPARKLINE_WEEK_COUNT] == line;
  }

  /** "This week" is the newest bucket, what is exactly a week old, and what is dated in the future. */
  lemma {:induction false} ThisWeekIs(rows: seq<Activity>, n: nat, community: Id, now: int)
    requires n <= |rows|
    ensures CountSince(rows, n, community, now - WEEK_MS)
         == Week(rows, n, community, now, 0) + CountAged(rows, n, community, now, WEEK_MS, WEEK_MS + 1)
            + CountSince(rows, n, community, now + 1)
  {
    if n == 0 {
    } else {
      ThisWeekIs(rows, n - 1, community, now);
    }
  }
}
