/** The lookups the dashboard attributes reports through (`loadReportScope`), and what a wider scope does to them. */
module ReportScope {
  import opened Wrappers
  import opened CommunityReports

  datatype CommunityRow = CommunityRow(id: Id, slug: string, createdAt: int)

  /** Primary key and `UQ_communities_slug`. */
  ghost predicate Keyed(table: set<CommunityRow>) {
    forall a, b | a in table && b in table && (a.id == b.id || a.slug == b.slug) :: a == b
  }

  /** The community each post, reply and gathering photo belongs to; content without one is absent. */
  datatype Content = Content(posts: map<string, Id>, replies: map<string, Id>, photos: map<string, Id>)

  function ContentRows(table: map<string, Id>, scope: set<Id>, reported: set<string>): map<string, Id> {
    map x | x in table && x in reported && table[x] in scope :: table[x]
  }

  function SlugMap(communities: seq<CommunityRow>, n: nat): map<string, Id>
    requires n <= |communities|
  {
    if n == 0 then map[] else SlugMap(communities, n - 1)[communities[n - 1].slug := communities[n - 1].id]
  }

  function IdsOf(communities: seq<CommunityRow>): set<Id> { set c | c in communities :: c.id }

  function ReportedContent(reports: seq<Report>): set<string> {
    set r | r in reports && !r.subjectType.Community? :: r.subjectId
  }

  /** Posts, replies and photos share one lookup; a later table overrides an earlier one. */
  function LoadReportScope(reports: seq<Report>, communities: seq<CommunityRow>, content: Content): Scope {
    var ids, reported := IdsOf(communities), ReportedContent(reports);
    Scope(ContentRows(content.posts, ids, reported) + ContentRows(content.replies, ids, reported)
      + ContentRows(content.photos, ids, reported),
          SlugMap(communities, |communities|))
  }

  ghost predicate Agree(a: map<string, Id>, b: map<string, Id>) { forall x | x in a && x in b :: a[x] == b[x] }

  /** No id is used by content of two communities. */
  ghost predicate OneHome(content: Content) {
    && Agree(content.posts, content.replies)
    && Agree(content.posts, content.photos)
    && Agree(content.replies, content.photos)
  }

  ghost predicate Holds(content: Content, x: string, community: Id) {
    || (x in content.posts && content.posts[x] == community)
    || (x in content.replies && content.replies[x] == community)
    || (x in content.photos && content.photos[x] == community)
  }

  lemma {:induction false} SlugMapIs(
      communities: seq<CommunityRow>, n: nat, table: set<CommunityRow>, c: CommunityRow, slug: string)
    requires n <= |communities| && Keyed(table) && c in table
    requires forall i | 0 <= i < n :: communities[i] in table
    ensures Lookup(SlugMap(communities, n), slug) == Some(c.id) <==> slug == c.slug && c in communities[..n]
  {
    if n == 0 {
    } else {
      SlugMapIs(communities, n - 1, table, c, slug);
      assert communities[..n] == communities[..n - 1] + [communities[n - 1]];
    }
  }

  /** What attribution means: the community's own slug, or content the community holds. */
  lemma {:induction false} CommunityOfIs(
      reports: seq<Report>, communities: seq<CommunityRow>, table: set<CommunityRow>, content: Content,
      c: CommunityRow, r: Report)
    requires Keyed(table) && OneHome(content) && c in communities && r in reports
    requires forall d | d in communities :: d in table
    ensures CommunityOf(LoadReportScope(reports, communities, content), r) == Some(c.id)
       <==> if r.subjectType.Community? then r.subjectId == c.slug else Holds(content, r.subjectId, c.id)
  {
    if r.subjectType.Community? {
      SlugMapIs(communities, |communities|, table, c, r.subjectId);
      assert communities[..|communities|] == communities;
    } else {
      assert c.id in IdsOf(communities) && r.subjectId in ReportedContent(reports);
    }
  }

  /** So widening the scope moves no report to or from a community that was in it already. */
  lemma {:induction false} ScopeNeverMovesAShare(
      reports: seq<Report>, n: nat, s: seq<CommunityRow>, t: seq<CommunityRow>, table: set<CommunityRow>,
      content: Content, c: CommunityRow)
    requires n <= |reports| && Keyed(table) && OneHome(content) && c in s && c in t
    requires forall d | d in s || d in t :: d in table
    ensures Share(reports, n, LoadReportScope(reports, s, content), c.id)
        == Share(reports, n, LoadReportScope(reports, t, content), c.id)
  {
    if n == 0 {
    } else {
      ScopeNeverMovesAShare(reports, n - 1, s, t, table, content, c);
      CommunityOfIs(reports, s, table, content, c, reports[n - 1]);
      CommunityOfIs(reports, t, table, content, c, reports[n - 1]);
    }
  }

  ghost predicate MovedByScope(
      content: Content, s: seq<CommunityRow>, t: seq<CommunityRow>, c: CommunityRow, r: Report)
  {
    && c in s && c in t
    && var inS := CommunityOf(LoadReportScope([r], s, content), r) == Some(c.id);
       var inT := CommunityOf(LoadReportScope([r], t, content), r) == Some(c.id);
       inS != inT
  }

  /** Content held by a community in scope is found, for some community in scope that holds it. */
  lemma {:induction false} FoundInScope(content: Content, communities: seq<CommunityRow>, r: Report, c: CommunityRow)
    requires !r.subjectType.Community? && c in communities && Holds(content, r.subjectId, c.id)
    ensures var found := CommunityOf(LoadReportScope([r], communities, content), r);
            found.Some? && found.value in IdsOf(communities) && Holds(content, r.subjectId, found.value)
  {
    assert r in [r] && r.subjectId in ReportedContent([r]);
    assert c.id in IdsOf(communities);
  }

  /** One id held by two communities is enough: one has the report only while the other is not in scope. */
  lemma {:induction false} SharedIdMovesAReport(content: Content, a: CommunityRow, b: CommunityRow, r: Report)
    requires !r.subjectType.Community? && a.id != b.id
    requires Holds(content, r.subjectId, a.id) && Holds(content, r.subjectId, b.id)
    ensures MovedByScope(content, [a], [a, b], a, r) || MovedByScope(content, [b], [a, b], b, r)
  {
    FoundInScope(content, [a, b], r, a);
    FoundInScope(content, [a], r, a);
    FoundInScope(content, [b], r, b);
  }

  ghost predicate NeitherMoves(content: Content, a: CommunityRow, b: CommunityRow, r: Report) {
    !MovedByScope(content, [a], [a, b], a, r) && !MovedByScope(content, [b], [a, b], b, r)
  }

  /** Opening one community and listing two give the same attribution. */
  ghost predicate ScopeBlind(content: Content) {
    forall a: CommunityRow, b: CommunityRow, r: Report | a.id != b.id && a.slug != b.slug
      && !r.subjectType.Community? :: NeitherMoves(content, a, b, r)
  }

  /** The dashboard's list and a community's own page agree on every report exactly when no id has two homes. */
  lemma {:induction false} ScopeBlindIffOneHome(content: Content)
    ensures ScopeBlind(content) <==> OneHome(content)
  {
    if OneHome(content) {
      forall a: CommunityRow, b: CommunityRow, r: Report | a.id != b.id && a.slug != b.slug
        && !r.subjectType.Community? ensures NeitherMoves(content, a, b, r) {
        OneHomeMovesNothing(content, a, b, r);
      }
    } else {
      var x, p, q := TwoHomes(content);
      SharedIdIsSeen(content, CommunityRow(p, "a", 0), CommunityRow(q, "b", 0),
        Report("", Post, x, Low, "", None, Open, 0, 0));
    }
  }

  lemma {:induction false} SharedIdIsSeen(content: Content, a: CommunityRow, b: CommunityRow, r: Report)
    requires !r.subjectType.Community? && a.id != b.id && |a.slug| == 1 == |b.slug| && a.slug[0] != b.slug[0]
    requires Holds(content, r.subjectId, a.id) && Holds(content, r.subjectId, b.id)
    ensures !ScopeBlind(content)
  {
    SharedIdMovesAReport(content, a, b, r);
    assert !NeitherMoves(content, a, b, r);
  }

  lemma {:induction false} OneHomeMovesNothing(content: Content, a: CommunityRow, b: CommunityRow, r: Report)
    requires OneHome(content) && a.id != b.id && a.slug != b.slug
    ensures NeitherMoves(content, a, b, r)
  {
    var table := {a, b};
    forall c | c in table
      ensures CommunityOf(LoadReportScope([r], [c], content), r) == Some(c.id)
         <==> CommunityOf(LoadReportScope([r], [a, b], content), r) == Some(c.id)
    {
      CommunityOfIs([r], [c], table, content, c, r);
      CommunityOfIs([r], [a, b], table, content, c, r);
    }
  }

  lemma {:induction false} TwoHomes(content: Content) returns (x: string, p: Id, q: Id)
    requires !OneHome(content)
    ensures p != q && Holds(content, x, p) && Holds(content, x, q)
  {
    if x' :| x' in content.posts && x' in content.replies && content.posts[x'] != content.replies[x'] {
      x, p, q := x', content.posts[x'], content.replies[x'];
    } else if x' :| x' in content.posts && x' in content.photos && content.posts[x'] != content.photos[x'] {
      x, p, q := x', content.posts[x'], content.photos[x'];
    } else {
      x :| x in content.replies && x in content.photos && content.replies[x] != content.photos[x];
      p, q := content.replies[x], content.photos[x];
    }
  }
}
