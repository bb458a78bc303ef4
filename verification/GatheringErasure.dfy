/** The pass over an erased host's gatherings, loop by loop, against tables it updates in place. */
module GatheringErasure {
  import opened Wrappers
  import opened Gatherings

  /** `ORDER BY key ASC`; rows with equal keys come in any order. */
  method OrderedBy(ids: set<Id>, key: map<Id, int>) returns (rows: seq<Id>)
    requires ids <= key.Keys
    ensures forall x :: x in rows <==> x in ids
    ensures forall i, j | 0 <= i < j < |rows| :: rows[i] != rows[j]
    ensures forall i | 0 <= i < |rows| :: rows[i] in key
    ensures forall i, j | 0 <= i < j < |rows| :: key[rows[i]] <= key[rows[j]]
  {
    rows := [];
    var left := ids;
    while left != {}
      invariant left <= ids
      invariant forall x :: x in rows <==> x in ids - left
      invariant forall i, j | 0 <= i < j < |rows| :: rows[i] != rows[j]
      invariant forall i | 0 <= i < |rows| :: rows[i] in key
      invariant forall i, j | 0 <= i < j < |rows| :: key[rows[i]] <= key[rows[j]]
      invariant forall i, x | 0 <= i < |rows| && x in left :: key[rows[i]] <= key[x]
      decreases left
    {
      var least := Least(left, key);
      assert least !in rows;
      left := left - {least};
      rows := rows + [least];
    }
  }

  method Least(ids: set<Id>, key: map<Id, int>) returns (least: Id)
    requires ids != {} && ids <= key.Keys
    ensures least in ids && forall x | x in ids :: key[least] <= key[x]
  {
    least :| least in ids;
    var left := ids - {least};
    while left != {}
      invariant left <= ids && least in ids
      invariant forall x | x in ids - left :: key[least] <= key[x]
      decreases left
    {
      var x :| x in left;
      if key[x] < key[least] { least := x; }
      left := left - {x};
    }
  }

  /** Among the first `n` rows there is another co-host of the event. */
  ghost predicate IsMet(cohosts: map<Id, Cohost>, rows: seq<Id>, n: nat, event: Id, user: Id)
    requires n <= |rows| && forall k | 0 <= k < |rows| :: rows[k] in cohosts
  {
    exists k | 0 <= k < n :: IsOtherCohost(cohosts[rows[k]], event, user)
  }

  /** The row of the first other co-host of the event. */
  ghost predicate IsFirstMet(cohosts: map<Id, Cohost>, rows: seq<Id>, event: Id, user: Id, successor: Id)
    requires forall k | 0 <= k < |rows| :: rows[k] in cohosts
  {
    exists i | 0 <= i < |rows| ::
      && IsOtherCohost(cohosts[rows[i]], event, user) && cohosts[rows[i]].user == successor
      && !IsMet(cohosts, rows, i, event, user)
  }

  /** The Map that keeps the first other co-host of each event. */
  method FirstOthers(cohosts: map<Id, Cohost>, rows: seq<Id>, user: Id) returns (successors: Successors)
    requires forall k | 0 <= k < |rows| :: rows[k] in cohosts
    ensures forall e :: e in successors <==> IsMet(cohosts, rows, |rows|, e, user)
    ensures forall e | e in successors :: IsFirstMet(cohosts, rows, e, user, successors[e])
  {
    successors := map[];
    for i := 0 to |rows|
      invariant forall e :: e in successors <==> IsMet(cohosts, rows, i, e, user)
      invariant forall e | e in successors :: IsFirstMet(cohosts, rows, e, user, successors[e])
    {
      var cohost := cohosts[rows[i]];
      forall e ensures IsMet(cohosts, rows, i + 1, e, user) <==>
        IsMet(cohosts, rows, i, e, user) || IsOtherCohost(cohost, e, user)
      {
      }
      if cohost.user != user && cohost.event !in successors {
        assert IsFirstMet(cohosts, rows, cohost.event, user, cohost.user);
        successors := successors[cohost.event := cohost.user];
      }
    }
  }

  class GatheringTables {
    var events: map<Id, Event>
    var cohosts: map<Id, Cohost>
    var rsvps: map<(Id, Id), Rsvp>
    var seriesHosts: map<Id, Option<Id>>
    var users: map<Id, bool>

    function View(): Tables
      reads this
    {
      Tables(events, cohosts, rsvps, seriesHosts, users)
    }

    /** One batched roster lookup, oldest rows first; the first other co-host met of each event wins. */
    method ChooseSuccessors(user: Id, now: int) returns (successors: Successors)
      ensures ChoosesSuccessors(View(), user, now, successors)
    {
      var unfinished := HostedUnfinished(View(), user, now);
      var roster := set c | c in cohosts && cohosts[c].event in unfinished;
      var rows := OrderedBy(roster, map c | c in cohosts :: cohosts[c].createdAt);
      successors := FirstOthers(cohosts, rows, user);
      RosterHasAll(cohosts, unfinished, rows, user, successors);
    }

    /** One turn of `handOverEvents`: host, roster, seat. */
    method HandOver(event: Id, successor: Id, clock: Id -> int)
      requires event in events && events[event].status != Cancelled
      modifies this`events, this`cohosts, this`rsvps
      ensures events == old(events)[event := old(events)[event].(host := Some(successor))]
      ensures cohosts == OffRoster(old(cohosts), event, successor)
      ensures rsvps == if HasEnded(old(events)[event], clock(event)) then old(rsvps)
          else Seat(old(rsvps), users, event, successor)
    {
      events := events[event := events[event].(host := Some(successor))];
      cohosts := OffRoster(cohosts, event, successor);
      if events[event].status != Cancelled && !HasEnded(events[event], clock(event)) {
        rsvps := Seat(rsvps, users, event, successor);
      }
    }

    /** `handOverEvents`, one event at a time. */
    method HandOverEvents(handedOver: seq<Id>, successors: Successors, clock: Id -> int)
      requires forall e :: e in handedOver <==> e in successors
      requires forall i, j | 0 <= i < j < |handedOver| :: handedOver[i] != handedOver[j]
      requires forall e | e in successors :: e in events && events[e].status != Cancelled
      modifies this`events, this`cohosts, this`rsvps
      ensures events == HandedOver(old(events), successors)
      ensures cohosts == WithoutPromoted(old(cohosts), successors)
      ensures SeatedFor(old(rsvps), rsvps, old(View()), successors, successors.Keys, clock)
    {
      ghost var t := View();
      ghost var done: set<Id> := {};
      NothingDoneYet(t, successors, clock);
      for i := 0 to |handedOver|
        invariant forall e :: e in done <==> e in handedOver[..i]
        invariant DoneUpTo(t, View(), successors, done, clock)
      {
        var event := handedOver[i];
        assert event !in done && event in successors;
        ghost var before := View();
        HandOver(event, successors[event], clock);
        OneMoreDone(t, before, View(), successors, done, event, clock);
        done := done + {event};
      }
      assert handedOver[..|handedOver|] == handedOver;
      assert done == successors.Keys;
      assert Only(successors, done) == successors;
    }

    /** `releaseHostedSeries`, one update a series that has a successor. */
    method ReleaseHostedSeries(user: Id, successors: Successors, now: int)
      modifies this`seriesHosts
      ensures SeriesFollow(old(seriesHosts), seriesHosts, events, user, successors, now)
    {
      var hosted := set s | s in seriesHosts && seriesHosts[s] == Some(user);
      var chosen := ChooseForSeries(events, hosted, successors, now);
      ghost var before := seriesHosts;
      var left := chosen.Keys;
      while left != {}
        invariant left <= chosen.Keys
        invariant seriesHosts.Keys == before.Keys
        invariant forall s | s in before ::
            seriesHosts[s] == if s in chosen && s !in left then Some(chosen[s]) else before[s]
        decreases left
      {
        var s :| s in left;
        seriesHosts := seriesHosts[s := Some(chosen[s])];
        left := left - {s};
      }
    }

    /**
     * `handleFutureGatherings`. `clock` is what the clock reads when each event is handed over, which the
     * seat check reads anew.
     */
    method HandleFutureGatherings(user: Id, now: int, clock: Id -> int) returns (ghost successors: Successors)
      modifies this
      ensures Pass(old(View()), View(), user, now, clock, successors)
    {
      ghost var t := View();
      var unfinished := HostedUnfinished(View(), user, now);
      if unfinished == {} {
        NothingToDo(t, user, now, clock);
        return map[];
      }
      var chosen := ChooseSuccessors(user, now);
      successors := chosen;
      var handedOver, cancelled := Divide(user, now, unfinished, chosen);
      Settle(user, now, clock, chosen, handedOver, cancelled);
      StepsMakeAPass(t, View(), user, now, clock, chosen);
    }

    /** Soonest first, each gathering to the hand-over list, the cancel list or neither. */
    method Divide(
        user: Id, now: int, unfinished: set<Id>, successors: Successors)
      returns (handedOver: seq<Id>, cancelled: seq<Id>)
      requires unfinished == HostedUnfinished(View(), user, now) && ChoosesSuccessors(View(), user, now, successors)
      ensures forall e :: e in handedOver <==> e in successors
      ensures forall i, j | 0 <= i < j < |handedOver| :: handedOver[i] != handedOver[j]
      ensures forall e | e in successors :: e in events && events[e].status != Cancelled
      ensures (set e | e in cancelled) == CalledOff(View(), user, now)
    {
      SuccessorsAreOfUnfinished(View(), user, now, successors);
      var ordered := OrderedBy(unfinished, map e | e in events :: events[e].startAt);
      handedOver, cancelled := SplitByOutcome(events, ordered, successors, now);
      CalledOffAreTheRest(View(), user, now, successors, ordered, cancelled);
    }

    /** The rest of the pass, once the successors are known. */
    method Settle(user: Id, now: int, clock: Id -> int, successors: Successors, handedOver: seq<Id>, cancelled: seq<Id>)
      requires forall e :: e in handedOver <==> e in successors
      requires forall i, j | 0 <= i < j < |handedOver| :: handedOver[i] != handedOver[j]
      requires forall e | e in successors :: e in events && events[e].status != Cancelled
      modifies this
      ensures users == old(users)
      ensures events == AfterEvents(old(events), successors, set e | e in cancelled)
      ensures cohosts == WithoutPromoted(old(cohosts), successors)
      ensures SeatedFor(old(rsvps), rsvps, old(View()), successors, successors.Keys, clock)
      ensures SeriesFollow(old(seriesHosts), seriesHosts, events, user, successors, now)
    {
      HandOverEvents(handedOver, successors, clock);
      CancelEvents(cancelled);
      ReleaseHostedSeries(user, successors, now);
    }

    /** `cancelEvents`, one statement for them all. */
    method CancelEvents(cancelled: seq<Id>)
      modifies this`events
      ensures events == WithCancelled(old(events), set e | e in cancelled)
    {
      if cancelled == [] {
        assert WithCancelled(events, {}) == events;
        return;
      }
      events := WithCancelled(events, set e | e in cancelled);
    }
  }

  /** The co-host's gatherings, and those called off; one under way without a co-host is in neither list. */
  method SplitByOutcome(
      events: map<Id, Event>, ordered: seq<Id>, successors: Successors, now: int)
    returns (handedOver: seq<Id>, cancelled: seq<Id>)
    requires forall e | e in ordered :: e in events
    requires forall i, j | 0 <= i < j < |ordered| :: ordered[i] != ordered[j]
    ensures forall i, j | 0 <= i < j < |handedOver| :: handedOver[i] != handedOver[j]
    ensures forall e :: e in handedOver <==> e in ordered && e in successors
    ensures forall e :: e in cancelled <==> e in ordered && e !in successors && events[e].startAt > now
  {
    handedOver, cancelled := [], [];
    for i := 0 to |ordered|
      invariant forall j, k | 0 <= j < k < |handedOver| :: handedOver[j] != handedOver[k]
      invariant forall e :: e in handedOver <==> e in ordered[..i] && e in successors
      invariant forall e :: e in cancelled <==> e in ordered[..i] && e !in successors && events[e].startAt > now
    {
      var event := ordered[i];
      if event in successors {
        assert event !in ordered[..i];
        handedOver := handedOver + [event];
      } else if events[event].startAt > now {
        cancelled := cancelled + [event];
      }
    }
    assert ordered[..|ordered|] == ordered;
  }

  /** Occurrences soonest first; the first inherited one of each series decides. */
  method ChooseForSeries(
      events: map<Id, Event>, hosted: set<Id>, successors: Successors, now: int) returns (chosen: map<Id, Id>)
    ensures forall s :: s in chosen <==> s in hosted && Inherited(events, s, successors, now) != {}
    ensures forall s | s in chosen :: LeadsEarliest(events, s, successors, now, chosen[s])
  {
    var matching := set e | e in events && events[e].series.Some? && events[e].series.value in hosted
      && Unfinished(events[e], now);
    var occurrences := OrderedBy(matching, map e | e in events :: events[e].startAt);
    chosen := map[];
    for i := 0 to |occurrences|
      invariant forall s | s in chosen :: s in hosted && LeadsEarliest(events, s, successors, now, chosen[s])
      invariant forall s | s in hosted && s !in chosen :: forall k | 0 <= k < i ::
          occurrences[k] !in Inherited(events, s, successors, now)
    {
      var occurrence := occurrences[i];
      assert occurrence in matching;
      var series := events[occurrence].series.value;
      if series !in chosen && occurrence in successors {
        EarliestOccurrence(events, occurrences, i, series, successors, now);
        chosen := chosen[series := successors[occurrence]];
      }
    }
    forall s | s in hosted && Inherited(events, s, successors, now) != {} ensures s in chosen {
      var e :| e in Inherited(events, s, successors, now);
      assert e in occurrences;
    }
  }

  function OffRoster(cohosts: map<Id, Cohost>, event: Id, user: Id): map<Id, Cohost> {
    map c | c in cohosts && !(cohosts[c].event == event && cohosts[c].user == user) :: cohosts[c]
  }

  /** The part of the handover already made. */
  function Only(successors: Successors, done: set<Id>): Successors {
    map e | e in successors && e in done :: successors[e]
  }

  /** In a roster sorted by age the first other co-host met is the longest-standing one. */
  lemma {:induction false} FirstMetIsEarliest(
      cohosts: map<Id, Cohost>, rows: seq<Id>, event: Id, user: Id, successor: Id)
    requires forall k | 0 <= k < |rows| :: rows[k] in cohosts
    requires forall j, k | 0 <= j < k < |rows| :: cohosts[rows[j]].createdAt <= cohosts[rows[k]].createdAt
    requires forall c | c in cohosts && cohosts[c].event == event :: c in rows
    requires IsFirstMet(cohosts, rows, event, user, successor)
    ensures IsEarliestCohost(cohosts, event, user, successor)
  {
    var i :| 0 <= i < |rows| && IsOtherCohost(cohosts[rows[i]], event, user) && cohosts[rows[i]].user == successor
      && !IsMet(cohosts, rows, i, event, user);
    forall d | d in cohosts && IsOtherCohost(cohosts[d], event, user)
      ensures cohosts[rows[i]].createdAt <= cohosts[d].createdAt
    {
      var k :| 0 <= k < |rows| && rows[k] == d;
      assert k >= i;
    }
  }

  lemma {:induction false} RosterHasAll(
      cohosts: map<Id, Cohost>, unfinished: set<Id>, rows: seq<Id>, user: Id, successors: Successors)
    requires forall c :: c in rows <==> c in cohosts && cohosts[c].event in unfinished
    requires forall k | 0 <= k < |rows| :: rows[k] in cohosts
    requires forall j, k | 0 <= j < k < |rows| :: cohosts[rows[j]].createdAt <= cohosts[rows[k]].createdAt
    requires forall e :: e in successors <==> IsMet(cohosts, rows, |rows|, e, user)
    requires forall e | e in successors :: IsFirstMet(cohosts, rows, e, user, successors[e])
    ensures forall e :: e in successors <==> e in unfinished && HasSuccessor(cohosts, e, user)
    ensures forall e | e in successors :: IsEarliestCohost(cohosts, e, user, successors[e])
  {
    forall e ensures e in successors <==> e in unfinished && HasSuccessor(cohosts, e, user) {
      if e in unfinished && HasSuccessor(cohosts, e, user) {
        var c :| c in cohosts && IsOtherCohost(cohosts[c], e, user);
        var k :| 0 <= k < |rows| && rows[k] == c;
        assert IsMet(cohosts, rows, |rows|, e, user);
      }
      if e in successors {
        var k :| 0 <= k < |rows| && IsOtherCohost(cohosts[rows[k]], e, user);
        assert rows[k] in rows;
      }
    }
    forall e | e in successors ensures IsEarliestCohost(cohosts, e, user, successors[e]) {
      FirstMetIsEarliest(cohosts, rows, e, user, successors[e]);
    }
  }

  /** The tables after the events of `done`. */
  ghost predicate DoneUpTo(t: Tables, t': Tables, successors: Successors, done: set<Id>, clock: Id -> int) {
    && t'.events == HandedOver(t.events, Only(successors, done))
    && t'.cohosts == WithoutPromoted(t.cohosts, Only(successors, done))
    && SeatedFor(t.rsvps, t'.rsvps, t, successors, done, clock)
    && t'.seriesHosts == t.seriesHosts && t'.users == t.users
  }

  lemma {:induction false} NothingDoneYet(t: Tables, successors: Successors, clock: Id -> int)
    ensures DoneUpTo(t, t, successors, {}, clock)
  {
    assert HandedOver(t.events, Only(successors, {})) == t.events;
    assert WithoutPromoted(t.cohosts, Only(successors, {})) == t.cohosts;
  }

  lemma {:induction false} OneMoreDone(
      t: Tables, before: Tables, after: Tables, successors: Successors, done: set<Id>, event: Id, clock: Id -> int)
    requires DoneUpTo(t, before, successors, done, clock) && event in successors && event in t.events && event !in done
    requires event in before.events
        && after.events == before.events[event := before.events[event].(host := Some(successors[event]))]
    requires after.cohosts == OffRoster(before.cohosts, event, successors[event])
    requires after.rsvps == if HasEnded(before.events[event], clock(event)) then before.rsvps
        else Seat(before.rsvps, t.users, event, successors[event])
    requires after.seriesHosts == before.seriesHosts && after.users == before.users
    ensures DoneUpTo(t, after, successors, done + {event}, clock)
  {
    HandOneMore(t, successors, done, event);
    SeatOneMore(t, before.rsvps, after.rsvps, successors, done, event, clock);
  }

  lemma {:induction false} HandOneMore(t: Tables, successors: Successors, done: set<Id>, event: Id)
    requires event in successors && event in t.events && event !in done
    ensures var before := HandedOver(t.events, Only(successors, done));
            HandedOver(t.events, Only(successors, done + {event}))
              == before[event := before[event].(host := Some(successors[event]))]
    ensures WithoutPromoted(t.cohosts, Only(successors, done + {event}))
         == OffRoster(WithoutPromoted(t.cohosts, Only(successors, done)), event, successors[event])
  {
  }

  lemma {:induction false} SeatOneMore(
      t: Tables, before: map<(Id, Id), Rsvp>, after: map<(Id, Id), Rsvp>, successors: Successors, done: set<Id>,
      event: Id, clock: Id -> int)
    requires event in successors && event in t.events && event !in done
    requires SeatedFor(t.rsvps, before, t, successors, done, clock)
    requires after == if HasEnded(t.events[event], clock(event)) then before
        else Seat(before, t.users, event, successors[event])
    ensures SeatedFor(t.rsvps, after, t, successors, done + {event}, clock)
  {
  }

  lemma {:induction false} EarliestOccurrence(
      events: map<Id, Event>, occurrences: seq<Id>, i: nat, series: Id, successors: Successors, now: int)
    requires i < |occurrences| && occurrences[i] in Inherited(events, series, successors, now)
    requires forall k | 0 <= k < |occurrences| :: occurrences[k] in events
    requires forall j, k | 0 <= j < k < |occurrences| ::
        events[occurrences[j]].startAt <= events[occurrences[k]].startAt
    requires forall k | 0 <= k < i :: occurrences[k] !in Inherited(events, series, successors, now)
    requires forall e | e in Inherited(events, series, successors, now) :: e in occurrences
    ensures LeadsEarliest(events, series, successors, now, successors[occurrences[i]])
  {
    forall f | f in Inherited(events, series, successors, now)
      ensures events[occurrences[i]].startAt <= events[f].startAt
    {
      var k :| 0 <= k < |occurrences| && occurrences[k] == f;
      assert k >= i;
    }
  }

  lemma {:induction false} NothingToDo(t: Tables, user: Id, now: int, clock: Id -> int)
    requires HostedUnfinished(t, user, now) == {}
    ensures Pass(t, t, user, now, clock, map[])
  {
    assert HandedOver(t.events, map[]) == t.events;
    assert CalledOff(t, user, now) == {};
    assert WithCancelled(t.events, {}) == t.events;
    assert WithoutPromoted(t.cohosts, map[]) == t.cohosts;
    forall s | s in t.seriesHosts ensures Inherited(t.events, s, map[], now) == {} {
    }
  }

  lemma {:induction false} SuccessorsAreOfUnfinished(t: Tables, user: Id, now: int, successors: Successors)
    requires ChoosesSuccessors(t, user, now, successors)
    ensures forall e | e in HostedUnfinished(t, user, now) :: e in t.events
    ensures forall e | e in successors :: e in HostedUnfinished(t, user, now) && t.events[e].status != Cancelled
  {
  }

  lemma {:induction false} CalledOffAreTheRest(
      t: Tables, user: Id, now: int, successors: Successors, ordered: seq<Id>, cancelled: seq<Id>)
    requires ChoosesSuccessors(t, user, now, successors)
    requires forall e :: e in ordered <==> e in HostedUnfinished(t, user, now)
    requires forall e :: e in cancelled <==> e in ordered && e !in successors && t.events[e].startAt > now
    ensures (set e | e in cancelled) == CalledOff(t, user, now)
  {
  }

  function AfterEvents(events: map<Id, Event>, successors: Successors, calledOff: set<Id>): map<Id, Event> {
    WithCancelled(HandedOver(events, successors), calledOff)
  }

  /** Neither a handover nor a cancellation moves an occurrence in time or out of its series. */
  lemma {:induction false} OccurrencesStay(
      events: map<Id, Event>, successors: Successors, calledOff: set<Id>, s: Id, now: int)
    ensures Inherited(AfterEvents(events, successors, calledOff), s, successors, now)
        == Inherited(events, s, successors, now)
  {
  }

  lemma {:induction false} FollowsTheFirstOccurrences(
      before: map<Id, Option<Id>>, after: map<Id, Option<Id>>, events: map<Id, Event>, user: Id,
      successors: Successors, calledOff: set<Id>, now: int)
    requires SeriesFollow(before, after, AfterEvents(events, successors, calledOff), user, successors, now)
    ensures SeriesFollow(before, after, events, user, successors, now)
  {
    forall s | s in before && before[s] == Some(user) && Inherited(events, s, successors, now) != {}
      ensures after[s].Some? && LeadsEarliest(events, s, successors, now, after[s].value)
    {
      OccurrencesStay(events, successors, calledOff, s, now);
      LeadsEither(events, successors, calledOff, s, now, after[s].value);
    }
    forall s | s in before && Inherited(events, s, successors, now) == {} ensures after[s] == before[s] {
      OccurrencesStay(events, successors, calledOff, s, now);
    }
  }

  lemma {:induction false} StepsMakeAPass(
      t: Tables, t': Tables, user: Id, now: int, clock: Id -> int, successors: Successors)
    requires ChoosesSuccessors(t, user, now, successors)
    requires t'.users == t.users
    requires t'.events == AfterEvents(t.events, successors, CalledOff(t, user, now))
    requires t'.cohosts == WithoutPromoted(t.cohosts, successors)
    requires SeatedFor(t.rsvps, t'.rsvps, t, successors, successors.Keys, clock)
    requires SeriesFollow(t.seriesHosts, t'.seriesHosts, t'.events, user, successors, now)
    ensures Pass(t, t', user, now, clock, successors)
  {
    FollowsTheFirstOccurrences(t.seriesHosts, t'.seriesHosts, t.events, user, successors, CalledOff(t, user, now), now);
  }

  lemma {:induction false} LeadsEither(
      events: map<Id, Event>, successors: Successors, calledOff: set<Id>, s: Id, now: int, host: Id)
    requires LeadsEarliest(AfterEvents(events, successors, calledOff), s, successors, now, host)
    ensures LeadsEarliest(events, s, successors, now, host)
  {
    var later := AfterEvents(events, successors, calledOff);
    OccurrencesStay(events, successors, calledOff, s, now);
    var inherited := Inherited(later, s, successors, now);
    var e :| e in inherited && host == successors[e] && forall f | f in inherited ::
      later[e].startAt <= later[f].startAt;
    forall f | f in inherited ensures events[e].startAt <= events[f].startAt {
      assert later[e].startAt <= later[f].startAt;
    }
  }
}
