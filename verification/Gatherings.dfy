/**
 * What becomes of an erased host's gatherings (`handleFutureGatherings`,
 * src/account/content-owner-erasure.service.ts): handed to a co-host, called off, or left to finish.
 */
module Gatherings {
  import opened Wrappers

  type Id = nat

  datatype EventStatus = Draft | Published | Cancelled

  datatype Event = Event(host: Option<Id>, status: EventStatus, startAt: int, endAt: Option<int>, series: Option<Id>)

  datatype Cohost = Cohost(event: Id, user: Id, createdAt: int)

  datatype RsvpStatus = Going | Maybe | Waitlisted | NotGoing

  datatype Rsvp = Rsvp(status: RsvpStatus, waitlistPosition: Option<nat>, guestCount: nat, removedByHostAt: Option<int>)

  datatype Tables = Tables(
    events: map<Id, Event>,
    cohosts: map<Id, Cohost>,
    rsvps: map<(Id, Id), Rsvp>,
    /** `event_series.host_id`. */
    seriesHosts: map<Id, Option<Id>>,
    /** Existing users; the value is `is_system`. */
    users: map<Id, bool>
  )

  // ------------------------------------------------------------------------ the selections

  /** `startAt > now OR endAt > now`. */
  predicate Unfinished(e: Event, now: int) { e.startAt > now || (e.endAt.Some? && e.endAt.value > now) }

  /** `hasEnded` of src/events/event-timing.ts. */
  predicate HasEnded(e: Event, now: int) { e.endAt.GetOr(e.startAt) <= now }

  predicate InScope(e: Event, user: Id, now: int) {
    e.host == Some(user) && e.status != Cancelled && Unfinished(e, now)
  }

  function HostedUnfinished(t: Tables, user: Id, now: int): set<Id> {
    set e | e in t.events && InScope(t.events[e], user, now)
  }

  /** Somebody else on the roster of the event. */
  predicate IsOtherCohost(c: Cohost, event: Id, user: Id) { c.event == event && c.user != user }

  predicate HasSuccessor(cohosts: map<Id, Cohost>, event: Id, user: Id) {
    exists c | c in cohosts :: IsOtherCohost(cohosts[c], event, user)
  }

  /** The successor is the longest-standing of them. */
  ghost predicate IsEarliestCohost(cohosts: map<Id, Cohost>, event: Id, user: Id, successor: Id) {
    exists c | c in cohosts ::
      && IsOtherCohost(cohosts[c], event, user)
      && cohosts[c].user == successor
      && forall d | d in cohosts && IsOtherCohost(cohosts[d], event, user) ::
         cohosts[c].createdAt <= cohosts[d].createdAt
  }

  type Successors = map<Id, Id>

  ghost predicate ChoosesSuccessors(t: Tables, user: Id, now: int, successors: Successors) {
    && (forall e :: e in successors <==> e in HostedUnfinished(t, user, now) && HasSuccessor(t.cohosts, e, user))
    && (forall e | e in successors :: IsEarliestCohost(t.cohosts, e, user, successors[e]))
  }

  /** Not started, and nobody to hand it to. */
  function CalledOff(t: Tables, user: Id, now: int): set<Id> {
    set e | e in HostedUnfinished(t, user, now) && !HasSuccessor(t.cohosts, e, user) && t.events[e].startAt > now
  }

  // ------------------------------------------------------------------------- the statements

  function HandedOver(events: map<Id, Event>, successors: Successors): map<Id, Event> {
    map e | e in events :: if e in successors then events[e].(host := Some(successors[e])) else events[e]
  }

  function WithoutPromoted(cohosts: map<Id, Cohost>, successors: Successors): map<Id, Cohost> {
    map c | c in cohosts && !(cohosts[c].event in successors && cohosts[c].user == successors[cohosts[c].event]) ::
      cohosts[c]
  }

  /** `seatHostAsGoing`: a new going row, or the row they hold moved to going with its guests kept. */
  function Seat(rsvps: map<(Id, Id), Rsvp>, users: map<Id, bool>, event: Id, host: Id): map<(Id, Id), Rsvp> {
    if host !in users || users[host] then rsvps
    else if (event, host) in rsvps then
      rsvps[(event, host) := rsvps[(event, host)].(status := Going, waitlistPosition := None, removedByHostAt := None)]
    else rsvps[(event, host) := Rsvp(Going, None, 0, None)]
  }

  /** The seats after the events of `done` were handed over, each at the instant `clock` reads then. */
  ghost predicate SeatedFor(
      before: map<(Id, Id), Rsvp>, after: map<(Id, Id), Rsvp>, t: Tables, successors: Successors, done: set<Id>,
      clock: Id -> int)
  {
    forall e, u ::
      var seated := e in done && e in successors && e in t.events && successors[e] == u
        && !HasEnded(t.events[e], clock(e)) && u in t.users && !t.users[u];
      && (seated ==>
            (e, u) in after && after[(e, u)] == Seat(before, t.users, e, u)[(e, u)] && after[(e, u)].status == Going)
      && (!seated ==> ((e, u) in after <==> (e, u) in before) && ((e, u) in before ==> after[(e, u)] == before[(e, u)]))
  }

  function WithCancelled(events: map<Id, Event>, cancelled: set<Id>): map<Id, Event> {
    map e | e in events :: if e in cancelled then events[e].(status := Cancelled) else events[e]
  }

  /** The inherited, unfinished occurrences of a series. */
  function Inherited(events: map<Id, Event>, series: Id, successors: Successors, now: int): set<Id> {
    set e | e in events && events[e].series == Some(series) && Unfinished(events[e], now) && e in successors
  }

  /** The successor of the earliest inherited occurrence of the series. */
  ghost predicate LeadsEarliest(events: map<Id, Event>, series: Id, successors: Successors, now: int, host: Id) {
    var inherited := Inherited(events, series, successors, now);
    exists e | e in inherited :: host == successors[e] && forall f | f in inherited ::
      events[e].startAt <= events[f].startAt
  }

  /** Each series the member hosted follows its earliest inherited occurrence; without one it stays. */
  ghost predicate SeriesFollow(
      before: map<Id, Option<Id>>, after: map<Id, Option<Id>>, events: map<Id, Event>, user: Id,
      successors: Successors, now: int)
  {
    && after.Keys == before.Keys
    && forall s | s in before ::
         if before[s] != Some(user) || Inherited(events, s, successors, now) == {} then after[s] == before[s]
         else after[s].Some? && LeadsEarliest(events, s, successors, now, after[s].value)
  }

  /** One complete pass. */
  ghost predicate Pass(t: Tables, t': Tables, user: Id, now: int, clock: Id -> int, successors: Successors) {
    && ChoosesSuccessors(t, user, now, successors)
    && t'.users == t.users
    && t'.events == WithCancelled(HandedOver(t.events, successors), CalledOff(t, user, now))
    && t'.cohosts == WithoutPromoted(t.cohosts, successors)
    && SeatedFor(t.rsvps, t'.rsvps, t, successors, successors.Keys, clock)
    && SeriesFollow(t.seriesHosts, t'.seriesHosts, t.events, user, successors, now)
  }

  // -------------------------------------------------------------------------- properties

  /** The three outcomes of one of the host's gatherings. */
  lemma {:induction false} GatheringOutcome(
      t: Tables, t': Tables, user: Id, now: int, clock: Id -> int, successors: Successors, e: Id)
    requires Pass(t, t', user, now, clock, successors) && e in t.events
    ensures e in t'.events
    ensures var before, after := t.events[e], t'.events[e];
            if !InScope(before, user, now) then after == before
            else if HasSuccessor(t.cohosts, e, user) then
              && after == before.(host := Some(successors[e]))
              && successors[e] != user
              && IsEarliestCohost(t.cohosts, e, user, successors[e])
              && (forall c | c in t'.cohosts :: !(t'.cohosts[c].event == e && t'.cohosts[c].user == successors[e]))
              && (!HasEnded(before, clock(e)) && successors[e] in t.users && !t.users[successors[e]] ==>
                    (e, successors[e]) in t'.rsvps && t'.rsvps[(e, successors[e])].status == Going)
            else if before.startAt > now then after == before.(status := Cancelled)
            else after == before
  {
  }

  /** Nobody becomes host who was not on the roster, and nobody else's gathering changes hands. */
  lemma {:induction false} OnlyCohostsInherit(
      t: Tables, t': Tables, user: Id, now: int, clock: Id -> int, successors: Successors, e: Id)
    requires Pass(t, t', user, now, clock, successors) && e in t.events && t'.events[e].host != t.events[e].host
    ensures t.events[e].host == Some(user)
    ensures exists c | c in t.cohosts :: t.cohosts[c].event == e && Some(t.cohosts[c].user) == t'.events[e].host
  {
    assert e in successors;
    var c :| c in t.cohosts && IsOtherCohost(t.cohosts[c], e, user) && t.cohosts[c].user == successors[e]
          && forall d | d in t.cohosts && IsOtherCohost(t.cohosts[d], e, user) ::
             t.cohosts[c].createdAt <= t.cohosts[d].createdAt;
  }

  /** A second complete pass, then or later, changes nothing. */
  lemma {:induction false} SecondPassChangesNothing(
      t: Tables, t': Tables, t'': Tables, user: Id, now: int, later: int, clock: Id -> int, clock': Id -> int,
      first: Successors, second: Successors)
    requires now <= later
    requires Pass(t, t', user, now, clock, first) && Pass(t', t'', user, later, clock', second)
    ensures t'' == t'
  {
    NothingLeftToHandOver(t, t', user, now, later, clock, first);
    assert second == map[];
    assert CalledOff(t', user, later) == {};
    NothingMoves(t', t'', user, later, clock');
  }

  /** After a pass no unfinished gathering of the host has a successor, and none is still to start. */
  lemma {:induction false} NothingLeftToHandOver(
      t: Tables, t': Tables, user: Id, now: int, later: int, clock: Id -> int, first: Successors)
    requires now <= later && Pass(t, t', user, now, clock, first)
    ensures forall e | e in HostedUnfinished(t', user, later) ::
        !HasSuccessor(t'.cohosts, e, user) && t'.events[e].startAt <= later
  {
    forall e | e in HostedUnfinished(t', user, later)
      ensures !HasSuccessor(t'.cohosts, e, user) && t'.events[e].startAt <= later
    {
      GatheringOutcome(t, t', user, now, clock, first, e);
      assert !HasSuccessor(t.cohosts, e, user);
    }
  }

  lemma {:induction false} NothingMoves(t: Tables, t': Tables, user: Id, now: int, clock: Id -> int)
    requires Pass(t, t', user, now, clock, map[])
    requires CalledOff(t, user, now) == {}
    ensures t' == t
  {
    assert t'.events == t.events;
    assert t'.cohosts == t.cohosts;
    SameSeats(t, t', map[], clock);
    forall s | s in t.seriesHosts ensures t'.seriesHosts[s] == t.seriesHosts[s] {
      assert Inherited(t.events, s, map[], now) == {};
    }
    assert t'.seriesHosts == t.seriesHosts;
  }

  lemma {:induction false} SameSeats(t: Tables, t': Tables, successors: Successors, clock: Id -> int)
    requires successors == map[] && SeatedFor(t.rsvps, t'.rsvps, t, successors, {}, clock)
    ensures t'.rsvps == t.rsvps
  {
    forall k: (Id, Id) ensures (k in t'.rsvps <==> k in t.rsvps) && (k in t.rsvps ==> t'.rsvps[k] == t.rsvps[k]) {
      var (e, u) := k;
      assert (e, u) == k;
    }
  }

  // ------------------------------------------------------------------- by the rows themselves

  predicate IsSomebodyElses(c: Cohost, event: Id, user: Id) { c.event == event && c.user != user }

  /** Ahead, or with a stated end still to come; drafts as well as published gatherings. */
  predicate IsLeft(e: Event, user: Id, now: int) {
    && e.host == Some(user) && e.status in {Draft, Published}
    && match e.endAt
       case None => now < e.startAt
       case Some(end) => now < e.startAt || now < end
  }

  /** Of the others on the roster, the one who has been on it longest. */
  lemma {:induction false} EarliestIsLongest(cohosts: map<Id, Cohost>, event: Id, user: Id, successor: Id)
    requires IsEarliestCohost(cohosts, event, user, successor)
    ensures exists c | c in cohosts ::
              && IsSomebodyElses(cohosts[c], event, user) && cohosts[c].user == successor
              && forall d | d in cohosts && IsSomebodyElses(cohosts[d], event, user) ::
                   cohosts[c].createdAt <= cohosts[d].createdAt
  {
    var c :| c in cohosts && IsOtherCohost(cohosts[c], event, user) && cohosts[c].user == successor
             && forall d | d in cohosts && IsOtherCohost(cohosts[d], event, user) ::
                  cohosts[c].createdAt <= cohosts[d].createdAt;
    forall d | d in cohosts && IsSomebodyElses(cohosts[d], event, user)
      ensures cohosts[c].createdAt <= cohosts[d].createdAt
    {
      assert IsOtherCohost(cohosts[d], event, user);
    }
    assert IsSomebodyElses(cohosts[c], event, user);
  }

  /** The host and the status of a gathering after a complete pass. */
  lemma {:induction false} HostAndStatusAfter(
      t: Tables, t': Tables, user: Id, now: int, clock: Id -> int, successors: Successors, e: Id)
    requires Pass(t, t', user, now, clock, successors) && e in t.events
    ensures e in t'.events
    ensures var before, after := t.events[e], t'.events[e];
            var others := exists c | c in t.cohosts :: IsSomebodyElses(t.cohosts[c], e, user);
            && (!IsLeft(before, user, now) ==> after == before)
            && (IsLeft(before, user, now) && others ==>
                  && after.host.Some? && after == before.(host := after.host)
                  && exists c | c in t.cohosts ::
                       && IsSomebodyElses(t.cohosts[c], e, user) && t.cohosts[c].user == after.host.value
                       && forall d | d in t.cohosts && IsSomebodyElses(t.cohosts[d], e, user) ::
                            t.cohosts[c].createdAt <= t.cohosts[d].createdAt)
            && (IsLeft(before, user, now) && !others ==>
                  after == if now < before.startAt then before.(status := Cancelled) else before)
  {
    GatheringOutcome(t, t', user, now, clock, successors, e);
    assert IsLeft(t.events[e], user, now) <==> InScope(t.events[e], user, now);
    if c :| c in t.cohosts && IsSomebodyElses(t.cohosts[c], e, user) {
      assert IsOtherCohost(t.cohosts[c], e, user);
    }
    if c :| c in t.cohosts && IsOtherCohost(t.cohosts[c], e, user) {
      assert IsSomebodyElses(t.cohosts[c], e, user);
    }
    if InScope(t.events[e], user, now) && HasSuccessor(t.cohosts, e, user) {
      EarliestIsLongest(t.cohosts, e, user, successors[e]);
    }
  }

  predicate ChangedHands(t: Tables, t': Tables, e: Id) {
    e in t.events && e in t'.events && t'.events[e].host != t.events[e].host
  }

  lemma {:induction false} ChangedHandsIff(
      t: Tables, t': Tables, user: Id, now: int, clock: Id -> int, successors: Successors, e: Id)
    requires Pass(t, t', user, now, clock, successors)
    ensures ChangedHands(t, t', e) <==> e in successors
    ensures e in successors ==> t'.events[e].host == Some(successors[e])
  {
    if e in successors {
      GatheringOutcome(t, t', user, now, clock, successors, e);
    }
  }

  /** A new host leaves the roster and, holding an account, is seated while the gathering lasts, guests kept. */
  lemma {:induction false} NewHostIsSeated(
      t: Tables, t': Tables, user: Id, now: int, clock: Id -> int, successors: Successors, e: Id, host: Id)
    requires Pass(t, t', user, now, clock, successors)
    requires ChangedHands(t, t', e) && t'.events[e].host == Some(host)
    ensures forall c | c in t.cohosts && t.cohosts[c].event == e ::
              if t.cohosts[c].user == host then c !in t'.cohosts
              else c in t'.cohosts && t'.cohosts[c] == t.cohosts[c]
    ensures var lasts := (match t.events[e].endAt case None => clock(e) < t.events[e].startAt
                          case Some(end) => clock(e) < end);
            if lasts && host in t.users && !t.users[host] then
              && (e, host) in t'.rsvps
              && t'.rsvps[(e, host)]
                 == Rsvp(Going, None, if (e, host) in t.rsvps then t.rsvps[(e, host)].guestCount else 0, None)
            else
              && ((e, host) in t'.rsvps <==> (e, host) in t.rsvps)
              && ((e, host) in t.rsvps ==> t'.rsvps[(e, host)] == t.rsvps[(e, host)])
  {
    ChangedHandsIff(t, t', user, now, clock, successors, e);
  }

  /** Nobody else's seat changes. */
  lemma {:induction false} OtherSeatsStay(
      t: Tables, t': Tables, user: Id, now: int, clock: Id -> int, successors: Successors, e: Id, member: Id)
    requires Pass(t, t', user, now, clock, successors)
    requires ChangedHands(t, t', e) ==> t'.events[e].host != Some(member)
    ensures (e, member) in t'.rsvps <==> (e, member) in t.rsvps
    ensures (e, member) in t.rsvps ==> t'.rsvps[(e, member)] == t.rsvps[(e, member)]
  {
    ChangedHandsIff(t, t', user, now, clock, successors, e);
  }

  predicate MovedWith(t: Tables, t': Tables, series: Id, e: Id) {
    ChangedHands(t, t', e) && t.events[e].series == Some(series)
  }

  /** A series of the host's goes where the earliest of its gatherings that changed hands went, or stays. */
  lemma {:induction false} SeriesAfter(
      t: Tables, t': Tables, user: Id, now: int, clock: Id -> int, successors: Successors, s: Id)
    requires Pass(t, t', user, now, clock, successors) && s in t.seriesHosts
    ensures s in t'.seriesHosts
    ensures if t.seriesHosts[s] == Some(user) && exists e :: MovedWith(t, t', s, e)
            then exists e :: MovedWith(t, t', s, e) && t'.seriesHosts[s] == t'.events[e].host
                   && forall f | MovedWith(t, t', s, f) :: t.events[e].startAt <= t.events[f].startAt
            else t'.seriesHosts[s] == t.seriesHosts[s]
  {
    var inherited := Inherited(t.events, s, successors, now);
    forall e ensures MovedWith(t, t', s, e) <==> e in inherited {
      ChangedHandsIff(t, t', user, now, clock, successors, e);
    }
    if t.seriesHosts[s] == Some(user) && inherited != {} {
      var e :| e in inherited && t'.seriesHosts[s].value == successors[e]
               && forall f | f in inherited :: t.events[e].startAt <= t.events[f].startAt;
      ChangedHandsIff(t, t', user, now, clock, successors, e);
      assert MovedWith(t, t', s, e);
    }
  }
}
