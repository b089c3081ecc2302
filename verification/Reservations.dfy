/**
 The reservation scheduler (src/parishkit/pk_validate_gcalendar_reservations.py): which pending
 events of one calendar are accepted and which are declined.
 */
module Reservations {
  import opened Arithmetic
  import opened Results
  import opened Lists

  /** Instants and durations are whole microseconds. */
  const SECOND := 1000000

  /** This calendar's own attendee status on an event; `NotAsked` also stands for any other status. */
  datatype Status = NeedsAction | Declined | NotAsked

  /** `start` and `end` are `None` when the event's field is missing or malformed. */
  datatype Event = Event(id: int, status: Status, creator: string, created: string,
                         start: Option<int>, end: Option<int>, transparent: bool)

  datatype Config = Config(domains: set<string>, checkConflicts: bool)

  datatype Response = Accept | Decline

  datatype Reason = NoReason | OutsideDomain | MalformedTime | ConflictsWith(blocker: Event)

  datatype Decision = Decision(event: Event, response: Response, reason: Reason)

  // ----- times -----

  /** The occupied interval, nudged inward by one second at each end. */
  function Interval(e: Event): Option<(int, int)> {
    if e.start.None? || e.end.None? then None else Some((e.start.value + SECOND, e.end.value - SECOND))
  }

  predicate Overlap(left: (int, int), right: (int, int)) {
    left.0 <= right.1 && right.0 <= left.1
  }

  predicate Conflict(a: Event, b: Event) {
    Interval(a).Some? && Interval(b).Some? && Overlap(Interval(a).value, Interval(b).value)
  }

  /** How long two events really run at the same time. */
  function SharedTime(a: Event, b: Event): int
    requires a.start.Some? && a.end.Some? && b.start.Some? && b.end.Some?
  {
    Min(a.end.value, b.end.value) - Max(a.start.value, b.start.value)
  }

  // ----- whose requests are considered -----

  /** The part after the last `@`, in lower case; empty without one. */
  function CreatorDomain(email: string): string {
    if '@' !in email then ""
    else if '@' in email[1..] then CreatorDomain(email[1..])
    else LowerAll(email[1..])
  }

  predicate Admissible(c: Config, e: Event) {
    CreatorDomain(e.creator) in c.domains
  }

  function IsRequest(): Event -> bool {
    (e: Event) => e.status.NeedsAction?
  }

  function IsPending(c: Config): Event -> bool {
    (e: Event) => e.status.NeedsAction? && Admissible(c, e)
  }

  function IsRefused(c: Config): Event -> bool {
    (e: Event) => e.status.NeedsAction? && !Admissible(c, e)
  }

  /** Already on the calendar, and blocking time. */
  function IsExisting(): Event -> bool {
    (e: Event) => e.status.NotAsked? && !e.transparent
  }

  function HasInterval(): Event -> bool {
    (e: Event) => Interval(e).Some?
  }

  function Blocking(events: seq<Event>): seq<Event> {
    Filter(Filter(events, IsExisting()), HasInterval())
  }

  // ----- decisions -----

  function FirstConflict(e: Event, blockers: seq<Event>): Option<Event> {
    if blockers == [] then None
    else if Conflict(e, blockers[0]) then Some(blockers[0])
    else FirstConflict(e, blockers[1..])
  }

  function DecideOne(e: Event, blockers: seq<Event>): Decision {
    if Interval(e).None? then Decision(e, Decline, MalformedTime)
    else
      var blocker := FirstConflict(e, blockers);
      if blocker.None? then Decision(e, Accept, NoReason) else Decision(e, Decline, ConflictsWith(blocker.value))
  }

  /** Requests accepted so far that block time. */
  function Won(decisions: seq<Decision>): seq<Event> {
    if decisions == [] then [] else
    var d := decisions[|decisions| - 1];
    Won(decisions[..|decisions| - 1]) + if d.response.Accept? && !d.event.transparent then [d.event] else []
  }

  /** Each request in turn, against the calendar and the requests accepted before it. */
  function DecideAll(pending: seq<Event>, blocking: seq<Event>): seq<Decision> {
    if pending == [] then [] else
    var before := DecideAll(pending[..|pending| - 1], blocking);
    before + [DecideOne(pending[|pending| - 1], blocking + Won(before))]
  }

  function RefuseAll(refused: seq<Event>): seq<Decision> {
    seq(|refused|, i requires 0 <= i < |refused| => Decision(refused[i], Decline, OutsideDomain))
  }

  function Unchecked(pending: seq<Event>): seq<Decision> {
    seq(|pending|, i requires 0 <= i < |pending| => DecideOne(pending[i], []))
  }

  function Created(e: Event): string { e.created }

  /** `reservation_decisions` for one calendar. */
  function Decisions(c: Config, events: seq<Event>): seq<Decision> {
    RefuseAll(Filter(events, IsRefused(c))) + Considered(c, events)
  }

  function Considered(c: Config, events: seq<Event>): seq<Decision> {
    var pending := Filter(events, IsPending(c));
    if c.checkConflicts then DecideAll(SortBy(pending, Created), Blocking(events)) else Unchecked(pending)
  }

  // ----- the same in the source's form: lists grown by loops -----

  method Classify(c: Config, events: seq<Event>)
    returns (decisions: seq<Decision>, pending: seq<Event>, existing: seq<Event>)
    ensures decisions == RefuseAll(Filter(events, IsRefused(c)))
    ensures pending == Filter(events, IsPending(c)) && existing == Filter(events, IsExisting())
  {
    decisions, pending, existing := [], [], [];
    for i := 0 to |events|
      invariant decisions == RefuseAll(Filter(events[..i], IsRefused(c)))
      invariant pending == Filter(events[..i], IsPending(c))
      invariant existing == Filter(events[..i], IsExisting())
    {
      var e := events[i];
      FilterNext(events, i, IsRefused(c));
      FilterNext(events, i, IsPending(c));
      FilterNext(events, i, IsExisting());
      if e.status.NeedsAction? {
        if !Admissible(c, e) {
          decisions := decisions + [Decision(e, Decline, OutsideDomain)];
        } else {
          pending := pending + [e];
        }
      } else if !e.status.Declined? && !e.transparent {
        existing := existing + [e];
      }
    }
    assert events[..|events|] == events;
  }

  method KeepTimed(existing: seq<Event>) returns (blockers: seq<Event>)
    ensures blockers == Filter(existing, HasInterval())
  {
    blockers := [];
    for i := 0 to |existing|
      invariant blockers == Filter(existing[..i], HasInterval())
    {
      FilterNext(existing, i, HasInterval());
      if Interval(existing[i]).Some? {
        blockers := blockers + [existing[i]];
      }
    }
    assert existing[..|existing|] == existing;
  }

  method DecideQueue(queue: seq<Event>, blocking: seq<Event>) returns (decisions: seq<Decision>)
    ensures decisions == DecideAll(queue, blocking)
  {
    decisions := [];
    var blockers := blocking;
    for i := 0 to |queue|
      invariant decisions == DecideAll(queue[..i], blocking)
      invariant blockers == blocking + Won(decisions)
    {
      assert queue[..i + 1][..i] == queue[..i];
      var d := DecideOne(queue[i], blockers);
      assert (decisions + [d])[..|decisions|] == decisions;
      decisions := decisions + [d];
      if d.response.Accept? && !d.event.transparent {
        blockers := blockers + [d.event];
      }
    }
    assert queue[..|queue|] == queue;
  }

  method ReservationDecisions(c: Config, events: seq<Event>) returns (decisions: seq<Decision>)
    ensures decisions == Decisions(c, events)
  {
    var pending, existing;
    decisions, pending, existing := Classify(c, events);
    if !c.checkConflicts {
      return decisions + Unchecked(pending);
    }
    var blocking := KeepTimed(existing);
    var more := DecideQueue(SortBy(pending, Created), blocking);
    decisions := decisions + more;
  }

  // ----- every request is decided exactly once -----

  function EventsOf(decisions: seq<Decision>): seq<Event> {
    seq(|decisions|, i requires 0 <= i < |decisions| => decisions[i].event)
  }

  lemma {:induction false} DecideAllInTurn(pending: seq<Event>, blocking: seq<Event>, i: nat)
    requires i < |pending|
    ensures var all := DecideAll(pending, blocking);
            && |all| == |pending| && all[..i] == DecideAll(pending[..i], blocking)
            && all[i] == DecideOne(pending[i], blocking + Won(all[..i]))
    decreases |pending|
  {
    var n := |pending| - 1;
    var before := pending[..n];
    DecideAllLength(before, blocking);
    if i == n {
      assert DecideAll(pending, blocking)[..n] == DecideAll(before, blocking);
    } else {
      DecideAllInTurn(before, blocking, i);
      assert before[..i] == pending[..i];
      assert DecideAll(pending, blocking)[..i] == DecideAll(before, blocking)[..i];
    }
  }

  lemma {:induction false} DecideAllLength(pending: seq<Event>, blocking: seq<Event>)
    ensures |DecideAll(pending, blocking)| == |pending|
  {
    if pending != [] {
      DecideAllLength(pending[..|pending| - 1], blocking);
    }
  }

  lemma DecideAllEvents(pending: seq<Event>, blocking: seq<Event>)
    ensures EventsOf(DecideAll(pending, blocking)) == pending
  {
    DecideAllLength(pending, blocking);
    forall i | 0 <= i < |pending| ensures DecideAll(pending, blocking)[i].event == pending[i] {
      DecideAllInTurn(pending, blocking, i);
    }
  }

  lemma RequestsSplit(c: Config, events: seq<Event>)
    ensures multiset(Filter(events, IsRefused(c))) + multiset(Filter(events, IsPending(c)))
         == multiset(Filter(events, IsRequest()))
  {
    var sum := multiset(Filter(events, IsRefused(c))) + multiset(Filter(events, IsPending(c)));
    forall e: Event ensures sum[e] == multiset(Filter(events, IsRequest()))[e] {
      FilterCount(events, IsRefused(c), e);
      FilterCount(events, IsPending(c), e);
      FilterCount(events, IsRequest(), e);
    }
  }

  lemma EventsAppend(a: seq<Decision>, b: seq<Decision>)
    ensures multiset(EventsOf(a + b)) == multiset(EventsOf(a)) + multiset(EventsOf(b))
  {
    assert EventsOf(a + b) == EventsOf(a) + EventsOf(b);
  }

  /** The decisions after the refusals are about the pending events. */
  lemma LaterEvents(c: Config, events: seq<Event>)
    ensures multiset(EventsOf(Considered(c, events))) == multiset(Filter(events, IsPending(c)))
  {
    var pending := Filter(events, IsPending(c));
    if c.checkConflicts {
      SortPermutes(pending, Created);
      DecideAllEvents(SortBy(pending, Created), Blocking(events));
    } else {
      assert EventsOf(Unchecked(pending)) == pending;
    }
  }

  /** Every event awaiting this calendar's answer gets exactly one decision, and no other event gets any. */
  lemma EachRequestDecidedOnce(c: Config, events: seq<Event>)
    ensures multiset(EventsOf(Decisions(c, events))) == multiset(Filter(events, (e: Event) => e.status.NeedsAction?))
  {
    RequestsSplit(c, events);
    LaterEvents(c, events);
    EventsAppend(RefuseAll(Filter(events, IsRefused(c))), Considered(c, events));
    assert EventsOf(RefuseAll(Filter(events, IsRefused(c)))) == Filter(events, IsRefused(c));
  }

  // ----- safety and greediness -----

  lemma {:induction false} FirstConflictFinds(e: Event, blockers: seq<Event>)
    ensures match FirstConflict(e, blockers)
            case None => forall b :: b in blockers ==> !Conflict(e, b)
            case Some(b) => b in blockers && Conflict(e, b)
  {
    if blockers != [] {
      FirstConflictFinds(e, blockers[1..]);
      assert blockers == [blockers[0]] + blockers[1..];
    }
  }

  lemma {:induction false} WonMembers(decisions: seq<Decision>, e: Event)
    ensures e in Won(decisions) <==>
            exists i :: 0 <= i < |decisions| && decisions[i] == Decision(e, Accept, decisions[i].reason) && !e.transparent
  {
    if decisions != [] {
      var n := |decisions| - 1;
      WonMembers(decisions[..n], e);
      assert decisions == decisions[..n] + [decisions[n]];
    }
  }

  /** Two events share a stretch of some length exactly when they run together for at least that long. */
  lemma SharedTimeMeans(a: Event, b: Event, d: nat)
    requires a.start.Some? && a.end.Some? && b.start.Some? && b.end.Some?
    ensures SharedTime(a, b) >= d <==> exists t :: Together(a, b, t, d)
  {
    if SharedTime(a, b) >= d {
      assert Together(a, b, Max(a.start.value, b.start.value), d);
    }
  }

  /** Both events run from instant `t` for `d`. */
  predicate Together(a: Event, b: Event, t: int, d: int)
    requires a.start.Some? && a.end.Some? && b.start.Some? && b.end.Some?
  {
    a.start.value <= t && b.start.value <= t && t + d <= a.end.value && t + d <= b.end.value
  }

  /** The domain is what follows the last `@`, in lower case, and empty without one. */
  lemma {:induction false} CreatorDomainIs(local: string, domain: string)
    requires '@' !in domain
    ensures CreatorDomain(local + "@" + domain) == LowerAll(domain)
    ensures CreatorDomain(domain) == ""
  {
    var email := local + "@" + domain;
    if local == "" {
      assert email == ['@'] + domain && email[1..] == domain;
    } else {
      assert email[1..] == local[1..] + "@" + domain && email[1..][|local| - 1] == '@' && email[|local|] == '@';
      CreatorDomainIs(local[1..], domain);
    }
  }

  /** Events that do not conflict after the nudge share less than two seconds. */
  lemma NudgeBound(a: Event, b: Event)
    requires Interval(a).Some? && Interval(b).Some? && !Conflict(a, b)
    ensures SharedTime(a, b) < 2 * SECOND
  {
  }

  /** For events of two seconds or more, conflicting means exactly sharing two seconds or more. */
  lemma NudgeIsExact(a: Event, b: Event)
    requires Interval(a).Some? && Interval(b).Some? && SharedTime(a, a) >= 2 * SECOND && SharedTime(b, b) >= 2 * SECOND
    ensures Conflict(a, b) <==> SharedTime(a, b) >= 2 * SECOND
  {
  }

  predicate Compatible(a: Event, b: Event) {
    Interval(a).Some? && Interval(b).Some? && SharedTime(a, b) < 2 * SECOND
  }

  lemma BlockingHas(events: seq<Event>, e: Event)
    ensures e in Blocking(events) <==> e in events && IsExisting()(e) && Interval(e).Some?
  {
    FilterMembers(Filter(events, IsExisting()), HasInterval(), e);
    FilterMembers(events, IsExisting(), e);
  }

  /** The pending requests, in the order in which they are decided. */
  function Queue(c: Config, events: seq<Event>): seq<Event> {
    SortBy(Filter(events, IsPending(c)), Created)
  }

  /** With conflict checking, decision n + k is the k-th of the queue, against what stands before it. */
  lemma ConsideredInTurn(c: Config, events: seq<Event>, k: nat)
    requires c.checkConflicts && k < |Considered(c, events)|
    ensures var queue, later := Queue(c, events), Considered(c, events);
            && |queue| == |later| && later == DecideAll(queue, Blocking(events))
            && later[k] == DecideOne(queue[k], Blocking(events) + Won(later[..k])) && later[..k] == DecideAll(queue[..k], Blocking(events))
  {
    DecideAllLength(Queue(c, events), Blocking(events));
    DecideAllInTurn(Queue(c, events), Blocking(events), k);
  }

  /** An accepted event has a time and conflicts with no blocker. */
  lemma AcceptedIsFree(e: Event, blockers: seq<Event>)
    requires DecideOne(e, blockers).response.Accept?
    ensures Interval(e).Some? && forall b :: b in blockers ==> !Conflict(e, b)
  {
    FirstConflictFinds(e, blockers);
  }

  lemma AcceptedInQueue(c: Config, events: seq<Event>, k: nat, m: nat)
    requires c.checkConflicts && k < |Considered(c, events)| && Considered(c, events)[k].response.Accept?
    ensures var later := Considered(c, events);
            && (forall e :: e in events && IsExisting()(e) && Interval(e).Some? ==> Compatible(later[k].event, e))
            && (m < k && later[m].response.Accept? && !later[m].event.transparent ==> Compatible(later[k].event, later[m].event))
  {
    hide Filter, SortBy, DecideAll, Conflict, Won, Blocking, FirstConflict;
    var later := Considered(c, events);
    ConsideredInTurn(c, events, k);
    var blockers := Blocking(events) + Won(later[..k]);
    AcceptedIsFree(Queue(c, events)[k], blockers);
    forall e | e in events && IsExisting()(e) && Interval(e).Some? ensures Compatible(later[k].event, e) {
      BlockingHas(events, e);
      assert e in blockers;
      NudgeBound(later[k].event, e);
    }
    if m < k && later[m].response.Accept? && !later[m].event.transparent {
      var e := later[m].event;
      ConsideredInTurn(c, events, m);
      AcceptedIsFree(Queue(c, events)[m], Blocking(events) + Won(later[..m]));
      WonMembers(later[..k], e);
      assert later[..k][m] == Decision(e, Accept, later[..k][m].reason);
      assert e in blockers;
      NudgeBound(later[k].event, e);
    }
  }

  /** An accepted request against the calendar, and against an opaque one accepted before it. */
  lemma AcceptedInTurn(c: Config, events: seq<Event>, i: nat, j: nat)
    requires c.checkConflicts && i < |Decisions(c, events)| && Decisions(c, events)[i].response.Accept?
    ensures var all := Decisions(c, events);
            && (forall e :: e in events && IsExisting()(e) && Interval(e).Some? ==> Compatible(all[i].event, e))
            && (j < i && all[j].response.Accept? && !all[j].event.transparent ==> Compatible(all[i].event, all[j].event))
  {
    hide Considered, Filter, Compatible;
    var n := |Filter(events, IsRefused(c))|;
    assert i >= n && Decisions(c, events)[i] == Considered(c, events)[i - n];
    AcceptedInQueue(c, events, i - n, if n <= j then j - n else 0);
    assert n <= j < i ==> Decisions(c, events)[j] == Considered(c, events)[j - n];
  }

  lemma CompatibleIsSymmetric(a: Event, b: Event)
    ensures Compatible(a, b) <==> Compatible(b, a)
  {
  }

  /**
   No double booking. With conflict checking on, an accepted request shares less than two seconds with
   every timed event that blocks time on the calendar, and with every opaque request accepted before
   it; so any two accepted opaque requests share less than two seconds.
   */
  lemma AcceptedAreCompatible(c: Config, events: seq<Event>, i: nat, j: nat)
    requires c.checkConflicts && i < |Decisions(c, events)| && Decisions(c, events)[i].response.Accept?
    ensures var all := Decisions(c, events);
            && (forall e :: e in events && e.status.NotAsked? && !e.transparent && e.start.Some? && e.end.Some? ==>
                  Compatible(all[i].event, e))
            && (j < i && all[j].response.Accept? && !all[j].event.transparent ==> Compatible(all[i].event, all[j].event))
            && (i != j < |all| && all[j].response.Accept? && !all[i].event.transparent && !all[j].event.transparent ==>
                Compatible(all[i].event, all[j].event))
  {
    hide Decisions, Compatible;
    var all := Decisions(c, events);
    AcceptedInTurn(c, events, i, j);
    forall e | e in events && e.status.NotAsked? && !e.transparent && e.start.Some? && e.end.Some?
      ensures IsExisting()(e) && Interval(e).Some?
    {
    }
    if i < j < |all| && all[j].response.Accept? && !all[i].event.transparent {
      AcceptedInTurn(c, events, j, i);
      CompatibleIsSymmetric(all[i].event, all[j].event);
    }
  }

  lemma WinnerHasPlace(queue: seq<Event>, blocking: seq<Event>, k: nat, b: Event) returns (m: nat)
    requires k < |queue| && b in Won(DecideAll(queue[..k], blocking))
    ensures m < k && WonAt(queue, blocking, m, b)
  {
    hide DecideAll, Won, FirstConflict, Interval;
    var before := DecideAll(queue[..k], blocking);
    DecideAllLength(queue[..k], blocking);
    DecideAllInTurn(queue, blocking, k);
    WonMembers(before, b);
    m :| 0 <= m < |before| && before[m] == Decision(b, Accept, before[m].reason) && !b.transparent;
    DecideAllInTurn(queue, blocking, m);
    assert DecideAll(queue, blocking)[m] == DecideAll(queue, blocking)[..k][m];
  }

  /** The k-th decision's conflict is with the calendar, or with an earlier winner in the queue. */
  lemma ConflictNamesBlocker(queue: seq<Event>, blocking: seq<Event>, k: nat)
    requires k < |queue| && DecideOne(queue[k], blocking + Won(DecideAll(queue[..k], blocking))).reason.ConflictsWith?
    ensures var b := DecideOne(queue[k], blocking + Won(DecideAll(queue[..k], blocking))).reason.blocker;
            Conflict(queue[k], b) && (b in blocking || exists m :: 0 <= m < k && WonAt(queue, blocking, m, b))
  {
    var won := Won(DecideAll(queue[..k], blocking));
    FirstConflictFinds(queue[k], blocking + won);
    var b := DecideOne(queue[k], blocking + won).reason.blocker;
    if b !in blocking {
      var m := WinnerHasPlace(queue, blocking, k, b);
    }
  }

  ghost predicate WonAt(queue: seq<Event>, blocking: seq<Event>, m: nat, b: Event) {
    && m < |queue| && queue[m] == b && !b.transparent
    && m < |DecideAll(queue, blocking)| && DecideAll(queue, blocking)[m] == Decision(b, Accept, NoReason)
  }

  /** An accepted request that blocks time was decided before position i and created no later than e. */
  ghost predicate WonBefore(all: seq<Decision>, i: nat, b: Event, e: Event) {
    && !b.transparent && Leq(b.created, e.created)
    && exists j :: 0 <= j < i && j < |all| && all[j] == Decision(b, Accept, NoReason)
  }

  lemma DeclinedInQueue(c: Config, events: seq<Event>, k: nat)
    requires c.checkConflicts && k < |Considered(c, events)| && Considered(c, events)[k].reason.ConflictsWith?
    ensures var later := Considered(c, events);
            var b := later[k].reason.blocker;
            Conflict(later[k].event, b) && ((b in events && IsExisting()(b)) || WonBefore(later, k, b, later[k].event))
  {
    hide Filter, SortBy, DecideAll, Conflict, Won, Blocking, FirstConflict, Leq;
    var queue, blocking := Queue(c, events), Blocking(events);
    ConsideredInTurn(c, events, k);
    ConflictNamesBlocker(queue, blocking, k);
    var b := Considered(c, events)[k].reason.blocker;
    if b in blocking {
      BlockingHas(events, b);
    } else {
      var m :| 0 <= m < k && WonAt(queue, blocking, m, b);
      SortPermutes(Filter(events, IsPending(c)), Created);
      assert Leq(Created(queue[m]), Created(queue[k]));
    }
  }

  /**
   Greediness. A decline for a conflict names an event that does conflict, and that is either a timed
   event already on the calendar or a request that blocks time, was accepted, and was created no later.
   */
  lemma DeclinesAreJustified(c: Config, events: seq<Event>, i: nat)
    requires i < |Decisions(c, events)| && Decisions(c, events)[i].reason.ConflictsWith?
    ensures var all := Decisions(c, events);
            var b := all[i].reason.blocker;
            && all[i].event.start.Some? && all[i].event.end.Some? && b.start.Some? && b.end.Some?
            && Meets(all[i].event, b)
            && ((c.checkConflicts && b in events && b.status.NotAsked? && !b.transparent) || WonBefore(all, i, b, all[i].event))
  {
    DeclinesConflict(c, events, i);
    ConflictMeets(Decisions(c, events)[i].event, Decisions(c, events)[i].reason.blocker);
  }

  /** Each event, shortened by a second at both ends, starts no later than the other ends. */
  predicate Meets(a: Event, b: Event)
    requires a.start.Some? && a.end.Some? && b.start.Some? && b.end.Some?
  {
    a.start.value + 1000000 <= b.end.value - 1000000 && b.start.value + 1000000 <= a.end.value - 1000000
  }

  lemma ConflictMeets(a: Event, b: Event)
    requires Conflict(a, b)
    ensures a.start.Some? && a.end.Some? && b.start.Some? && b.end.Some? && Meets(a, b)
  {
  }

  lemma DeclinesConflict(c: Config, events: seq<Event>, i: nat)
    requires i < |Decisions(c, events)| && Decisions(c, events)[i].reason.ConflictsWith?
    ensures var all := Decisions(c, events);
            var b := all[i].reason.blocker;
            && Conflict(all[i].event, b)
            && ((c.checkConflicts && b in events && IsExisting()(b)) || WonBefore(all, i, b, all[i].event))
  {
    hide Filter, Conflict, Leq, DecideAll, SortBy, Blocking;
    var all, later := Decisions(c, events), Considered(c, events);
    var n := |Filter(events, IsRefused(c))|;
    assert i >= n && all[i] == later[i - n] && all[n..] == later;
    assert c.checkConflicts;
    DeclinedInQueue(c, events, i - n);
    if WonBefore(later, i - n, all[i].reason.blocker, all[i].event) {
      var j :| 0 <= j < i - n && j < |later| && later[j] == Decision(all[i].reason.blocker, Accept, NoReason);
      assert all[n + j] == later[j];
    }
  }

  /** A considered request is admissible, and is decided by `DecideOne`. */
  lemma ConsideredAreAdmissible(c: Config, events: seq<Event>, k: nat) returns (blockers: seq<Event>)
    requires k < |Considered(c, events)|
    ensures var d := Considered(c, events)[k];
            d == DecideOne(d.event, blockers) && Admissible(c, d.event) && (!c.checkConflicts ==> blockers == [])
  {
    hide SortBy, DecideAll, Admissible, Blocking;
    var pending := Filter(events, IsPending(c));
    var e := Considered(c, events)[k].event;
    blockers := [];
    if c.checkConflicts {
      ConsideredInTurn(c, events, k);
      blockers := Blocking(events) + Won(Considered(c, events)[..k]);
      SortPermutes(pending, Created);
      e := Queue(c, events)[k];
      assert e in multiset(Queue(c, events));
      assert e in pending;
    }
    FilterMembers(events, IsPending(c), e);
  }

  /**
   Every answer is explained by the request itself: it is outside the domains exactly when its creator
   is, malformed exactly when it is inside them and has no usable times, and accepted exactly when no
   reason against it is given; a conflict is given only with conflict checking on.
   */
  lemma AnswersAreExplained(c: Config, events: seq<Event>, i: nat)
    requires i < |Decisions(c, events)|
    ensures var d := Decisions(c, events)[i];
            && (d.reason.OutsideDomain? <==> CreatorDomain(d.event.creator) !in c.domains)
            && (d.reason.MalformedTime? <==> CreatorDomain(d.event.creator) in c.domains && (d.event.start.None? || d.event.end.None?))
            && (d.reason.ConflictsWith? ==> c.checkConflicts)
            && (d.response.Accept? <==> d.reason.NoReason?)
  {
    hide Considered, CreatorDomain;
    var refused := Filter(events, IsRefused(c));
    if i < |refused| {
      FilterMembers(events, IsRefused(c), refused[i]);
    } else {
      assert Decisions(c, events)[i] == Considered(c, events)[i - |refused|];
      var blockers := ConsideredAreAdmissible(c, events, i - |refused|);
    }
  }

  // ----- order independence -----

  /** Who is answered what, without the reasons. */
  function Answers(decisions: seq<Decision>): seq<(Event, Response)> {
    seq(|decisions|, i requires 0 <= i < |decisions| => (decisions[i].event, decisions[i].response))
  }

  lemma SameResponse(e: Event, a: seq<Event>, b: seq<Event>)
    requires forall x :: x in a <==> x in b
    ensures DecideOne(e, a).response == DecideOne(e, b).response && DecideOne(e, a).event == e == DecideOne(e, b).event
  {
    FirstConflictFinds(e, a);
    FirstConflictFinds(e, b);
  }

  lemma {:induction false} SameWinners(a: seq<Decision>, b: seq<Decision>)
    requires Answers(a) == Answers(b)
    ensures Won(a) == Won(b)
  {
    assert |a| == |Answers(a)| == |Answers(b)| == |b|;
    if a != [] {
      var n := |a| - 1;
      assert Answers(a)[n] == Answers(b)[n];
      assert Answers(a[..n]) == Answers(a)[..n] == Answers(b)[..n] == Answers(b[..n]);
      SameWinners(a[..n], b[..n]);
    }
  }

  lemma {:induction false} BlockerOrderIsIrrelevant(queue: seq<Event>, a: seq<Event>, b: seq<Event>)
    requires forall x :: x in a <==> x in b
    ensures Answers(DecideAll(queue, a)) == Answers(DecideAll(queue, b))
  {
    hide DecideOne, Won;
    if queue != [] {
      var before := queue[..|queue| - 1];
      BlockerOrderIsIrrelevant(before, a, b);
      var da, db := DecideAll(before, a), DecideAll(before, b);
      SameWinners(da, db);
      SameResponse(queue[|queue| - 1], a + Won(da), b + Won(db));
      assert |Answers(da)| == |Answers(db)|;
      assert Answers(DecideAll(queue, a)) == Answers(da) + [Answers(DecideAll(queue, a))[|da|]];
      assert Answers(DecideAll(queue, b)) == Answers(db) + [Answers(DecideAll(queue, b))[|db|]];
    }
  }

  /** Answers that do not look at other events only move with their events. */
  lemma AnswersPermute(timed: bool, s: seq<Event>, t: seq<Event>)
    requires multiset(s) == multiset(t)
    ensures if timed then multiset(Answers(Unchecked(s))) == multiset(Answers(Unchecked(t)))
            else multiset(Answers(RefuseAll(s))) == multiset(Answers(RefuseAll(t)))
  {
    var f := (e: Event) => (e, if timed then DecideOne(e, []).response else Decline);
    MapPermutes(f, s, t);
    if timed {
      assert Answers(Unchecked(s)) == Map(f, s) && Answers(Unchecked(t)) == Map(f, t);
    } else {
      assert Answers(RefuseAll(s)) == Map(f, s) && Answers(RefuseAll(t)) == Map(f, t);
    }
  }

  lemma AnswersAppend(a: seq<Decision>, b: seq<Decision>)
    ensures multiset(Answers(a + b)) == multiset(Answers(a)) + multiset(Answers(b))
  {
    assert Answers(a + b) == Answers(a) + Answers(b);
  }

  lemma BlockingIgnoresOrder(events: seq<Event>, shuffled: seq<Event>, e: Event)
    requires multiset(events) == multiset(shuffled)
    ensures e in Blocking(events) <==> e in Blocking(shuffled)
  {
    FilterMembers(events, IsExisting(), e);
    FilterMembers(shuffled, IsExisting(), e);
    FilterMembers(Filter(events, IsExisting()), HasInterval(), e);
    FilterMembers(Filter(shuffled, IsExisting()), HasInterval(), e);
    assert e in events <==> e in multiset(events);
    assert e in shuffled <==> e in multiset(shuffled);
  }

  lemma ConsideredIgnoresOrder(c: Config, events: seq<Event>, shuffled: seq<Event>)
    requires multiset(events) == multiset(shuffled) && DistinctKeys(Filter(events, IsPending(c)), Created)
    ensures multiset(Answers(Considered(c, events))) == multiset(Answers(Considered(c, shuffled)))
  {
    var pending, others := Filter(events, IsPending(c)), Filter(shuffled, IsPending(c));
    FilterPermutes(events, shuffled, IsPending(c));
    if c.checkConflicts {
      SortIgnoresOrder(pending, others, Created);
      forall e: Event ensures e in Blocking(events) <==> e in Blocking(shuffled) {
        BlockingIgnoresOrder(events, shuffled, e);
      }
      BlockerOrderIsIrrelevant(SortBy(pending, Created), Blocking(events), Blocking(shuffled));
    } else {
      AnswersPermute(true, pending, others);
    }
  }

  /**
   When no two pending requests have the same creation time, the order in which the calendar lists its
   events changes no event's answer.
   */
  lemma OrderIsIrrelevant(c: Config, events: seq<Event>, shuffled: seq<Event>)
    requires multiset(events) == multiset(shuffled) && DistinctKeys(Filter(events, IsPending(c)), Created)
    ensures multiset(Answers(Decisions(c, events))) == multiset(Answers(Decisions(c, shuffled)))
  {
    var refused, others := Filter(events, IsRefused(c)), Filter(shuffled, IsRefused(c));
    FilterPermutes(events, shuffled, IsRefused(c));
    AnswersPermute(false, refused, others);
    ConsideredIgnoresOrder(c, events, shuffled);
    AnswersAppend(RefuseAll(refused), Considered(c, events));
    AnswersAppend(RefuseAll(others), Considered(c, shuffled));
  }
}
