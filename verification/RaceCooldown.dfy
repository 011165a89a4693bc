/**
 The cooldown when callers race. Whether it binds depends on the schedule alone: it does for every
 clock exactly if no row is announced by one call while another call, which announces it later,
 already holds it.
 */
module RaceCooldown {
  import opened Options
  import opened Alerts
  import opened AlertRace
  import opened Cooldown
  import RaceRefinement

  /** When a row was announced, oldest first. */
  function Announcements(made: seq<Emission>, id: nat): seq<Time> {
    Times(RaceRefinement.Audit(made), id)
  }

  lemma AnnounceOneMore(made: seq<Emission>, e: Emission, id: nat)
    ensures Announcements(made + [e], id) == Announcements(made, id) + if e.alert == id then [e.time] else []
  {
    var entry := RaceRefinement.Audit([e])[0];
    assert RaceRefinement.Audit(made + [e]) == RaceRefinement.Audit(made) + [entry];
    TimesAppend(RaceRefinement.Audit(made), entry, id);
  }

  lemma NeverMade(made: seq<Emission>, id: nat)
    requires forall i :: 0 <= i < |made| ==> made[i].alert != id
    ensures Announcements(made, id) == []
  {
    NeverAnnounced(RaceRefinement.Audit(made), id);
  }

  /** Every call for the rule carries the same cooldown. */
  ghost predicate OneCooldown(es: seq<Event>, r: RuleId, seconds: nat) {
    forall i :: 0 <= i < |es| && es[i].Begin? && es[i].req.key.rule == Some(r) ==> es[i].req.cooldown == Some(seconds)
  }

  predicate IsRow(s: State, id: nat, r: RuleId) {
    id < |s.rows| && s.rows[id].key.rule == Some(r)
  }

  ghost predicate AllSpaced(s: State, r: RuleId, gap: Time) {
    forall id :: IsRow(s, id, r) ==> Spaced(Announcements(s.emissions, id), gap)
  }

  // ---- Overlaps ---------------------------------------------------------------------------

  /** The next statement of call c announces row `id`. */
  predicate AboutToEmit(s: State, c: CallId, id: nat) {
    c in s.calls && s.calls[c].at.Emitting? && s.calls[c].at.id == id && id < |s.rows|
  }

  /** Call c has selected or inserted row `id` and has not returned. */
  predicate Holds(s: State, c: CallId, id: nat) {
    c in s.calls && !s.calls[c].at.Done? && Held(s.calls[c].at) == Some(id)
  }

  /** Event k announces row `id` for call c. */
  predicate Emits(clock: Clock, es: seq<Event>, k: nat, c: CallId, id: nat) {
    k < |es| && es[k] == Advance(c) && AboutToEmit(Before(clock, [], es, k), c, id)
  }

  /** At event i another call announces row `id` while c holds it. */
  predicate Overtakes(clock: Clock, es: seq<Event>, i: nat, c: CallId, d: CallId, id: nat) {
    c != d && Emits(clock, es, i, d, id) && Holds(Before(clock, [], es, i), c, id)
  }

  /** And at event j call c announces the row itself. */
  ghost predicate OverlapAt(clock: Clock, es: seq<Event>, i: nat, j: nat, c: CallId, d: CallId, id: nat, r: RuleId) {
    && i < j && Overtakes(clock, es, i, c, d, id) && Emits(clock, es, j, c, id)
    && IsRow(Before(clock, [], es, j), id, r)
  }

  ghost predicate Overlaps(clock: Clock, es: seq<Event>, r: RuleId) {
    exists i, j, c, d, id :: OverlapAt(clock, es, i, j, c, d, id, r)
  }

  ghost predicate Overtaken(clock: Clock, es: seq<Event>, c: CallId, id: nat) {
    exists i, d :: Overtakes(clock, es, i, c, d, id)
  }

  lemma EventsOfPrefix(clock: Clock, es: seq<Event>, n: nat, k: nat)
    requires k < n <= |es|
    ensures es[..n][k] == es[k] && Before(clock, [], es[..n], k) == Before(clock, [], es, k)
  {
    BeforeInPrefix(clock, [], es, n, k);
  }

  lemma OvertakenStays(clock: Clock, es: seq<Event>, n: nat, c: CallId, id: nat)
    requires n <= |es| && Overtaken(clock, es[..n], c, id)
    ensures Overtaken(clock, es, c, id)
  {
    var i, d :| Overtakes(clock, es[..n], i, c, d, id);
    EventsOfPrefix(clock, es, n, i);
    assert Overtakes(clock, es, i, c, d, id);
  }

  lemma NoOverlapInPrefix(clock: Clock, es: seq<Event>, n: nat, r: RuleId)
    requires n <= |es| && !Overlaps(clock, es, r)
    ensures !Overlaps(clock, es[..n], r)
  {
    if Overlaps(clock, es[..n], r) {
      var i, j, c, d, id :| OverlapAt(clock, es[..n], i, j, c, d, id, r);
      EventsOfPrefix(clock, es, n, i);
      EventsOfPrefix(clock, es, n, j);
      assert OverlapAt(clock, es, i, j, c, d, id, r);
    }
  }

  // ---- Without overlaps the cooldown holds ------------------------------------------------

  /** What one step does to the notification times and the announcements. */
  lemma TimeEffect(clock: Clock, s: State, e: Event)
    ensures var t := Step(clock, s, e);
            && s.ticks <= t.ticks && |s.rows| <= |t.rows|
            && (forall i :: 0 <= i < |s.rows| ==> t.rows[i].key == s.rows[i].key)
            && (forall i :: |s.rows| <= i < |t.rows| ==> t.rows[i].notifiedAt.None?)
            && if e.Advance? && e.c in s.calls && AboutToEmit(s, e.c, Hold(s.calls[e.c].at)) then
                 var id := s.calls[e.c].at.id;
                 && t.ticks == s.ticks + 1 && |t.rows| == |s.rows|
                 && t.emissions == s.emissions + [Emission(e.c, id, s.calls[e.c].at.created, clock(s.ticks))]
                 && t.rows[id].notifiedAt == Some(clock(s.ticks))
                 && forall i :: 0 <= i < |s.rows| && i != id ==> t.rows[i].notifiedAt == s.rows[i].notifiedAt
               else
                 && t.emissions == s.emissions
                 && forall i :: 0 <= i < |s.rows| ==> t.rows[i].notifiedAt == s.rows[i].notifiedAt
  {
    if e.Advance? && e.c in s.calls {
      match s.calls[e.c].at
      case Emitting(_, _) =>
      case _ =>
    }
  }

  /** The row a call is about to announce, for calls that are. */
  function Hold(at: Point): nat {
    if at.Emitting? then at.id else 0
  }

  /** The row's notification time is its last announcement, and its announcements are spaced. */
  ghost predicate RowKept(s: State, id: nat, gap: Time)
    requires id < |s.rows|
  {
    var ts := Announcements(s.emissions, id);
    Spaced(ts, gap) && s.rows[id].notifiedAt == if ts == [] then None else Some(ts[|ts| - 1])
  }

  predicate Over(notifiedAt: Option<Time>, gap: Time, now: Time) {
    notifiedAt.None? || now - notifiedAt.value >= gap
  }

  /** What the call has read of the row is still so; if it is to emit, the cooldown is over. */
  ghost predicate Fresh(clock: Clock, s: State, c: CallId, gap: Time)
    requires c in s.calls
  {
    match s.calls[c].at
    case Refreshing(id, seen) => id < |s.rows| && seen.notifiedAt == s.rows[id].notifiedAt
    case Deciding(id, seen) => id < |s.rows| && seen.notifiedAt == s.rows[id].notifiedAt
    case Emitting(id, _) => id < |s.rows| && Over(s.rows[id].notifiedAt, gap, clock(s.ticks))
    case _ => true
  }

  ghost predicate RowsKept(s: State, r: RuleId, gap: Time) {
    forall id :: IsRow(s, id, r) ==> RowKept(s, id, gap)
  }

  predicate IsCall(s: State, c: CallId, r: RuleId) {
    c in s.calls && s.calls[c].req.key.rule == Some(r)
  }

  ghost predicate CallsFresh(clock: Clock, es: seq<Event>, s: State, r: RuleId, gap: Time) {
    forall c, id :: IsCall(s, c, r) && Holds(s, c, id) ==> Fresh(clock, s, c, gap) || Overtaken(clock, es, c, id)
  }

  lemma {:induction false} CallsCarryCooldown(clock: Clock, es: seq<Event>, r: RuleId, seconds: nat)
    requires OneCooldown(es, r, seconds)
    ensures forall c :: IsCall(Run(clock, [], es), c, r) ==> Run(clock, [], es).calls[c].req.cooldown == Some(seconds)
    decreases |es|
  {
    if es != [] {
      var front := es[..|es| - 1];
      CallsCarryCooldown(clock, front, r, seconds);
      var s, e, t := Run(clock, [], front), es[|es| - 1], Run(clock, [], es);
      forall c | IsCall(t, c, r) ensures t.calls[c].req.cooldown == Some(seconds) {
        StepKeepsCalls(clock, s, e, c);
        if c !in s.calls {
          NewCallBegan(clock, s, e, c);
        } else {
          assert IsCall(s, c, r);
        }
      }
    }
  }

  lemma NewCallBegan(clock: Clock, s: State, e: Event, c: CallId)
    requires c !in s.calls && c in Step(clock, s, e).calls
    ensures e.Begin? && e.c == c && Step(clock, s, e).calls[c].req == e.req
  {
  }

  /** A call's row exists and has the call's rule; announcements are for existing rows. */
  lemma HeldRowIsOwn(clock: Clock, es: seq<Event>, c: CallId, id: nat)
    requires Holds(Run(clock, [], es), c, id)
    ensures HoldsOwn(Run(clock, [], es), c)
  {
    var _ := ReturnedWasOpen(clock, [], es, c);
  }

  lemma AnnouncedExist(clock: Clock, es: seq<Event>)
    ensures var s := Run(clock, [], es); forall i :: 0 <= i < |s.emissions| ==> s.emissions[i].alert < |s.rows|
  {
    CreatedOnceEmittedOnce(clock, [], es);
    var s := Run(clock, [], es);
    forall i | 0 <= i < |s.emissions| ensures s.emissions[i].alert < |s.rows| {
      assert MadeBy(s.calls, s.emissions[i]);
    }
  }

  /** One more event keeps the rows. */
  lemma RowsStayKept(clock: Clock, s: State, e: Event, r: RuleId, gap: Time)
    requires RowsKept(s, r, gap)
    requires forall i :: 0 <= i < |s.emissions| ==> s.emissions[i].alert < |s.rows|
    requires e.Advance? && IsRow(s, HoldIn(s, e.c), r) && AboutToEmit(s, e.c, HoldIn(s, e.c)) ==>
               Over(s.rows[HoldIn(s, e.c)].notifiedAt, gap, clock(s.ticks))
    ensures RowsKept(Step(clock, s, e), r, gap)
  {
    var t := Step(clock, s, e);
    TimeEffect(clock, s, e);
    forall id: nat | IsRow(t, id, r) ensures RowKept(t, id, gap) {
      if id < |s.rows| {
        assert IsRow(s, id, r) && RowKept(s, id, gap);
        if |t.emissions| > |s.emissions| {
          AnnounceOneMore(s.emissions, t.emissions[|s.emissions|], id);
        }
      } else {
        NeverMade(s.emissions, id);
      }
    }
  }

  function HoldIn(s: State, c: CallId): nat {
    if c in s.calls then Hold(s.calls[c].at) else 0
  }

  /** A step of another call leaves c fresh unless it announces c's row. */
  lemma OthersKeepFresh(clock: Clock, s: State, e: Event, c: CallId, id: nat, gap: Time)
    requires Forward(clock) && Holds(s, c, id) && Fresh(clock, s, c, gap) && e != Advance(c)
    requires !(e.Advance? && AboutToEmit(s, e.c, id))
    ensures c in Step(clock, s, e).calls && Fresh(clock, Step(clock, s, e), c, gap)
  {
    TimeEffect(clock, s, e);
    StepKeepsCalls(clock, s, e, c);
  }

  /** A step of c itself keeps it fresh. */
  lemma OwnStepKeepsFresh(clock: Clock, s: State, c: CallId, seconds: nat)
    requires Forward(clock) && c in s.calls && s.calls[c].req.cooldown == Some(seconds)
    requires Fresh(clock, s, c, seconds * SECOND)
    ensures var t := Step(clock, s, Advance(c));
            c in t.calls && (!t.calls[c].at.Done? ==> Fresh(clock, t, c, seconds * SECOND))
  {
  }

  lemma CallsStayFresh(clock: Clock, es: seq<Event>, r: RuleId, seconds: nat)
    requires Forward(clock) && OneCooldown(es, r, seconds) && es != []
    requires CallsFresh(clock, es[..|es| - 1], Run(clock, [], es[..|es| - 1]), r, seconds * SECOND)
    ensures CallsFresh(clock, es, Run(clock, [], es), r, seconds * SECOND)
  {
    var n, gap := |es| - 1, seconds * SECOND;
    var s, e, t := Run(clock, [], es[..n]), es[n], Run(clock, [], es);
    CallsCarryCooldown(clock, es[..n], r, seconds);
    forall c, id | IsCall(t, c, r) && Holds(t, c, id)
      ensures Fresh(clock, t, c, gap) || Overtaken(clock, es, c, id)
    {
      StepKeepsCalls(clock, s, e, c);
      assert c in s.calls && IsCall(s, c, r);
      if Holds(s, c, id) && Overtaken(clock, es[..n], c, id) {
        OvertakenStays(clock, es, n, c, id);
      } else if e == Advance(c) {
        assert Fresh(clock, s, c, gap) by {
          if Held(s.calls[c].at).Some? { StepKeepsHeld(clock, s, e, c); }
        }
        OwnStepKeepsFresh(clock, s, c, seconds);
      } else if e.Advance? && AboutToEmit(s, e.c, id) {
        assert Overtakes(clock, es, n, c, e.c, id);
      } else {
        OthersKeepFresh(clock, s, e, c, id, gap);
      }
    }
  }

  /** A call about to announce its row has not been overtaken on it. */
  lemma NotOvertaken(clock: Clock, es: seq<Event>, c: CallId, id: nat, r: RuleId)
    requires es != [] && !Overlaps(clock, es, r)
    requires var n := |es| - 1; var s := Run(clock, [], es[..n]);
             es[n] == Advance(c) && IsRow(s, id, r) && AboutToEmit(s, c, id)
    ensures !Overtaken(clock, es[..|es| - 1], c, id)
  {
    var n, front := |es| - 1, es[..|es| - 1];
    if i, d :| Overtakes(clock, front, i, c, d, id) {
      EventsOfPrefix(clock, es, n, i);
      assert Emits(clock, es, n, c, id);
      assert OverlapAt(clock, es, i, n, c, d, id, r);
    }
  }

  lemma {:induction false} KeptWithoutOverlap(clock: Clock, es: seq<Event>, r: RuleId, seconds: nat)
    requires Forward(clock) && OneCooldown(es, r, seconds) && !Overlaps(clock, es, r)
    ensures RowsKept(Run(clock, [], es), r, seconds * SECOND)
    ensures CallsFresh(clock, es, Run(clock, [], es), r, seconds * SECOND)
    decreases |es|
  {
    if es != [] {
      var n, front := |es| - 1, es[..|es| - 1];
      var s, e := Run(clock, [], front), es[n];
      NoOverlapInPrefix(clock, es, n, r);
      KeptWithoutOverlap(clock, front, r, seconds);
      CallsStayFresh(clock, es, r, seconds);
      AnnouncedExist(clock, front);
      if e.Advance? && IsRow(s, HoldIn(s, e.c), r) && AboutToEmit(s, e.c, HoldIn(s, e.c)) {
        var c, id := e.c, HoldIn(s, e.c);
        HeldRowIsOwn(clock, front, c, id);
        assert IsCall(s, c, r) && Holds(s, c, id);
        NotOvertaken(clock, es, c, id, r);
        assert Fresh(clock, s, c, seconds * SECOND);
      }
      RowsStayKept(clock, s, e, r, seconds * SECOND);
    }
  }

  /**
   In every interleaving without overlaps, under a clock that never goes back, every row's
   announcements are at least the cooldown apart.
   */
  lemma SpacedWithoutOverlap(clock: Clock, es: seq<Event>, r: RuleId, seconds: nat)
    requires Forward(clock) && OneCooldown(es, r, seconds) && !Overlaps(clock, es, r)
    ensures AllSpaced(Run(clock, [], es), r, seconds * SECOND)
  {
    KeptWithoutOverlap(clock, es, r, seconds);
    forall id | IsRow(Run(clock, [], es), id, r)
      ensures Spaced(Announcements(Run(clock, [], es).emissions, id), seconds * SECOND)
    {
      assert RowKept(Run(clock, [], es), id, seconds * SECOND);
    }
  }

  /** No two calls are ever at work on the same row. */
  ghost predicate OneHolderAtATime(clock: Clock, es: seq<Event>) {
    forall k: nat, c: CallId, d: CallId, id: nat ::
      k <= |es| && Holds(Before(clock, [], es, k), c, id) && Holds(Before(clock, [], es, k), d, id) ==> c == d
  }

  lemma NoTurnsOverlap(clock: Clock, es: seq<Event>, r: RuleId)
    requires OneHolderAtATime(clock, es)
    ensures !Overlaps(clock, es, r)
  {
    if i: nat, j: nat, c: CallId, d: CallId, id: nat :| OverlapAt(clock, es, i, j, c, d, id, r) {
      var s := Before(clock, [], es, i);
      assert Holds(s, c, id) && Holds(s, d, id);
    }
  }

  /** So callers that take turns on a row keep its cooldown. */
  lemma TakingTurnsKeepsCooldown(clock: Clock, es: seq<Event>, r: RuleId, seconds: nat)
    requires Forward(clock) && OneCooldown(es, r, seconds) && OneHolderAtATime(clock, es)
    ensures AllSpaced(Run(clock, [], es), r, seconds * SECOND)
  {
    NoTurnsOverlap(clock, es, r);
    SpacedWithoutOverlap(clock, es, r, seconds);
  }
}
