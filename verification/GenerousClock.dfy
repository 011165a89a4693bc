/**
 The clock under which every comparison of a rule's cooldown finds it over. A schedule that overlaps
 under any clock overlaps under this one: the clock has no say in which rows exist, which call works
 on which row, or when it gets there, and this clock lets every call that gets there announce.
 */
module GenerousClock {
  import opened Options
  import opened Alerts
  import opened AlertRace
  import opened Cooldown
  import opened RaceCooldown
  import opened History

  /** Every reading is a whole cooldown later than the one before. */
  function Generous(seconds: nat): Clock {
    (i: nat) => i * (seconds * SECOND)
  }

  lemma GenerousStep(seconds: nat, i: nat)
    ensures Generous(seconds)(i + 1) == Generous(seconds)(i) + seconds * SECOND
  {
    assert (i + 1) * (seconds * SECOND) == i * (seconds * SECOND) + seconds * SECOND;
  }

  lemma {:induction false} GenerousGrows(seconds: nat, i: nat, j: nat)
    requires i <= j
    ensures Generous(seconds)(i) <= Generous(seconds)(j)
    decreases j
  {
    if i < j {
      GenerousGrows(seconds, i, j - 1);
      GenerousStep(seconds, j - 1);
    }
  }

  lemma GenerousIsForward(seconds: nat)
    ensures Forward(Generous(seconds))
  {
    forall i: nat, j: nat | i <= j ensures Generous(seconds)(i) <= Generous(seconds)(j) {
      GenerousGrows(seconds, i, j);
    }
  }

  // ---- Under it every cooldown is over ----------------------------------------------------

  predicate Rested(at: Point, gap: Time, now: Time) {
    (at.Refreshing? || at.Deciding? ==> Over(at.seen.notifiedAt, gap, now))
  }

  ghost predicate AllRested(clock: Clock, s: State, gap: Time) {
    && (forall i :: 0 <= i < |s.rows| ==> Over(s.rows[i].notifiedAt, gap, clock(s.ticks)))
    && (forall c :: c in s.calls ==> Rested(s.calls[c].at, gap, clock(s.ticks)))
  }

  lemma StepRestsCall(clock: Clock, s: State, e: Event, c: CallId, gap: Time)
    requires AllRested(clock, s, gap) && gap >= 0
    requires c in Step(clock, s, e).calls
    requires clock(s.ticks) <= clock(Step(clock, s, e).ticks)
    ensures Rested(Step(clock, s, e).calls[c].at, gap, clock(Step(clock, s, e).ticks))
  {
    StepKeepsCalls(clock, s, e, c);
    if c in s.calls { assert Rested(s.calls[c].at, gap, clock(s.ticks)); }
  }

  lemma StepTicks(clock: Clock, s: State, e: Event)
    ensures Step(clock, s, e).ticks == s.ticks || Step(clock, s, e).ticks == s.ticks + 1
  {
  }

  lemma StepRests(clock: Clock, s: State, e: Event, gap: Time)
    requires AllRested(clock, s, gap) && gap >= 0 && clock(s.ticks + 1) == clock(s.ticks) + gap
    ensures AllRested(clock, Step(clock, s, e), gap)
  {
    var t := Step(clock, s, e);
    StepTicks(clock, s, e);
    TimeEffect(clock, s, e);
    forall c | c in t.calls ensures Rested(t.calls[c].at, gap, clock(t.ticks)) {
      StepRestsCall(clock, s, e, c, gap);
    }
  }

  lemma {:induction false} RunRests(es: seq<Event>, seconds: nat)
    ensures AllRested(Generous(seconds), Run(Generous(seconds), [], es), seconds * SECOND)
    decreases |es|
  {
    if es != [] {
      var s := Run(Generous(seconds), [], es[..|es| - 1]);
      RunRests(es[..|es| - 1], seconds);
      GenerousStep(seconds, s.ticks);
      StepRests(Generous(seconds), s, es[|es| - 1], seconds * SECOND);
    }
  }

  // ---- Runs of one schedule under two clocks ----------------------------------------------

  /** The same statement is next, on the same row, except that one call may still have to announce it. */
  predicate SamePoint(p: Point, q: Point) {
    match p
    case Refreshing(id, seen) => q.Refreshing? && q.id == id && Timeless(q.seen) == Timeless(seen)
    case Deciding(id, seen) => q.Deciding? && q.id == id && Timeless(q.seen) == Timeless(seen)
    case Emitting(id, created) => q == p || q == Done(Returned(id, created))
    case Done(Returned(id, created)) => q == p || q == Emitting(id, created)
    case _ => q == p
  }

  predicate SameCall(a: Call, g: Call, r: RuleId) {
    && a.req == g.req && SamePoint(a.at, g.at)
    && (a.req.key.rule == Some(r) && a.at.Emitting? ==> g.at == a.at)
  }

  /** The same rows but for time stamps, and the same calls; the rule's calls that announce in a announce in g. */
  ghost predicate Alike(a: State, g: State, r: RuleId) {
    && AllTimeless(a.rows) == AllTimeless(g.rows) && a.calls.Keys == g.calls.Keys
    && forall c :: c in a.calls ==> SameCall(a.calls[c], g.calls[c], r)
  }

  lemma SameRows(a: seq<Alert>, g: seq<Alert>)
    requires AllTimeless(a) == AllTimeless(g)
    ensures |a| == |g| && forall i :: 0 <= i < |a| ==> Timeless(a[i]) == Timeless(g[i])
  {
    assert forall i :: 0 <= i < |a| ==> AllTimeless(a)[i] == AllTimeless(g)[i];
  }

  lemma SameLookups(a: seq<Alert>, g: seq<Alert>, k: AlertKey)
    requires AllTimeless(a) == AllTimeless(g)
    ensures FindLive(a, k) == FindLive(g, k) && Get(a, k) == Get(g, k) && Conflicts(a, k) == Conflicts(g, k)
  {
    TimelessLookup(a, k);
    TimelessLookup(g, k);
  }

  predicate Looking(at: Point) {
    at.Selecting? || at.Inserting? || at.Reselecting? || at.LastLook?
  }

  /** A statement that looks for a row finds the same. */
  lemma LookingAlike(ca: Clock, cg: Clock, a: State, g: State, c: CallId, r: RuleId)
    requires AllTimeless(a.rows) == AllTimeless(g.rows) && c in a.calls && c in g.calls
    requires a.calls[c] == g.calls[c] && Looking(a.calls[c].at)
    ensures SamePoint(Statement(ca, a, c).calls[c].at, Statement(cg, g, c).calls[c].at)
    ensures Statement(ca, a, c).calls[c].at.Emitting? ==> Statement(cg, g, c).calls[c].at.Emitting?
  {
    SameLookups(a.rows, g.rows, a.calls[c].req.key);
    SameRows(a.rows, g.rows);
  }

  /** Where the next statement takes a call that has its row; n is the number of rows. */
  function Worked(at: Point, cooldown: Option<nat>, n: nat, now: Time): Point {
    match at
    case Refreshing(id, seen) => if id < n then Deciding(id, seen) else at
    case Deciding(id, seen) =>
      if CooldownElapsed(seen.notifiedAt, cooldown, now) then Emitting(id, false) else Done(Returned(id, false))
    case Emitting(id, created) => if id < n then Done(Returned(id, created)) else at
    case _ => at
  }

  lemma StatementWorks(clock: Clock, s: State, c: CallId)
    requires c in s.calls && !Looking(s.calls[c].at)
    ensures var call := s.calls[c];
            Statement(clock, s, c).calls[c]
            == Call(call.req, Worked(call.at, call.req.cooldown, |s.rows|, clock(s.ticks)))
  {
  }

  lemma WorkedAlike(p: Point, q: Point, cooldown: Option<nat>, n: nat, a: Time, g: Time)
    requires SamePoint(p, q) && !Looking(p)
    ensures SamePoint(Worked(p, cooldown, n, a), Worked(q, cooldown, n, g))
  {
  }

  /** A call of the rule that goes on to announce under one clock does so under the generous one. */
  lemma WorkedOn(p: Point, q: Point, seconds: nat, n: nat, a: Time, g: Time)
    requires SamePoint(p, q) && !Looking(p) && Rested(q, seconds * SECOND, g) && (p.Emitting? ==> q == p)
    requires Worked(p, Some(seconds), n, a).Emitting?
    ensures Worked(q, Some(seconds), n, g) == Worked(p, Some(seconds), n, a)
  {
  }

  lemma WorkingAlike(ca: Clock, cg: Clock, a: State, g: State, c: CallId, r: RuleId, seconds: nat)
    requires |a.rows| == |g.rows| && c in a.calls && c in g.calls
    requires SameCall(a.calls[c], g.calls[c], r) && Rested(g.calls[c].at, seconds * SECOND, cg(g.ticks))
    requires !Looking(a.calls[c].at)
    requires a.calls[c].req.key.rule == Some(r) ==> a.calls[c].req.cooldown == Some(seconds)
    ensures SameCall(Statement(ca, a, c).calls[c], Statement(cg, g, c).calls[c], r)
  {
    var p, q, cooldown := a.calls[c].at, g.calls[c].at, a.calls[c].req.cooldown;
    var n, at, gt := |a.rows|, ca(a.ticks), cg(g.ticks);
    StatementWorks(ca, a, c);
    StatementWorks(cg, g, c);
    WorkedAlike(p, q, cooldown, n, at, gt);
    if a.calls[c].req.key.rule == Some(r) && Worked(p, cooldown, n, at).Emitting? {
      WorkedOn(p, q, seconds, n, at, gt);
    }
  }

  /** What the next statement does to the rows, as far as they show without time stamps. */
  function RowsAfter(rows: seq<Alert>, call: Call): seq<Alert> {
    match call.at
    case Inserting => if Conflicts(rows, call.req.key) then rows else rows + [NewAlert(call.req)]
    case Refreshing(id, seen) =>
      if id < |rows| then SetValue(rows, id, call.req.value, MessageOr(call.req.message, seen.message)) else rows
    case _ => rows
  }

  lemma TimelessUpdate(rows: seq<Alert>, id: nat, a: Alert)
    requires id < |rows|
    ensures AllTimeless(rows[id := a]) == AllTimeless(rows)[id := Timeless(a)]
  {
  }

  lemma StatementRows(clock: Clock, s: State, c: CallId)
    requires c in s.calls
    ensures AllTimeless(Statement(clock, s, c).rows) == RowsAfter(AllTimeless(s.rows), s.calls[c])
  {
    var req := s.calls[c].req;
    match s.calls[c].at
    case Inserting =>
      TimelessLookup(s.rows, req.key);
      assert AllTimeless(s.rows + [NewAlert(req)]) == AllTimeless(s.rows) + [NewAlert(req)];
    case Refreshing(id, seen) =>
      if id < |s.rows| {
        TimelessUpdate(s.rows, id, s.rows[id].(value := req.value, message := MessageOr(req.message, seen.message)));
      }
    case Emitting(id, _) =>
      if id < |s.rows| { TimelessUpdate(s.rows, id, s.rows[id].(notifiedAt := Some(clock(s.ticks)))); }
    case _ =>
  }

  lemma StatementMovesOne(clock: Clock, s: State, c: CallId)
    requires c in s.calls
    ensures c in Statement(clock, s, c).calls
    ensures Statement(clock, s, c).calls == s.calls[c := Statement(clock, s, c).calls[c]]
    ensures Statement(clock, s, c).calls[c].req == s.calls[c].req
  {
  }

  lemma AdvanceAlike(ca: Clock, cg: Clock, a: State, g: State, c: CallId, r: RuleId, seconds: nat)
    requires Alike(a, g, r) && c in a.calls && AllRested(cg, g, seconds * SECOND)
    requires a.calls[c].req.key.rule == Some(r) ==> a.calls[c].req.cooldown == Some(seconds)
    ensures Alike(Statement(ca, a, c), Statement(cg, g, c), r)
  {
    SameRows(a.rows, g.rows);
    assert SameCall(a.calls[c], g.calls[c], r) && Rested(g.calls[c].at, seconds * SECOND, cg(g.ticks));
    if Looking(a.calls[c].at) {
      LookingAlike(ca, cg, a, g, c, r);
    } else {
      WorkingAlike(ca, cg, a, g, c, r, seconds);
    }
    StatementRows(ca, a, c);
    StatementRows(cg, g, c);
    StatementMovesOne(ca, a, c);
    StatementMovesOne(cg, g, c);
  }

  lemma RowsAlike(a: seq<Alert>, g: seq<Alert>)
    requires |a| == |g| && forall i :: 0 <= i < |a| ==> Timeless(a[i]) == Timeless(g[i])
    ensures AllTimeless(a) == AllTimeless(g)
  {
  }

  lemma OtherRowsAlike(ca: Clock, cg: Clock, a: State, g: State, e: Event)
    requires AllTimeless(a.rows) == AllTimeless(g.rows) && !e.Advance?
    ensures AllTimeless(Step(ca, a, e).rows) == AllTimeless(Step(cg, g, e).rows)
  {
    SameRows(a.rows, g.rows);
    RowsAlike(Step(ca, a, e).rows, Step(cg, g, e).rows);
  }

  lemma StepAlike(ca: Clock, cg: Clock, a: State, g: State, e: Event, r: RuleId, seconds: nat)
    requires Alike(a, g, r) && AllRested(cg, g, seconds * SECOND)
    requires e.Advance? && e.c in a.calls && a.calls[e.c].req.key.rule == Some(r) ==>
               a.calls[e.c].req.cooldown == Some(seconds)
    ensures Alike(Step(ca, a, e), Step(cg, g, e), r)
  {
    if !e.Advance? {
      OtherRowsAlike(ca, cg, a, g, e);
    } else if e.c in a.calls {
      AdvanceAlike(ca, cg, a, g, e.c, r, seconds);
    }
  }

  lemma {:induction false} RunAlike(clock: Clock, es: seq<Event>, r: RuleId, seconds: nat)
    requires OneCooldown(es, r, seconds)
    ensures Alike(Run(clock, [], es), Run(Generous(seconds), [], es), r)
    decreases |es|
  {
    if es != [] {
      var front, e := es[..|es| - 1], es[|es| - 1];
      RunAlike(clock, front, r, seconds);
      RunRests(front, seconds);
      CallsCarryCooldown(clock, front, r, seconds);
      if e.Advance? && e.c in Run(clock, [], front).calls && Run(clock, [], front).calls[e.c].req.key.rule == Some(r) {
        assert IsCall(Run(clock, [], front), e.c, r);
      }
      StepAlike(clock, Generous(seconds), Run(clock, [], front), Run(Generous(seconds), [], front), e, r, seconds);
    }
  }

  // ---- So it shows every overlap ----------------------------------------------------------

  /** A call of the rule that is at work on a row is at work on it under the generous clock. */
  lemma HeldUnderGenerous(clock: Clock, es: seq<Event>, k: nat, c: CallId, id: nat, r: RuleId, seconds: nat)
    requires OneCooldown(es, r, seconds) && k <= |es| && IsRow(Before(clock, [], es, k), id, r)
    requires Holds(Before(clock, [], es, k), c, id)
    ensures Holds(Before(Generous(seconds), [], es, k), c, id)
    ensures AboutToEmit(Before(clock, [], es, k), c, id) ==> AboutToEmit(Before(Generous(seconds), [], es, k), c, id)
    ensures IsRow(Before(Generous(seconds), [], es, k), id, r)
  {
    var s, g := Before(clock, [], es, k), Before(Generous(seconds), [], es, k);
    RunAlike(clock, es[..k], r, seconds);
    HeldRowIsOwn(clock, es[..k], c, id);
    SameRows(s.rows, g.rows);
    assert SameCall(s.calls[c], g.calls[c], r);
    assert Timeless(s.rows[id]).key == Timeless(g.rows[id]).key;
  }

  lemma OverlapsUnderGenerous(clock: Clock, es: seq<Event>, r: RuleId, seconds: nat)
    requires OneCooldown(es, r, seconds) && Overlaps(clock, es, r)
    ensures Overlaps(Generous(seconds), es, r)
  {
    var i, j, c, d, id :| OverlapAt(clock, es, i, j, c, d, id, r);
    RowsKeepKeys(clock, es, i, j, id);
    HeldUnderGenerous(clock, es, i, c, id, r, seconds);
    HeldUnderGenerous(clock, es, i, d, id, r, seconds);
    HeldUnderGenerous(clock, es, j, c, id, r, seconds);
    assert OverlapAt(Generous(seconds), es, i, j, c, d, id, r);
  }

  lemma {:induction false} RowsKeepKeys(clock: Clock, es: seq<Event>, i: nat, j: nat, id: nat)
    requires i <= j <= |es| && id < |Before(clock, [], es, i).rows|
    ensures id < |Before(clock, [], es, j).rows|
    ensures Before(clock, [], es, j).rows[id].key == Before(clock, [], es, i).rows[id].key
  {
    assert es[..j][..i] == es[..i];
    NeverReopens(clock, [], es[..j], i, id);
  }
}
