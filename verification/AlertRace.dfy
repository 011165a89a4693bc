/**
 Any number of callers raising alerts at once. Each call is cut into its statements: the SELECT
 and the INSERT of get_or_create, its second SELECT after a collision, the look of the except
 branch, the refresh, the cooldown comparison on the copy read earlier, and the emission. Between any
 two statements other callers move, and rows are resolved, acknowledged, soft-deleted or restored.
 */
module AlertRace {
  import opened Options
  import opened Alerts

  /** Where a call has got; `seen` is the row as its SELECT returned it. */
  datatype Point =
    | Selecting
    | Inserting
    | Reselecting
    | LastLook
    | Refreshing(id: nat, seen: Alert)
    | Deciding(id: nat, seen: Alert)
    | Emitting(id: nat, created: bool)
    | Done(outcome: Outcome)

  type CallId = nat
  datatype Call = Call(req: Request, at: Point)
  datatype Emission = Emission(call: CallId, alert: nat, created: bool, time: Time)

  /** `ticks` counts the readings of the clock so far. */
  datatype State = State(rows: seq<Alert>, ticks: nat, calls: map<CallId, Call>, emissions: seq<Emission>)

  datatype Event =
    | Begin(c: CallId, req: Request)
    | Advance(c: CallId)
    | AutoResolve(k: AlertKey)
    | Acknowledge(id: nat, user: UserId)
    | Resolve(id: nat)
    | SoftDelete(id: nat)
    | Restore(id: nat)

  function AfterGet(g: Lookup, rows: seq<Alert>, missing: Point): Point
    requires g.Found? ==> g.id < |rows|
  {
    match g
    case Found(id) => Refreshing(id, rows[id])
    case DoesNotExist => missing
    case MultipleObjects => Done(Failed)
  }

  function At(s: State, c: CallId, at: Point): State
    requires c in s.calls
  {
    s.(calls := s.calls[c := s.calls[c].(at := at)])
  }

  /** The next statement of call c. */
  function Statement(clock: Clock, s: State, c: CallId): State
    requires c in s.calls
  {
    var req := s.calls[c].req;
    match s.calls[c].at
    case Selecting => At(s, c, AfterGet(Get(s.rows, req.key), s.rows, Inserting))
    case Inserting =>
      if Conflicts(s.rows, req.key) then At(s, c, Reselecting)
      else At(s, c, Emitting(|s.rows|, true)).(rows := s.rows + [NewAlert(req)])
    case Reselecting => At(s, c, AfterGet(Get(s.rows, req.key), s.rows, LastLook))
    case LastLook =>
      (match FindLive(s.rows, req.key)
       case None => At(s, c, Done(NoAlert))
       case Some(id) => At(s, c, Refreshing(id, s.rows[id])))
    case Refreshing(id, seen) =>
      if id < |s.rows|
      then At(s, c, Deciding(id, seen)).(rows := SetValue(s.rows, id, req.value, MessageOr(req.message, seen.message)))
      else s
    case Deciding(id, seen) =>
      if seen.notifiedAt.None? || req.cooldown.None? then At(s, c, Emitting(id, false))
      else if CooldownElapsed(seen.notifiedAt, req.cooldown, clock(s.ticks))
      then At(s, c, Emitting(id, false)).(ticks := s.ticks + 1)
      else At(s, c, Done(Returned(id, false))).(ticks := s.ticks + 1)
    case Emitting(id, created) =>
      if id < |s.rows|
      then At(s, c, Done(Returned(id, created))).(
        rows := SetNotified(s.rows, id, clock(s.ticks)), ticks := s.ticks + 1,
        emissions := s.emissions + [Emission(c, id, created, clock(s.ticks))])
      else s
    case Done(_) => s
  }

  /** An event that is not possible in this state leaves it as it is. */
  function Step(clock: Clock, s: State, e: Event): State {
    match e
    case Begin(c, req) => if c in s.calls then s else s.(calls := s.calls[c := Call(req, Selecting)])
    case Advance(c) => if c in s.calls then Statement(clock, s, c) else s
    case AutoResolve(k) => s.(rows := ResolveLive(s.rows, k, clock(s.ticks)), ticks := s.ticks + 1)
    case Acknowledge(id, user) =>
      if id < |s.rows| then s.(rows := SetAcknowledged(s.rows, id, user, clock(s.ticks)), ticks := s.ticks + 1) else s
    case Resolve(id) =>
      if id < |s.rows| then s.(rows := SetResolved(s.rows, id, clock(s.ticks)), ticks := s.ticks + 1) else s
    case SoftDelete(id) => if id < |s.rows| then s.(rows := SetDeleted(s.rows, id, true)) else s
    case Restore(id) => if id < |s.rows| then s.(rows := SetDeleted(s.rows, id, false)) else s
  }

  /** The state after the events, from a table with no call under way. */
  function Run(clock: Clock, rows: seq<Alert>, es: seq<Event>): State {
    if es == [] then State(rows, 0, map[], [])
    else Step(clock, Run(clock, rows, es[..|es| - 1]), es[|es| - 1])
  }

  /** The state just before event k of the run. */
  function Before(clock: Clock, rows: seq<Alert>, es: seq<Event>, k: nat): State
    requires k <= |es|
  {
    Run(clock, rows, es[..k])
  }

  lemma BeforeInPrefix(clock: Clock, rows: seq<Alert>, es: seq<Event>, n: nat, k: nat)
    requires k <= n <= |es|
    ensures Before(clock, rows, es[..n], k) == Before(clock, rows, es, k)
  {
    assert es[..n][..k] == es[..k];
  }

  // ---- The table --------------------------------------------------------------------------

  /** No statement, however stale the copy it works from, changes a key or reopens a row. */
  lemma StepNeverReopens(clock: Clock, s: State, e: Event)
    ensures var t := Step(clock, s, e);
            |s.rows| <= |t.rows| <= |s.rows| + 1 &&
            forall i :: 0 <= i < |s.rows| ==>
              t.rows[i].key == s.rows[i].key && (t.rows[i].status.Open? ==> s.rows[i].status.Open?)
  {
  }

  lemma {:induction false} NeverReopens(clock: Clock, rows: seq<Alert>, es: seq<Event>, k: nat, i: nat)
    requires k <= |es| && i < |Before(clock, rows, es, k).rows|
    ensures var earlier, later := Before(clock, rows, es, k).rows, Run(clock, rows, es).rows;
            |earlier| <= |later| && later[i].key == earlier[i].key
            && (later[i].status.Open? ==> earlier[i].status.Open?)
    decreases |es|
  {
    assert es[..|es|] == es;
    if k < |es| {
      BeforeInPrefix(clock, rows, es, |es| - 1, k);
      NeverReopens(clock, rows, es[..|es| - 1], k, i);
      StepNeverReopens(clock, Run(clock, rows, es[..|es| - 1]), es[|es| - 1]);
    }
  }

  /** In every interleaving at most one open row exists per non-null (rule, device). */
  lemma {:induction false} IndexHoldsThroughout(clock: Clock, rows: seq<Alert>, es: seq<Event>)
    requires IndexHolds(rows)
    ensures IndexHolds(Run(clock, rows, es).rows)
    decreases |es|
  {
    if es != [] {
      var s, e := Run(clock, rows, es[..|es| - 1]), es[|es| - 1];
      IndexHoldsThroughout(clock, rows, es[..|es| - 1]);
      StepNeverReopens(clock, s, e);
      var t := Step(clock, s, e);
      forall k | Indexed(k) ensures OneOpen(t.rows, k) {
        assert OneOpen(s.rows, k);
        if |t.rows| > |s.rows| && OpenFor(t.rows[|s.rows|], k) {
          assert e.Advance? && s.calls[e.c].at.Inserting? && !Conflicts(s.rows, k);
        }
      }
    }
  }

  // ---- What a call returns ----------------------------------------------------------------

  /** The row a call works on, once it has one. */
  function Held(at: Point): Option<nat> {
    match at
    case Refreshing(id, _) => Some(id)
    case Deciding(id, _) => Some(id)
    case Emitting(id, _) => Some(id)
    case Done(Returned(id, _)) => Some(id)
    case _ => None
  }

  /** Row `id` has the call's key and is open while the call is under way. */
  predicate OpenDuring(s: State, c: CallId, id: nat) {
    && c in s.calls && !s.calls[c].at.Done?
    && id < |s.rows| && OpenFor(s.rows[id], s.calls[c].req.key)
  }

  /** A step moves at most the call it is about, and keeps every request; a new call starts by selecting. */
  lemma StepKeepsCalls(clock: Clock, s: State, e: Event, c: CallId)
    ensures var t := Step(clock, s, e);
            && (c in s.calls ==> c in t.calls && t.calls[c].req == s.calls[c].req)
            && (c in s.calls && e != Advance(c) ==> t.calls[c] == s.calls[c])
            && (c !in s.calls && c in t.calls ==> t.calls[c].at.Selecting?)
  {
    match e
    case Begin(_, _) =>
    case Advance(d) =>
      if d in s.calls {
        assert Step(clock, s, e).calls == s.calls[d := s.calls[d].(at := Step(clock, s, e).calls[d].at)];
      }
    case _ =>
  }

  /** A call keeps its request. */
  lemma {:induction false} KeepsRequest(clock: Clock, rows: seq<Alert>, es: seq<Event>, k: nat, c: CallId)
    requires k <= |es| && c in Before(clock, rows, es, k).calls
    ensures c in Run(clock, rows, es).calls
    ensures Run(clock, rows, es).calls[c].req == Before(clock, rows, es, k).calls[c].req
    decreases |es|
  {
    assert es[..|es|] == es;
    if k < |es| {
      BeforeInPrefix(clock, rows, es, |es| - 1, k);
      KeepsRequest(clock, rows, es[..|es| - 1], k, c);
      StepKeepsCalls(clock, Run(clock, rows, es[..|es| - 1]), es[|es| - 1], c);
    }
  }

  /** A statement that first gives a call its row finds the row open, or inserts it open. */
  lemma FirstHeldIsOpen(clock: Clock, s: State, c: CallId)
    requires c in s.calls && Held(s.calls[c].at).None? && Held(Statement(clock, s, c).calls[c].at).Some?
    ensures var t := Statement(clock, s, c);
            OpenDuring(s, c, Held(t.calls[c].at).value) || OpenDuring(t, c, Held(t.calls[c].at).value)
    ensures var t := Statement(clock, s, c);
            var id := Held(t.calls[c].at).value;
            id < |t.rows| && t.rows[id].key == t.calls[c].req.key && t.calls[c].req == s.calls[c].req
  {
  }

  /** A call stays with its row, and the row with its key. */
  lemma StepKeepsHeld(clock: Clock, s: State, e: Event, c: CallId)
    requires c in s.calls && Held(s.calls[c].at).Some?
    ensures c in Step(clock, s, e).calls && Held(Step(clock, s, e).calls[c].at) == Held(s.calls[c].at)
    ensures Step(clock, s, e).calls[c].req == s.calls[c].req
  {
  }

  /** The row a call works on exists and has the call's key. */
  predicate HoldsOwn(s: State, c: CallId) {
    && c in s.calls && Held(s.calls[c].at).Some?
    && Held(s.calls[c].at).value < |s.rows|
    && s.rows[Held(s.calls[c].at).value].key == s.calls[c].req.key
  }

  /** The row a call found and has refreshed by now. */
  function RefreshedRow(at: Point): Option<nat> {
    match at
    case Deciding(id, _) => Some(id)
    case Emitting(id, created) => if created then None else Some(id)
    case Done(Returned(id, created)) => if created then None else Some(id)
    case _ => None
  }

  /** The call's value, and its message if it has one, are written into the row and nothing else is. */
  predicate Refreshes(before: State, after: State, req: Request, id: nat) {
    && id < |before.rows| == |after.rows|
    && after.rows[id] == before.rows[id].(value := req.value, message := after.rows[id].message)
    && (req.message != "" ==> after.rows[id].message == req.message)
    && forall i :: 0 <= i < |before.rows| && i != id ==> after.rows[i] == before.rows[i]
  }

  lemma StatementRefreshes(clock: Clock, s: State, c: CallId)
    requires c in s.calls && RefreshedRow(Statement(clock, s, c).calls[c].at).Some?
    ensures var t, req := Statement(clock, s, c), s.calls[c].req;
            || RefreshedRow(s.calls[c].at) == RefreshedRow(t.calls[c].at)
            || Refreshes(s, t, req, RefreshedRow(t.calls[c].at).value)
  {
  }

  lemma StepRefreshes(clock: Clock, s: State, e: Event, c: CallId)
    requires c in Step(clock, s, e).calls && RefreshedRow(Step(clock, s, e).calls[c].at).Some?
    ensures c in s.calls
    ensures var t, req := Step(clock, s, e), s.calls[c].req;
            || RefreshedRow(s.calls[c].at) == RefreshedRow(t.calls[c].at)
            || (e == Advance(c) && Refreshes(s, t, req, RefreshedRow(t.calls[c].at).value))
  {
    StepKeepsCalls(clock, s, e, c);
    if e == Advance(c) {
      StatementRefreshes(clock, s, c);
    }
  }

  /**
   In every interleaving a call that returns a row it found, at its first look or after a collision,
   has written its value and message into it by one of its own statements.
   */
  lemma {:induction false} FoundIsRefreshed(clock: Clock, rows: seq<Alert>, es: seq<Event>, c: CallId)
    returns (k: nat)
    requires c in Run(clock, rows, es).calls && RefreshedRow(Run(clock, rows, es).calls[c].at).Some?
    ensures k < |es| && es[k] == Advance(c)
    ensures var call := Run(clock, rows, es).calls[c];
            Refreshes(Before(clock, rows, es, k), Before(clock, rows, es, k + 1), call.req, RefreshedRow(call.at).value)
    decreases |es|
  {
    var n := |es| - 1;
    var s := Run(clock, rows, es[..n]);
    assert es[..n + 1] == es;
    StepRefreshes(clock, s, es[n], c);
    StepKeepsCalls(clock, s, es[n], c);
    if RefreshedRow(s.calls[c].at) == RefreshedRow(Run(clock, rows, es).calls[c].at) {
      k := FoundIsRefreshed(clock, rows, es[..n], c);
      BeforeInPrefix(clock, rows, es, n, k);
      BeforeInPrefix(clock, rows, es, n, k + 1);
    } else {
      k := n;
    }
  }

  /** Every alert a call works on or returns has its key and was open at some moment of the call. */
  lemma {:induction false} ReturnedWasOpen(clock: Clock, rows: seq<Alert>, es: seq<Event>, c: CallId) returns (k: nat)
    requires c in Run(clock, rows, es).calls && Held(Run(clock, rows, es).calls[c].at).Some?
    ensures HoldsOwn(Run(clock, rows, es), c)
    ensures k <= |es| && OpenDuring(Before(clock, rows, es, k), c, Held(Run(clock, rows, es).calls[c].at).value)
    decreases |es|
  {
    var n := |es| - 1;
    var s, t := Run(clock, rows, es[..n]), Run(clock, rows, es);
    assert es[..|es|] == es;
    StepKeepsCalls(clock, s, es[n], c);
    if c in s.calls && Held(s.calls[c].at).Some? {
      k := ReturnedWasOpen(clock, rows, es[..n], c);
      BeforeInPrefix(clock, rows, es, n, k);
      StepNeverReopens(clock, s, es[n]);
      StepKeepsHeld(clock, s, es[n], c);
    } else {
      FirstHeldIsOpen(clock, s, c);
      k := if OpenDuring(s, c, Held(t.calls[c].at).value) then n else |es|;
    }
  }

  /** The most statements a call at this point still has before it returns. */
  function Left(at: Point): nat {
    match at
    case Selecting => 7
    case Inserting => 6
    case Reselecting => 5
    case LastLook => 4
    case Refreshing(_, _) => 3
    case Deciding(_, _) => 2
    case Emitting(_, _) => 1
    case Done(_) => 0
  }

  lemma StatementLowers(clock: Clock, s: State, c: CallId)
    requires c in s.calls && (Held(s.calls[c].at).Some? ==> HoldsOwn(s, c))
    ensures var after := Statement(clock, s, c).calls[c].at;
            Left(after) < Left(s.calls[c].at) || (after.Done? && s.calls[c].at.Done?)
  {
  }

  /** How many statements of call c the run issues from event k on. */
  function OwnStatements(es: seq<Event>, k: nat, c: CallId): nat {
    if |es| <= k then 0
    else OwnStatements(es[..|es| - 1], k, c) + if es[|es| - 1] == Advance(c) then 1 else 0
  }

  /** Every statement of its own brings a call closer to its return, whatever others do in between. */
  lemma {:induction false} CallProgresses(clock: Clock, rows: seq<Alert>, es: seq<Event>, k: nat, c: CallId)
    requires k <= |es| && c in Before(clock, rows, es, k).calls
    ensures c in Run(clock, rows, es).calls
    ensures var at := Run(clock, rows, es).calls[c].at;
            at.Done? || Left(at) + OwnStatements(es, k, c) <= Left(Before(clock, rows, es, k).calls[c].at)
    decreases |es|
  {
    assert es[..|es|] == es;
    if k < |es| {
      var s, e := Run(clock, rows, es[..|es| - 1]), es[|es| - 1];
      BeforeInPrefix(clock, rows, es, |es| - 1, k);
      CallProgresses(clock, rows, es[..|es| - 1], k, c);
      StepKeepsCalls(clock, s, e, c);
      if e == Advance(c) {
        if Held(s.calls[c].at).Some? {
          var _ := ReturnedWasOpen(clock, rows, es[..|es| - 1], c);
        }
        StatementLowers(clock, s, c);
      }
    }
  }

  /** So a call has returned after seven of its own statements, in every interleaving. */
  lemma ReturnsWithinSeven(clock: Clock, rows: seq<Alert>, es: seq<Event>, k: nat, c: CallId)
    requires k <= |es| && c in Before(clock, rows, es, k).calls && OwnStatements(es, k, c) >= 7
    ensures c in Run(clock, rows, es).calls && Run(clock, rows, es).calls[c].at.Done?
  {
    CallProgresses(clock, rows, es, k, c);
  }

  /** A row collides with the call's insert. */
  predicate Collides(s: State, c: CallId, i: nat) {
    && c in s.calls && s.calls[c].at.Inserting?
    && i < |s.rows| && OpenFor(s.rows[i], s.calls[c].req.key)
  }

  predicate AfterCollision(at: Point) {
    at.Reselecting? || at.LastLook? || at == Done(NoAlert)
  }

  /** A call gets past its insert without a row only by colliding, and gives up only at its last look. */
  lemma CollisionStep(clock: Clock, s: State, e: Event, c: CallId) returns (i: nat)
    requires c in Step(clock, s, e).calls
    requires var t := Step(clock, s, e);
             AfterCollision(t.calls[c].at) && (c in s.calls ==> s.calls[c].at != t.calls[c].at)
    ensures c in s.calls
    ensures s.calls[c].at.Inserting? ==> Collides(s, c, i)
    ensures !s.calls[c].at.Inserting? ==> AfterCollision(s.calls[c].at)
    ensures Step(clock, s, e).calls[c].at == Done(NoAlert) ==>
              s.calls[c].at.LastLook? && forall j :: 0 <= j < |s.rows| ==> !LiveOpen(s.rows[j], s.calls[c].req.key)
  {
    StepKeepsCalls(clock, s, e, c);
    i := 0;
    if s.calls[c].at.Inserting? {
      i :| 0 <= i < |s.rows| && OpenFor(s.rows[i], s.calls[c].req.key);
    }
  }

  lemma {:induction false} CollidedBefore(clock: Clock, rows: seq<Alert>, es: seq<Event>, c: CallId)
    returns (k: nat, i: nat)
    requires c in Run(clock, rows, es).calls && AfterCollision(Run(clock, rows, es).calls[c].at)
    ensures k < |es| && Collides(Before(clock, rows, es, k), c, i)
    decreases |es|
  {
    var n := |es| - 1;
    var s := Run(clock, rows, es[..n]);
    if c in s.calls && AfterCollision(s.calls[c].at) {
      k, i := CollidedBefore(clock, rows, es[..n], c);
      BeforeInPrefix(clock, rows, es, n, k);
    } else {
      k := n;
      i := CollisionStep(clock, s, es[n], c);
    }
  }

  /**
   A call returns no alert only if its insert collided with an open row (at k) which, at its last
   look (at m), had been soft-deleted or had left OPEN.
   */
  lemma {:induction false} NoAlertOnlyIfRowHidden(clock: Clock, rows: seq<Alert>, es: seq<Event>, c: CallId)
    returns (k: nat, m: nat, i: nat)
    requires c in Run(clock, rows, es).calls && Run(clock, rows, es).calls[c].at == Done(NoAlert)
    ensures k < m < |es| && Collides(Before(clock, rows, es, k), c, i)
    ensures var s := Before(clock, rows, es, m);
            && c in s.calls && s.calls[c].at.LastLook?
            && i < |s.rows| && (s.rows[i].deleted || !s.rows[i].status.Open?)
    decreases |es|
  {
    var n := |es| - 1;
    var s := Run(clock, rows, es[..n]);
    if c in s.calls && s.calls[c].at == Done(NoAlert) {
      k, m, i := NoAlertOnlyIfRowHidden(clock, rows, es[..n], c);
      BeforeInPrefix(clock, rows, es, n, k);
      BeforeInPrefix(clock, rows, es, n, m);
    } else {
      var _ := CollisionStep(clock, s, es[n], c);
      m := n;
      k, i := CollidedBefore(clock, rows, es[..n], c);
      BeforeInPrefix(clock, rows, es, n, k);
      NeverReopens(clock, rows, es[..n], k, i);
      KeepsRequest(clock, rows, es[..n], k, c);
      assert !LiveOpen(s.rows[i], s.calls[c].req.key);
    }
  }

  // ---- Creation and emission --------------------------------------------------------------

  /** Call c inserted row `id`. */
  predicate Created(calls: map<CallId, Call>, c: CallId, id: nat) {
    c in calls && (calls[c].at == Emitting(id, true) || calls[c].at == Done(Returned(id, true)))
  }

  ghost predicate HasCreator(calls: map<CallId, Call>, id: nat) {
    exists c :: Created(calls, c, id)
  }

  /** Each row from `first` on was inserted by exactly one call; calls work on existing rows. */
  ghost predicate OneCreator(s: State, first: nat) {
    && first <= |s.rows|
    && (forall c: CallId, id: nat :: Created(s.calls, c, id) ==> first <= id < |s.rows|)
    && (forall id: nat :: first <= id < |s.rows| ==> HasCreator(s.calls, id))
    && (forall c: CallId, d: CallId, id: nat :: Created(s.calls, c, id) && Created(s.calls, d, id) ==> c == d)
    && (forall c :: c in s.calls && Held(s.calls[c].at).Some? ==> Held(s.calls[c].at).value < |s.rows|)
  }

  /** An emission was made by a finished call, for the row it returned. */
  predicate MadeBy(calls: map<CallId, Call>, e: Emission) {
    e.call in calls && calls[e.call].at == Done(Returned(e.alert, e.created))
  }

  /** No call emits twice, and every finished call that inserted a row has emitted it. */
  ghost predicate CreatorsEmit(s: State) {
    && (forall i :: 0 <= i < |s.emissions| ==> MadeBy(s.calls, s.emissions[i]))
    && (forall i, j :: 0 <= i < j < |s.emissions| ==> s.emissions[i].call != s.emissions[j].call)
    && (forall c: CallId, id: nat :: c in s.calls && s.calls[c].at == Done(Returned(id, true)) ==>
          exists i :: 0 <= i < |s.emissions| && s.emissions[i].call == c)
  }

  /** What one statement of call c can change besides the columns of rows. */
  lemma StatementEffect(clock: Clock, s: State, c: CallId)
    requires c in s.calls
    ensures var t := Statement(clock, s, c);
            var at, after := s.calls[c].at, t.calls[c].at;
            && t.calls == s.calls[c := Call(s.calls[c].req, after)]
            && (Held(at).Some? ==> Held(after) == Held(at))
            && (Held(at).None? && Held(after).Some? ==> Held(after).value < |t.rows|)
            && (|t.rows| == |s.rows| || (|t.rows| == |s.rows| + 1 && after == Emitting(|s.rows|, true)))
            && (|t.rows| == |s.rows| ==>
                  forall id: nat :: Created(t.calls, c, id) <==> Created(s.calls, c, id))
            && (at.Done? ==> t == s)
            && (t.emissions == s.emissions || (t.emissions == s.emissions + [t.emissions[|s.emissions|]]
                  && t.emissions[|s.emissions|].call == c && MadeBy(t.calls, t.emissions[|s.emissions|])))
            && (!at.Done? && after.Done? && after.outcome.Returned? && after.outcome.created ==>
                  |t.emissions| > |s.emissions|)
  {
    match s.calls[c].at
    case Inserting =>
    case Emitting(_, _) =>
    case _ =>
  }

  lemma StepKeepsOneCreator(clock: Clock, s: State, e: Event, first: nat)
    requires OneCreator(s, first)
    ensures OneCreator(Step(clock, s, e), first)
  {
    var t := Step(clock, s, e);
    forall d: CallId, id: nat | Created(s.calls, d, id) ensures Created(t.calls, d, id) {
      if e.Advance? && e.c in s.calls { StatementEffect(clock, s, e.c); }
    }
    forall id: nat | first <= id < |s.rows| ensures HasCreator(t.calls, id) {
      assert HasCreator(s.calls, id);
      var d :| Created(s.calls, d, id);
      assert Created(t.calls, d, id);
    }
    if e.Advance? && e.c in s.calls {
      StatementEffect(clock, s, e.c);
      forall d: CallId, id: nat | Created(t.calls, d, id)
        ensures Created(s.calls, d, id) || (d == e.c && id == |s.rows| < |t.rows|)
      {
      }
      if |t.rows| > |s.rows| {
        assert Created(t.calls, e.c, |s.rows|);
      }
    } else {
      forall d: CallId, id: nat | Created(t.calls, d, id) ensures Created(s.calls, d, id) {
      }
    }
  }

  lemma StepKeepsCreatorsEmit(clock: Clock, s: State, e: Event)
    requires CreatorsEmit(s)
    ensures CreatorsEmit(Step(clock, s, e))
  {
    var t := Step(clock, s, e);
    if e.Advance? && e.c in s.calls {
      var c := e.c;
      StatementEffect(clock, s, c);
      if !s.calls[c].at.Done? {
        assert forall i :: 0 <= i < |s.emissions| ==> MadeBy(s.calls, s.emissions[i]) && s.emissions[i].call != c;
        forall d: CallId, id: nat | d in t.calls && t.calls[d].at == Done(Returned(id, true))
          ensures exists i :: 0 <= i < |t.emissions| && t.emissions[i].call == d
        {
          if d != c {
            var i :| 0 <= i < |s.emissions| && s.emissions[i].call == d;
            assert t.emissions[i].call == d;
          }
        }
        forall i | 0 <= i < |t.emissions| ensures MadeBy(t.calls, t.emissions[i]) {
          if i < |s.emissions| { assert MadeBy(s.calls, s.emissions[i]); }
        }
      }
    } else {
      assert t.emissions == s.emissions;
      assert forall i :: 0 <= i < |s.emissions| ==> MadeBy(s.calls, s.emissions[i]);
    }
  }

  /**
   In every interleaving each new row has exactly one creator, and a creator that has returned
   made exactly one emission, for that row.
   */
  lemma {:induction false} CreatedOnceEmittedOnce(clock: Clock, rows: seq<Alert>, es: seq<Event>)
    ensures OneCreator(Run(clock, rows, es), |rows|) && CreatorsEmit(Run(clock, rows, es))
    decreases |es|
  {
    if es != [] {
      var s := Run(clock, rows, es[..|es| - 1]);
      CreatedOnceEmittedOnce(clock, rows, es[..|es| - 1]);
      StepKeepsOneCreator(clock, s, es[|es| - 1], |rows|);
      StepKeepsCreatorsEmit(clock, s, es[|es| - 1]);
    }
  }

  // ---- The limits -------------------------------------------------------------------------

  /** The run so far, and one more event. */
  lemma Then(clock: Clock, rows: seq<Alert>, es: seq<Event>, e: Event)
    ensures Run(clock, rows, es + [e]) == Step(clock, Run(clock, rows, es), e)
  {
    assert (es + [e])[..|es|] == es;
  }

  /** Two calls that both look before either inserts. */
  function BothLookFirst(req: Request): seq<Event> {
    [Begin(0, req)] + [Begin(1, req)] + [Advance(0)] + [Advance(1)] + [Advance(0)] + [Advance(1)]
  }

  lemma TwoOpenRows(clock: Clock, req: Request)
    requires !Indexed(req.key)
    ensures var s := Run(clock, [], BothLookFirst(req));
            s.rows == [NewAlert(req), NewAlert(req)] && s.calls.Keys == {0, 1}
  {
    var es: seq<Event> := [];
    Then(clock, [], es, Begin(0, req));
    es := es + [Begin(0, req)];
    Then(clock, [], es, Begin(1, req));
    es := es + [Begin(1, req)];
    Then(clock, [], es, Advance(0));
    es := es + [Advance(0)];
    Then(clock, [], es, Advance(1));
    es := es + [Advance(1)];
    assert Run(clock, [], es).calls[0].at.Inserting? && Run(clock, [], es).calls[1].at.Inserting?;
    Then(clock, [], es, Advance(0));
    es := es + [Advance(0)];
    Then(clock, [], es, Advance(1));
    assert es + [Advance(1)] == BothLookFirst(req);
  }

  /** De-duplication of a key survives every interleaving from an empty table. */
  ghost predicate NeverDuplicated(k: AlertKey) {
    forall clock: Clock, es :: OneOpen(Run(clock, [], es).rows, k)
  }

  /**
   The documented "one open alert per (rule, device)" holds under concurrency exactly when neither
   is NULL: an alert raised without a rule can be opened twice.
   */
  lemma DedupIffIndexed(k: AlertKey)
    ensures NeverDuplicated(k) <==> Indexed(k)
  {
    var clock: Clock := i => i;
    if Indexed(k) {
      forall c: Clock, es ensures OneOpen(Run(c, [], es).rows, k) {
        IndexHoldsThroughout(c, [], es);
      }
    } else {
      var req := Request(k, 0, None, Warning, "", "", None, None);
      TwoOpenRows(clock, req);
      var rows := Run(clock, [], BothLookFirst(req)).rows;
      assert OpenFor(rows[0], k) && OpenFor(rows[1], k);
    }
  }

  /** Once such a key is duplicated, the next call for it fails in its first SELECT. */
  lemma DuplicateBreaksNextCall(clock: Clock, req: Request)
    requires !Indexed(req.key)
    ensures var s := Run(clock, [], BothLookFirst(req) + [Begin(2, req)] + [Advance(2)]);
            2 in s.calls && s.calls[2].at == Done(Failed)
  {
    TwoOpenRows(clock, req);
    var es := BothLookFirst(req);
    Then(clock, [], es, Begin(2, req));
    Then(clock, [], es + [Begin(2, req)], Advance(2));
    var rows := Run(clock, [], es).rows;
    assert LiveOpen(rows[0], req.key) && LiveOpen(rows[1], req.key);
  }

  /** In any state: a lookup fails exactly if two live open rows have its key. */
  lemma LookupFailsIffDuplicated(clock: Clock, s: State, c: CallId)
    requires c in s.calls && (s.calls[c].at.Selecting? || s.calls[c].at.Reselecting?)
    ensures Step(clock, s, Advance(c)).calls[c].at == Done(Failed) <==> Duplicated(s.rows, s.calls[c].req.key)
  {
    DuplicatedFails(s.rows, s.calls[c].req.key);
  }

  /** The event takes row `id` of the key out of the live open rows. */
  predicate Retires(e: Event, k: AlertKey, id: nat) {
    match e
    case AutoResolve(closed) => closed == k
    case Acknowledge(i, _) => i == id
    case Resolve(i) => i == id
    case SoftDelete(i) => i == id
    case _ => false
  }

  /** A live open row stays one until it is closed or soft-deleted, so a duplicate lasts until then. */
  lemma LiveUntilRetired(clock: Clock, s: State, e: Event, k: AlertKey, id: nat)
    requires id < |s.rows| && LiveOpen(s.rows[id], k)
    ensures LiveOpen(Step(clock, s, e).rows[id], k) <==> !Retires(e, k, id)
  {
  }

  /** Every lookup for the key fails as long as two of its rows stay live and open. */
  lemma {:induction false} FailsWhileDuplicated(
    clock: Clock, rows: seq<Alert>, es: seq<Event>, from: nat, c: CallId, i: nat, j: nat)
    requires from <= |es| && c in Run(clock, rows, es).calls
    requires var k := Run(clock, rows, es).calls[c].req.key;
             && i < j < |Before(clock, rows, es, from).rows|
             && LiveOpen(Before(clock, rows, es, from).rows[i], k) && LiveOpen(Before(clock, rows, es, from).rows[j], k)
             && forall n :: from <= n < |es| ==> !Retires(es[n], k, i) && !Retires(es[n], k, j)
    requires Run(clock, rows, es).calls[c].at.Selecting? || Run(clock, rows, es).calls[c].at.Reselecting?
    ensures Run(clock, rows, es + [Advance(c)]).calls[c].at == Done(Failed)
  {
    var s, k := Run(clock, rows, es), Run(clock, rows, es).calls[c].req.key;
    assert es[..|es|] == es;
    LiveAlong(clock, rows, es, from, |es|, k, i);
    LiveAlong(clock, rows, es, from, |es|, k, j);
    LookupFailsIffDuplicated(clock, s, c);
    Then(clock, rows, es, Advance(c));
  }

  lemma {:induction false} LiveAlong(
    clock: Clock, rows: seq<Alert>, es: seq<Event>, from: nat, n: nat, k: AlertKey, id: nat)
    requires from <= n <= |es| && id < |Before(clock, rows, es, from).rows|
    requires LiveOpen(Before(clock, rows, es, from).rows[id], k)
    requires forall m :: from <= m < n ==> !Retires(es[m], k, id)
    ensures id < |Before(clock, rows, es, n).rows| && LiveOpen(Before(clock, rows, es, n).rows[id], k)
    decreases n
  {
    if from < n {
      assert es[..n][..n - 1] == es[..n - 1];
      LiveAlong(clock, rows, es, from, n - 1, k, id);
      LiveUntilRetired(clock, Before(clock, rows, es, n - 1), es[n - 1], k, id);
      StepNeverReopens(clock, Before(clock, rows, es, n - 1), es[n - 1]);
    }
  }

  /** A call that raises and announces a row, the row soft-deleted, and a second call. */
  function DeletedBetween(req: Request): seq<Event> {
    [Begin(0, req)] + [Advance(0)] + [Advance(0)] + [Advance(0)] + [SoftDelete(0)]
    + [Begin(1, req)] + [Advance(1)] + [Advance(1)] + [Advance(1)] + [Advance(1)]
  }

  lemma RaisedAndDeleted(clock: Clock, req: Request)
    ensures var s := Run(clock, [], [Begin(0, req)] + [Advance(0)] + [Advance(0)] + [Advance(0)] + [SoftDelete(0)]);
            && s.rows == [NewAlert(req).(notifiedAt := Some(clock(0)), deleted := true)]
            && s.calls == map[0 := Call(req, Done(Returned(0, true)))]
  {
    var es: seq<Event> := [];
    Then(clock, [], es, Begin(0, req));
    es := es + [Begin(0, req)];
    Then(clock, [], es, Advance(0));
    es := es + [Advance(0)];
    Then(clock, [], es, Advance(0));
    es := es + [Advance(0)];
    assert Run(clock, [], es).calls == map[0 := Call(req, Emitting(0, true))];
    Then(clock, [], es, Advance(0));
    es := es + [Advance(0)];
    Then(clock, [], es, SoftDelete(0));
  }

  /** Once its open row is soft-deleted a key with a rule and a device raises no alert any more. */
  lemma DeletedRowSilences(clock: Clock, req: Request)
    requires Indexed(req.key)
    ensures var s := Run(clock, [], DeletedBetween(req));
            && 1 in s.calls && s.calls[1].at == Done(NoAlert)
            && |s.rows| == 1 && OpenFor(s.rows[0], req.key) && s.rows[0].deleted
  {
    var es := [Begin(0, req)] + [Advance(0)] + [Advance(0)] + [Advance(0)] + [SoftDelete(0)];
    RaisedAndDeleted(clock, req);
    var rows := Run(clock, [], es).rows;
    assert OpenFor(rows[0], req.key);
    Then(clock, [], es, Begin(1, req));
    es := es + [Begin(1, req)];
    Then(clock, [], es, Advance(1));
    es := es + [Advance(1)];
    assert Run(clock, [], es).rows == rows && Run(clock, [], es).calls[1] == Call(req, Inserting);
    Then(clock, [], es, Advance(1));
    es := es + [Advance(1)];
    assert Run(clock, [], es).rows == rows && Run(clock, [], es).calls[1] == Call(req, Reselecting);
    Then(clock, [], es, Advance(1));
    es := es + [Advance(1)];
    assert Run(clock, [], es).rows == rows && Run(clock, [], es).calls[1] == Call(req, LastLook);
    Then(clock, [], es, Advance(1));
    assert es + [Advance(1)] == DeletedBetween(req);
  }

  lemma StepNeverFails(clock: Clock, s: State, e: Event, c: CallId)
    requires c in s.calls && s.calls[c].at != Done(Failed) && OneOpen(s.rows, s.calls[c].req.key)
    ensures c in Step(clock, s, e).calls && Step(clock, s, e).calls[c].at != Done(Failed)
  {
    StepKeepsCalls(clock, s, e, c);
    assert !Get(s.rows, s.calls[c].req.key).MultipleObjects?;
  }

  /** A call with a rule and a device never fails. */
  lemma {:induction false} IndexedCallsNeverFail(clock: Clock, rows: seq<Alert>, es: seq<Event>, c: CallId)
    requires IndexHolds(rows)
    requires c in Run(clock, rows, es).calls && Indexed(Run(clock, rows, es).calls[c].req.key)
    ensures Run(clock, rows, es).calls[c].at != Done(Failed)
    decreases |es|
  {
    var before := es[..|es| - 1];
    var s := Run(clock, rows, before);
    StepKeepsCalls(clock, s, es[|es| - 1], c);
    if c in s.calls {
      IndexedCallsNeverFail(clock, rows, before, c);
      IndexHoldsThroughout(clock, rows, before);
      StepNeverFails(clock, s, es[|es| - 1], c);
    }
  }

  /** Statement by statement, call c alone. */
  function Alone(clock: Clock, s: State, c: CallId, n: nat): State {
    if n == 0 then s else Step(clock, Alone(clock, s, c, n - 1), Advance(c))
  }

  /**
   The cooldown is compared on the copy the call read, so overlapping callers need not keep it: two
   calls that read the row before either emits both emit, however long the cooldown is.
   */
  lemma CooldownDoesNotBindRaces(clock: Clock, req: Request, row: Alert)
    requires LiveOpen(row, req.key) && req.cooldown.Some?
    requires row.notifiedAt.Some? && forall i :: clock(i) == row.notifiedAt.value + req.cooldown.value * SECOND
    ensures var es := [Begin(0, req)] + [Begin(1, req)] + [Advance(0)] + [Advance(1)];
            var s := Alone(clock, Alone(clock, Run(clock, [row], es), 0, 3), 1, 3);
            |s.emissions| == 2 && s.emissions[0].alert == s.emissions[1].alert == 0
            && s.emissions[0].time == s.emissions[1].time
  {
    var es: seq<Event> := [];
    Then(clock, [row], es, Begin(0, req));
    es := es + [Begin(0, req)];
    Then(clock, [row], es, Begin(1, req));
    es := es + [Begin(1, req)];
    Then(clock, [row], es, Advance(0));
    es := es + [Advance(0)];
    Then(clock, [row], es, Advance(1));
    var s := Run(clock, [row], es + [Advance(1)]);
    assert s.calls[0].at == s.calls[1].at == Refreshing(0, row);
    var t := ThreeMore(clock, s, 0, row);
    var u := ThreeMore(clock, t, 1, row);
  }

  /** Call c, having read the row, refreshes it, finds its cooldown over, and emits. */
  lemma ThreeMore(clock: Clock, s: State, c: CallId, row: Alert) returns (t: State)
    requires c in s.calls && s.calls[c].at == Refreshing(0, row) && s.rows != []
    requires row.notifiedAt.Some? && s.calls[c].req.cooldown.Some?
    requires forall i :: clock(i) == row.notifiedAt.value + s.calls[c].req.cooldown.value * SECOND
    ensures t == Alone(clock, s, c, 3)
    ensures t.emissions == s.emissions + [Emission(c, 0, false, clock(0))]
    ensures forall d :: d in s.calls && d != c ==> d in t.calls && t.calls[d] == s.calls[d]
    ensures t.rows != []
  {
    var s1 := Step(clock, s, Advance(c));
    assert s1.calls[c].at == Deciding(0, row);
    var s2 := Step(clock, s1, Advance(c));
    assert s2.calls[c].at == Emitting(0, false);
    t := Step(clock, s2, Advance(c));
    assert Alone(clock, s, c, 0) == s && Alone(clock, s, c, 1) == s1 && Alone(clock, s, c, 2) == s2;
  }
}
