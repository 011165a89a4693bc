/** A call that nothing interleaves with does what the serial service does. */
module RaceRefinement {
  import opened Options
  import opened Alerts
  import AlertRace
  import AlertService

  function Next(clock: Clock, s: AlertRace.State, c: AlertRace.CallId): AlertRace.State {
    AlertRace.Step(clock, s, AlertRace.Advance(c))
  }

  lemma FourStatements(clock: Clock, s: AlertRace.State, c: AlertRace.CallId)
    ensures AlertRace.Alone(clock, s, c, 4) == Next(clock, Next(clock, Next(clock, Next(clock, s, c), c), c), c)
  {
    assert AlertRace.Alone(clock, s, c, 0) == s;
    assert AlertRace.Alone(clock, s, c, 1) == Next(clock, s, c);
    assert AlertRace.Alone(clock, s, c, 2) == Next(clock, Next(clock, s, c), c);
    assert AlertRace.Alone(clock, s, c, 3) == Next(clock, Next(clock, Next(clock, s, c), c), c);
  }

  /** Announcements as the audit trail of the serial service records them. */
  function Audit(made: seq<AlertRace.Emission>): (entries: seq<AlertService.Emission>)
    ensures |entries| == |made|
    ensures forall i :: 0 <= i < |made| ==> entries[i] == AlertService.Emission(made[i].alert, made[i].time)
  {
    seq(|made|, i requires 0 <= i < |made| => AlertService.Emission(made[i].alert, made[i].time))
  }

  /**
   From s to t the call has ended where the serial service takes db to after: same rows, clock
   readings and outcome, and its announcements are the new audit entries, alert by alert and time
   by time.
   */
  ghost predicate EndsAs(
    s: AlertRace.State, t: AlertRace.State, c: AlertRace.CallId, db: AlertService.Db, after: AlertService.Db,
    outcome: Outcome)
  {
    && t.rows == after.rows && t.ticks == after.ticks && c in t.calls && t.calls[c].at == AlertRace.Done(outcome)
    && s.emissions <= t.emissions
    && (forall i :: |s.emissions| <= i < |t.emissions| ==> t.emissions[i].call == c)
    && after.raised == db.raised + Audit(t.emissions[|s.emissions|..])
  }

  /** What the next statement leaves of the parts that matter. */
  ghost predicate Moves(
    s: AlertRace.State, t: AlertRace.State, c: AlertRace.CallId, at: AlertRace.Point, rows: seq<Alert>, ticks: nat,
    made: seq<AlertRace.Emission>)
  {
    && c in s.calls && t.calls == s.calls[c := AlertRace.Call(s.calls[c].req, at)]
    && t.rows == rows && t.ticks == ticks && t.emissions == s.emissions + made
  }

  lemma EmitMoves(clock: Clock, s: AlertRace.State, c: AlertRace.CallId, id: nat, created: bool)
    requires c in s.calls && s.calls[c].at == AlertRace.Emitting(id, created) && id < |s.rows|
    ensures Moves(s, Next(clock, s, c), c, AlertRace.Done(Returned(id, created)),
                  SetNotified(s.rows, id, clock(s.ticks)), s.ticks + 1,
                  [AlertRace.Emission(c, id, created, clock(s.ticks))])
  {
  }

  lemma InsertMoves(clock: Clock, s: AlertRace.State, c: AlertRace.CallId)
    requires c in s.calls && s.calls[c].at.Inserting?
    ensures if Conflicts(s.rows, s.calls[c].req.key)
            then Moves(s, Next(clock, s, c), c, AlertRace.Reselecting, s.rows, s.ticks, [])
            else Moves(s, Next(clock, s, c), c, AlertRace.Emitting(|s.rows|, true),
                       s.rows + [NewAlert(s.calls[c].req)], s.ticks, [])
  {
  }

  lemma SelectMoves(clock: Clock, s: AlertRace.State, c: AlertRace.CallId)
    requires c in s.calls && s.calls[c].at.Selecting?
    ensures Moves(s, Next(clock, s, c), c,
                  AlertRace.AfterGet(Get(s.rows, s.calls[c].req.key), s.rows, AlertRace.Inserting), s.rows, s.ticks,
                  [])
  {
  }

  lemma LookMoves(clock: Clock, s: AlertRace.State, c: AlertRace.CallId)
    requires c in s.calls && s.calls[c].at.Reselecting? && Get(s.rows, s.calls[c].req.key).DoesNotExist?
    ensures var t := Next(clock, s, c);
            Moves(s, t, c, AlertRace.LastLook, s.rows, s.ticks, [])
            && Moves(t, Next(clock, t, c), c, AlertRace.Done(NoAlert), s.rows, s.ticks, [])
  {
  }

  lemma RefreshMoves(clock: Clock, s: AlertRace.State, c: AlertRace.CallId, id: nat, seen: Alert)
    requires c in s.calls && s.calls[c].at == AlertRace.Refreshing(id, seen) && id < |s.rows|
    ensures Moves(s, Next(clock, s, c), c, AlertRace.Deciding(id, seen),
                  SetValue(s.rows, id, s.calls[c].req.value, MessageOr(s.calls[c].req.message, seen.message)), s.ticks,
                  [])
  {
  }

  lemma DecideMoves(clock: Clock, s: AlertRace.State, c: AlertRace.CallId, id: nat, seen: Alert)
    requires c in s.calls && s.calls[c].at == AlertRace.Deciding(id, seen)
    ensures var req, t := s.calls[c].req, Next(clock, s, c);
            if seen.notifiedAt.None? || req.cooldown.None? then
              Moves(s, t, c, AlertRace.Emitting(id, false), s.rows, s.ticks, [])
            else if CooldownElapsed(seen.notifiedAt, req.cooldown, clock(s.ticks)) then
              Moves(s, t, c, AlertRace.Emitting(id, false), s.rows, s.ticks + 1, [])
            else
              Moves(s, t, c, AlertRace.Done(Returned(id, false)), s.rows, s.ticks + 1, [])
  {
  }

  lemma DoneStays(clock: Clock, s: AlertRace.State, c: AlertRace.CallId)
    requires c in s.calls && s.calls[c].at.Done?
    ensures Next(clock, s, c) == s
  {
  }

  /** The emission after an insert, as the serial service reports it. */
  lemma InsertPath(clock: Clock, db: AlertService.Db, req: Request, chosen: seq<AlertService.Channel>,
                   dir: AlertService.Directory)
    requires Get(db.rows, req.key).DoesNotExist? && !Conflicts(db.rows, req.key)
    ensures var (after, outcome) := AlertService.Raise(clock, db, req, chosen, dir);
            && after.rows == SetNotified(db.rows + [NewAlert(req)], |db.rows|, clock(db.ticks))
            && after.ticks == db.ticks + 1 && outcome == Returned(|db.rows|, true)
            && after.raised == db.raised + [AlertService.Emission(|db.rows|, clock(db.ticks))]
  {
  }

  /** The refresh of an open row, as the serial service reports it. */
  lemma RefreshPath(clock: Clock, db: AlertService.Db, req: Request, chosen: seq<AlertService.Channel>,
                    dir: AlertService.Directory, id: nat)
    requires Get(db.rows, req.key) == Found(id)
    ensures var (after, outcome) := AlertService.Raise(clock, db, req, chosen, dir);
            var seen := db.rows[id];
            var rows := SetValue(db.rows, id, req.value, MessageOr(req.message, seen.message));
            && outcome == Returned(id, false)
            && if seen.notifiedAt.None? || req.cooldown.None? then
                 && after.rows == SetNotified(rows, id, clock(db.ticks)) && after.ticks == db.ticks + 1
                 && after.raised == db.raised + [AlertService.Emission(id, clock(db.ticks))]
               else if CooldownElapsed(seen.notifiedAt, req.cooldown, clock(db.ticks)) then
                 && after.rows == SetNotified(rows, id, clock(db.ticks + 1)) && after.ticks == db.ticks + 2
                 && after.raised == db.raised + [AlertService.Emission(id, clock(db.ticks + 1))]
               else after.rows == rows && after.ticks == db.ticks + 1 && after.raised == db.raised
  {
  }

  lemma SoloInsert(
    clock: Clock, s1: AlertRace.State, c: AlertRace.CallId, db: AlertService.Db,
    chosen: seq<AlertService.Channel>, dir: AlertService.Directory)
    requires c in s1.calls && s1.calls[c].at.Inserting? && db.rows == s1.rows && db.ticks == s1.ticks
    requires Get(s1.rows, s1.calls[c].req.key).DoesNotExist?
    ensures var (after, outcome) := AlertService.Raise(clock, db, s1.calls[c].req, chosen, dir);
            EndsAs(s1, Next(clock, Next(clock, Next(clock, s1, c), c), c), c, db, after, outcome)
  {
    var s2 := Next(clock, s1, c);
    InsertMoves(clock, s1, c);
    if Conflicts(s1.rows, s1.calls[c].req.key) {
      LookMoves(clock, s2, c);
    } else {
      InsertPath(clock, db, s1.calls[c].req, chosen, dir);
      EmitMoves(clock, s2, c, |s1.rows|, true);
      DoneStays(clock, Next(clock, s2, c), c);
    }
  }

  lemma SoloRefresh(
    clock: Clock, s1: AlertRace.State, c: AlertRace.CallId, db: AlertService.Db,
    chosen: seq<AlertService.Channel>, dir: AlertService.Directory, id: nat)
    requires c in s1.calls && id < |s1.rows| && db.rows == s1.rows && db.ticks == s1.ticks
    requires s1.calls[c].at == AlertRace.Refreshing(id, s1.rows[id])
    requires Get(s1.rows, s1.calls[c].req.key) == Found(id)
    ensures var (after, outcome) := AlertService.Raise(clock, db, s1.calls[c].req, chosen, dir);
            EndsAs(s1, Next(clock, Next(clock, Next(clock, s1, c), c), c), c, db, after, outcome)
  {
    var s2 := Next(clock, s1, c);
    var s3 := Next(clock, s2, c);
    RefreshMoves(clock, s1, c, id, s1.rows[id]);
    DecideMoves(clock, s2, c, id, s1.rows[id]);
    RefreshPath(clock, db, s1.calls[c].req, chosen, dir, id);
    if s3.calls[c].at.Done? {
      DoneStays(clock, s3, c);
    } else {
      EmitMoves(clock, s3, c, id, false);
    }
  }

  /**
   Left alone for four statements, a call ends with the rows, the clock readings, the
   announcements and the outcome of the serial service.
   */
  lemma SoloCallIsSerial(
    clock: Clock, s: AlertRace.State, c: AlertRace.CallId, db: AlertService.Db,
    chosen: seq<AlertService.Channel>, dir: AlertService.Directory)
    requires c in s.calls && s.calls[c].at.Selecting? && db.rows == s.rows && db.ticks == s.ticks
    ensures var (after, outcome) := AlertService.Raise(clock, db, s.calls[c].req, chosen, dir);
            EndsAs(s, AlertRace.Alone(clock, s, c, 4), c, db, after, outcome)
  {
    FourStatements(clock, s, c);
    var s1 := Next(clock, s, c);
    SelectMoves(clock, s, c);
    match Get(s.rows, s.calls[c].req.key)
    case MultipleObjects =>
      DoneStays(clock, s1, c);
    case DoesNotExist =>
      SoloInsert(clock, s1, c, db, chosen, dir);
    case Found(id) =>
      SoloRefresh(clock, s1, c, db, chosen, dir, id);
  }
}
