/** Which status an alert has: that of the last operation that wrote it, serially and in races. */
module AlertLifecycle {
  import opened Options
  import opened Alerts
  import AlertRace
  import AlertService

  /** What last wrote a row's status, and when; `Nobody` since the row was inserted. */
  datatype Writer = Nobody | Acknowledger(user: UserId, at: Time) | Resolver(at: Time)

  /** The row's status is the writer's, with its stamps; without one it is as it was at first. */
  ghost predicate Bears(row: Alert, w: Writer, first: AlertStatus) {
    match w
    case Nobody => row.status == first
    case Acknowledger(user, at) =>
      row.status == Acknowledged && row.acknowledgedBy == Some(user) && row.acknowledgedAt == Some(at)
    case Resolver(at) => row.status == Resolved && row.resolvedAt == Some(at)
  }

  function FirstStatus(rows: seq<Alert>, id: nat): AlertStatus {
    if id < |rows| then rows[id].status else Open
  }

  // ---- Serial runs ------------------------------------------------------------------------

  /** The API acknowledges and resolves visible rows; auto-resolving closes the live open ones of its key. */
  function WriterBy(clock: Clock, db: AlertService.Db, op: AlertService.Op, id: nat): Writer {
    if id >= |db.rows| || db.rows[id].deleted then Nobody
    else
      match op
      case DoAcknowledge(i, user) => if i == id then Acknowledger(user, clock(db.ticks)) else Nobody
      case DoResolve(i) => if i == id then Resolver(clock(db.ticks)) else Nobody
      case DoAutoResolve(k) =>
        if db.rows[id].key == k && db.rows[id].status == Open then Resolver(clock(db.ticks)) else Nobody
      case DoRaise(_, _, _) => Nobody
  }

  function LastWriter(clock: Clock, db: AlertService.Db, ops: seq<AlertService.Op>, id: nat): Writer {
    if ops == [] then Nobody
    else
      var front := ops[..|ops| - 1];
      var w := WriterBy(clock, AlertService.Run(clock, db, front), ops[|ops| - 1], id);
      if w != Nobody then w else LastWriter(clock, db, front, id)
  }

  lemma RaiseWritesNoStatus(clock: Clock, db: AlertService.Db, op: AlertService.Op, id: nat)
    requires op.DoRaise? && id < |AlertService.Step(clock, db, op).rows|
    ensures var was, row := db.rows, AlertService.Step(clock, db, op).rows[id];
            |was| <= |AlertService.Step(clock, db, op).rows|
            && if id < |was|
               then row == was[id].(value := row.value, message := row.message, notifiedAt := row.notifiedAt)
               else row.status == Open
  {
    match Get(db.rows, op.req.key)
    case Found(_) => AlertService.RaiseRefreshes(clock, db, op.req, op.chosen, op.dir);
    case DoesNotExist =>
      AlertService.RaiseInserts(clock, db, op.req, op.chosen, op.dir);
      var after := AlertService.Step(clock, db, op).rows;
      assert id < |db.rows| ==> after[id] == after[..|db.rows|][id];
    case MultipleObjects =>
  }

  /** One operation: the row bears the writer it bore, or the new one. */
  lemma StepBears(clock: Clock, db: AlertService.Db, op: AlertService.Op, id: nat, w: Writer, first: AlertStatus)
    requires id < |AlertService.Step(clock, db, op).rows|
    requires if id < |db.rows| then Bears(db.rows[id], w, first) else w == Nobody && first == Open
    ensures var wrote := WriterBy(clock, db, op, id);
            Bears(AlertService.Step(clock, db, op).rows[id], if wrote != Nobody then wrote else w, first)
  {
    if op.DoRaise? {
      RaiseWritesNoStatus(clock, db, op, id);
    }
  }

  /**
   In a serial run a row is ACKNOWLEDGED, by whom and when its columns say, exactly if the last
   operation that wrote its status was an acknowledgement; RESOLVED exactly if that was a resolve
   or an auto-resolve; and OPEN while nothing has written it.
   */
  lemma {:induction false} StatusIsLastWriters(
    clock: Clock, db: AlertService.Db, ops: seq<AlertService.Op>, id: nat)
    requires id < |AlertService.Run(clock, db, ops).rows|
    ensures Bears(AlertService.Run(clock, db, ops).rows[id], LastWriter(clock, db, ops, id), FirstStatus(db.rows, id))
    decreases |ops|
  {
    if ops != [] {
      var front, op := ops[..|ops| - 1], ops[|ops| - 1];
      var before := AlertService.Run(clock, db, front);
      if id < |before.rows| {
        StatusIsLastWriters(clock, db, front, id);
      } else {
        NobodyBefore(clock, db, front, id);
      }
      StepBears(clock, before, op, id, LastWriter(clock, db, front, id), FirstStatus(db.rows, id));
    }
  }

  /** Nothing writes the status of a row that is not there yet. */
  lemma {:induction false} NobodyBefore(clock: Clock, db: AlertService.Db, ops: seq<AlertService.Op>, id: nat)
    requires id >= |AlertService.Run(clock, db, ops).rows|
    ensures LastWriter(clock, db, ops, id) == Nobody && id >= |db.rows|
    decreases |ops|
  {
    if ops != [] {
      var before, op := AlertService.Run(clock, db, ops[..|ops| - 1]), ops[|ops| - 1];
      RowsStay(clock, before, op);
      NobodyBefore(clock, db, ops[..|ops| - 1], id);
    }
  }

  lemma RowsStay(clock: Clock, db: AlertService.Db, op: AlertService.Op)
    ensures |db.rows| <= |AlertService.Step(clock, db, op).rows|
  {
    if op.DoRaise? && Get(db.rows, op.req.key).Found? {
      AlertService.RaiseRefreshes(clock, db, op.req, op.chosen, op.dir);
    }
  }

  /** So for an alert opened in the run. */
  lemma SerialStatusIff(clock: Clock, db: AlertService.Db, ops: seq<AlertService.Op>, id: nat)
    requires |db.rows| <= id < |AlertService.Run(clock, db, ops).rows|
    ensures var row, w := AlertService.Run(clock, db, ops).rows[id], LastWriter(clock, db, ops, id);
            && (row.status == Open <==> w == Nobody)
            && (row.status == Acknowledged <==> w.Acknowledger?)
            && (row.status == Resolved <==> w.Resolver?)
  {
    StatusIsLastWriters(clock, db, ops, id);
  }

  // ---- Races ------------------------------------------------------------------------------

  /** In a race an acknowledgement or a resolve holds a row it fetched before. */
  function RaceWriterBy(clock: Clock, s: AlertRace.State, e: AlertRace.Event, id: nat): Writer {
    if id >= |s.rows| then Nobody
    else
      match e
      case Acknowledge(i, user) => if i == id then Acknowledger(user, clock(s.ticks)) else Nobody
      case Resolve(i) => if i == id then Resolver(clock(s.ticks)) else Nobody
      case AutoResolve(k) =>
        if s.rows[id].key == k && s.rows[id].status == Open && !s.rows[id].deleted
        then Resolver(clock(s.ticks))
        else Nobody
      case _ => Nobody
  }

  function LastRaceWriter(clock: Clock, rows: seq<Alert>, es: seq<AlertRace.Event>, id: nat): Writer {
    if es == [] then Nobody
    else
      var front := es[..|es| - 1];
      var w := RaceWriterBy(clock, AlertRace.Run(clock, rows, front), es[|es| - 1], id);
      if w != Nobody then w else LastRaceWriter(clock, rows, front, id)
  }

  /** No statement of a raising call writes a status, a stamp of one, or an acknowledger. */
  lemma StatementWritesNoStatus(clock: Clock, s: AlertRace.State, c: AlertRace.CallId, id: nat)
    requires c in s.calls && id < |AlertRace.Statement(clock, s, c).rows|
    ensures var row := AlertRace.Statement(clock, s, c).rows[id];
            |s.rows| <= |AlertRace.Statement(clock, s, c).rows|
            && if id < |s.rows|
               then row == s.rows[id].(value := row.value, message := row.message, notifiedAt := row.notifiedAt)
               else row.status == Open
  {
    match s.calls[c].at
    case Inserting =>
    case Refreshing(_, _) =>
    case Emitting(_, _) =>
    case _ =>
  }

  lemma {:induction false} RaceNobodyBefore(clock: Clock, rows: seq<Alert>, es: seq<AlertRace.Event>, id: nat)
    requires id >= |AlertRace.Run(clock, rows, es).rows|
    ensures LastRaceWriter(clock, rows, es, id) == Nobody && id >= |rows|
    decreases |es|
  {
    if es != [] {
      AlertRace.StepNeverReopens(clock, AlertRace.Run(clock, rows, es[..|es| - 1]), es[|es| - 1]);
      RaceNobodyBefore(clock, rows, es[..|es| - 1], id);
    }
  }

  lemma RaceStepBears(
    clock: Clock, s: AlertRace.State, e: AlertRace.Event, id: nat, w: Writer, first: AlertStatus)
    requires id < |AlertRace.Step(clock, s, e).rows|
    requires if id < |s.rows| then Bears(s.rows[id], w, first) else w == Nobody && first == Open
    ensures var wrote := RaceWriterBy(clock, s, e, id);
            Bears(AlertRace.Step(clock, s, e).rows[id], if wrote != Nobody then wrote else w, first)
  {
    if e.Advance? && e.c in s.calls {
      StatementWritesNoStatus(clock, s, e.c, id);
    }
  }

  /** The same in every interleaving of raising calls with acknowledgements, resolves and deletions. */
  lemma {:induction false} RaceStatusIsLastWriters(clock: Clock, rows: seq<Alert>, es: seq<AlertRace.Event>, id: nat)
    requires id < |AlertRace.Run(clock, rows, es).rows|
    ensures Bears(AlertRace.Run(clock, rows, es).rows[id], LastRaceWriter(clock, rows, es, id), FirstStatus(rows, id))
    decreases |es|
  {
    if es != [] {
      var front := es[..|es| - 1];
      var s := AlertRace.Run(clock, rows, front);
      if id < |s.rows| {
        RaceStatusIsLastWriters(clock, rows, front, id);
      } else {
        RaceNobodyBefore(clock, rows, front, id);
      }
      RaceStepBears(clock, s, es[|es| - 1], id, LastRaceWriter(clock, rows, front, id), FirstStatus(rows, id));
    }
  }

  lemma RaceStatusIff(clock: Clock, rows: seq<Alert>, es: seq<AlertRace.Event>, id: nat)
    requires |rows| <= id < |AlertRace.Run(clock, rows, es).rows|
    ensures var row, w := AlertRace.Run(clock, rows, es).rows[id], LastRaceWriter(clock, rows, es, id);
            && (row.status == Open <==> w == Nobody)
            && (row.status == Acknowledged <==> w.Acknowledger?)
            && (row.status == Resolved <==> w.Resolver?)
  {
    RaceStatusIsLastWriters(clock, rows, es, id);
  }
}
