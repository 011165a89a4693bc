/** A background job's raises, one after the other, each for its own key. */
module Demands {
  import opened Alerts
  import opened AlertService
  import opened Evaluation

  /** One raise a job makes, with the channels of its rule. */
  datatype Demand = Demand(req: Request, channels: seq<Channel>)

  /** All raises in turn; the second result is false if one failed, which ends the job. */
  function RaiseAll(clock: Clock, db: Db, ds: seq<Demand>, dir: Directory): (Db, bool) {
    if ds == [] then (db, true)
    else
      var (before, fine) := RaiseAll(clock, db, ds[..|ds| - 1], dir);
      if !fine then (before, false)
      else
        var d := ds[|ds| - 1];
        var (after, outcome) := Raise(clock, before, d.req, d.channels, dir);
        (after, !outcome.Failed?)
  }

  ghost predicate DistinctKeys(ds: seq<Demand>) {
    forall i, j :: 0 <= i < j < |ds| ==> ds[i].req.key != ds[j].req.key
  }

  /** No row leaves OPEN, and soft deletion is not touched. */
  ghost predicate ClosesNothing(a: seq<Alert>, b: seq<Alert>) {
    |a| <= |b| && forall i :: 0 <= i < |a| ==>
      b[i].key == a[i].key && b[i].deleted == a[i].deleted && b[i].status == a[i].status
  }

  /** An insert for the key would be refused although nothing live is open: a soft-deleted row is. */
  ghost predicate Refused(rows: seq<Alert>, k: AlertKey) {
    !HasLive(rows, k) && Conflicts(rows, k)
  }

  lemma RefusedMeansDeleted(rows: seq<Alert>, k: AlertKey)
    requires Refused(rows, k)
    ensures Blocked(rows, k)
  {
    var i :| 0 <= i < |rows| && OpenFor(rows[i], k);
    assert !LiveOpen(rows[i], k);
  }

  /** One raise for any key, indexed or not, in any table: what it leaves of the table. */
  lemma RaiseOnlyOpens(clock: Clock, db: Db, req: Request, chosen: seq<Channel>, dir: Directory)
    ensures var after := Raise(clock, db, req, chosen, dir).0.rows;
            && Elsewhere(db.rows, after, req.key) && ClosesNothing(db.rows, after)
            && (HasLive(db.rows, req.key) || Refused(db.rows, req.key) ==> |after| == |db.rows|)
  {
    match Get(db.rows, req.key)
    case Found(_) => RaiseRefreshes(clock, db, req, chosen, dir);
    case DoesNotExist => RaiseInserts(clock, db, req, chosen, dir);
    case MultipleObjects =>
  }

  /** And what it leaves for its key. */
  lemma RaiseAnyKey(clock: Clock, db: Db, req: Request, chosen: seq<Channel>, dir: Directory)
    ensures var (after, outcome) := Raise(clock, db, req, chosen, dir);
            && (outcome.Failed? <==> Duplicated(db.rows, req.key))
            && (!outcome.Failed? ==>
                  && (HasLive(after.rows, req.key) <==> !Refused(db.rows, req.key))
                  && LiveHolds(after.rows, req.key, req.value))
  {
    var k, after := req.key, Raise(clock, db, req, chosen, dir).0;
    DuplicatedFails(db.rows, k);
    match Get(db.rows, k)
    case Found(id) =>
      assert LiveOpen(db.rows[id], k) && LiveOpen(after.rows[id], k);
    case DoesNotExist =>
      if !Conflicts(db.rows, k) {
        assert LiveOpen(after.rows[|db.rows|], k);
      }
    case MultipleObjects =>
  }

  lemma OtherConflictsStand(a: seq<Alert>, b: seq<Alert>, k: AlertKey, other: AlertKey)
    requires Elsewhere(a, b, k) && k != other
    ensures Conflicts(b, other) <==> Conflicts(a, other)
  {
    if Conflicts(a, other) {
      var i :| 0 <= i < |a| && OpenFor(a[i], other);
      assert OpenFor(b[i], other);
    }
  }

  lemma OtherDuplicatesStand(a: seq<Alert>, b: seq<Alert>, k: AlertKey, other: AlertKey)
    requires Elsewhere(a, b, k) && k != other
    ensures Duplicated(b, other) <==> Duplicated(a, other)
  {
    if Duplicated(a, other) {
      var i, j :| 0 <= i < j < |a| && LiveOpen(a[i], other) && LiveOpen(a[j], other);
      assert LiveOpen(b[i], other) && LiveOpen(b[j], other);
    }
    if Duplicated(b, other) {
      var i, j :| 0 <= i < j < |b| && LiveOpen(b[i], other) && LiveOpen(b[j], other);
      assert LiveOpen(a[i], other) && LiveOpen(a[j], other);
    }
  }

  /** What happens elsewhere changes nothing for the key. */
  lemma OtherKeyStands(a: seq<Alert>, b: seq<Alert>, k: AlertKey, other: AlertKey)
    requires Elsewhere(a, b, k) && k != other
    ensures HasLive(b, other) <==> HasLive(a, other)
    ensures Refused(b, other) <==> Refused(a, other)
    ensures forall v :: LiveHolds(b, other, v) <==> LiveHolds(a, other, v)
    ensures Duplicated(b, other) <==> Duplicated(a, other)
  {
    ElsewhereKeeps(a, b, k, other);
    OtherConflictsStand(a, b, k, other);
    OtherDuplicatesStand(a, b, k, other);
  }

  /** What the raises leave for one key that at most one of them is for. */
  ghost predicate Supplied(before: seq<Alert>, after: seq<Alert>, d: Demand) {
    && (HasLive(after, d.req.key) <==> !Refused(before, d.req.key))
    && LiveHolds(after, d.req.key, d.req.value)
  }

  lemma {:induction false} KeyNotDemanded(clock: Clock, db: Db, ds: seq<Demand>, dir: Directory, k: AlertKey)
    requires forall i :: 0 <= i < |ds| ==> ds[i].req.key != k
    ensures var after := RaiseAll(clock, db, ds, dir).0.rows;
            && (HasLive(after, k) <==> HasLive(db.rows, k)) && (Refused(after, k) <==> Refused(db.rows, k))
            && (Duplicated(after, k) <==> Duplicated(db.rows, k))
    decreases |ds|
  {
    if ds != [] {
      var front, d := ds[..|ds| - 1], ds[|ds| - 1];
      KeyNotDemanded(clock, db, front, dir, k);
      var (mid, fine) := RaiseAll(clock, db, front, dir);
      if fine {
        RaiseOnlyOpens(clock, mid, d.req, d.channels, dir);
        OtherKeyStands(mid.rows, Raise(clock, mid, d.req, d.channels, dir).0.rows, d.req.key, k);
      }
    }
  }

  ghost predicate NoneDuplicated(rows: seq<Alert>, ds: seq<Demand>) {
    forall i :: 0 <= i < |ds| ==> !Duplicated(rows, ds[i].req.key)
  }

  ghost predicate AllSupplied(before: seq<Alert>, after: seq<Alert>, ds: seq<Demand>) {
    forall i :: 0 <= i < |ds| ==> Supplied(before, after, ds[i])
  }

  /** One more raise, for a key of its own. */
  lemma SupplyOneMore(clock: Clock, start: seq<Alert>, mid: Db, front: seq<Demand>, d: Demand, dir: Directory)
    requires AllSupplied(start, mid.rows, front) && ClosesNothing(start, mid.rows)
    requires forall i :: 0 <= i < |front| ==> front[i].req.key != d.req.key
    requires Refused(mid.rows, d.req.key) <==> Refused(start, d.req.key)
    ensures var (after, outcome) := Raise(clock, mid, d.req, d.channels, dir);
            && ClosesNothing(start, after.rows)
            && (outcome.Failed? <==> Duplicated(mid.rows, d.req.key))
            && (!outcome.Failed? ==> AllSupplied(start, after.rows, front + [d]))
  {
    RaiseAnyKey(clock, mid, d.req, d.channels, dir);
    RaiseOnlyOpens(clock, mid, d.req, d.channels, dir);
    var after := Raise(clock, mid, d.req, d.channels, dir).0.rows;
    forall i | 0 <= i < |front| ensures Supplied(start, after, front[i]) {
      assert Supplied(start, mid.rows, front[i]);
      OtherKeyStands(mid.rows, after, d.req.key, front[i].req.key);
    }
  }

  /**
   A job with distinct keys fails exactly if some key has several live open rows to begin with; if
   not, each demand ends with a live open alert holding its value, unless a soft-deleted open row
   refused it.
   */
  lemma {:induction false} RaiseAllSupplies(clock: Clock, db: Db, ds: seq<Demand>, dir: Directory)
    requires DistinctKeys(ds)
    ensures var (after, fine) := RaiseAll(clock, db, ds, dir);
            && (fine <==> NoneDuplicated(db.rows, ds))
            && (fine ==> AllSupplied(db.rows, after.rows, ds))
            && ClosesNothing(db.rows, after.rows)
    decreases |ds|
  {
    if ds != [] {
      var front, d := ds[..|ds| - 1], ds[|ds| - 1];
      assert ds == front + [d];
      RaiseAllSupplies(clock, db, front, dir);
      KeyNotDemanded(clock, db, front, dir, d.req.key);
      var (mid, fine) := RaiseAll(clock, db, front, dir);
      if fine {
        SupplyOneMore(clock, db.rows, mid, front, d, dir);
      }
    }
  }

  /** Where every demand already has its alert, or is refused it, the job adds no row. */
  lemma {:induction false} SettledAddsNothing(clock: Clock, db: Db, ds: seq<Demand>, dir: Directory)
    requires forall i :: 0 <= i < |ds| ==> HasLive(db.rows, ds[i].req.key) || Refused(db.rows, ds[i].req.key)
    ensures var after := RaiseAll(clock, db, ds, dir).0.rows;
            |after| == |db.rows| && ClosesNothing(db.rows, after)
    decreases |ds|
  {
    if ds != [] {
      var front, d := ds[..|ds| - 1], ds[|ds| - 1];
      assert forall i :: 0 <= i < |front| ==> front[i] == ds[i];
      SettledAddsNothing(clock, db, front, dir);
      var (mid, fine) := RaiseAll(clock, db, front, dir);
      SameStanding(db.rows, mid.rows, d.req.key);
      RaiseOnlyOpens(clock, mid, d.req, d.channels, dir);
    }
  }

  lemma SameStanding(a: seq<Alert>, b: seq<Alert>, k: AlertKey)
    requires |a| == |b| && ClosesNothing(a, b)
    ensures HasLive(b, k) <==> HasLive(a, k)
    ensures Refused(b, k) <==> Refused(a, k)
  {
    assert forall i :: 0 <= i < |a| ==> OpenFor(a[i], k) == OpenFor(b[i], k) && LiveOpen(a[i], k) == LiveOpen(b[i], k);
    if HasLive(a, k) {
      var i :| 0 <= i < |a| && LiveOpen(a[i], k);
      assert LiveOpen(b[i], k);
    }
    if Conflicts(a, k) {
      var i :| 0 <= i < |a| && OpenFor(a[i], k);
      assert OpenFor(b[i], k);
    }
  }

  /** The row is one the demand asked for, column by column. */
  predicate Meets(a: Alert, d: Demand) {
    && a.key == d.req.key && a.org == d.req.org && a.sensor == d.req.sensor && a.severity == d.req.severity
    && a.title == d.req.title && a.message == d.req.message && a.value == d.req.value
  }

  ghost predicate Demanded(a: Alert, ds: seq<Demand>) {
    exists j :: 0 <= j < |ds| && Meets(a, ds[j])
  }

  /** From a to b only demanded rows were added, and the rows there were keep what they are about. */
  ghost predicate AddsDemanded(a: seq<Alert>, b: seq<Alert>, ds: seq<Demand>) {
    && KeepsColumns(a, b)
    && forall i :: |a| <= i < |b| ==> Demanded(b[i], ds)
  }

  lemma DemandedStill(a: Alert, front: seq<Demand>, d: Demand)
    requires Demanded(a, front)
    ensures Demanded(a, front + [d]) && exists j :: 0 <= j < |front| && front[j].req.key == a.key
  {
    var j :| 0 <= j < |front| && Meets(a, front[j]);
    assert Meets(a, (front + [d])[j]);
  }

  lemma AddOneMore(clock: Clock, start: seq<Alert>, mid: Db, front: seq<Demand>, d: Demand, dir: Directory)
    requires AddsDemanded(start, mid.rows, front)
    requires forall i :: 0 <= i < |front| ==> front[i].req.key != d.req.key
    ensures AddsDemanded(start, Raise(clock, mid, d.req, d.channels, dir).0.rows, front + [d])
  {
    var after := Raise(clock, mid, d.req, d.channels, dir).0.rows;
    RaiseOnlyOpens(clock, mid, d.req, d.channels, dir);
    RaiseKeepsColumns(clock, mid, d, dir);
    forall i | |start| <= i < |after| ensures Demanded(after[i], front + [d]) {
      if i < |mid.rows| {
        DemandedStill(mid.rows[i], front, d);
        assert after[i] == mid.rows[i];
      } else {
        assert Meets(after[i], (front + [d])[|front|]);
      }
    }
  }

  lemma RaiseKeepsColumns(clock: Clock, db: Db, d: Demand, dir: Directory)
    ensures var after := Raise(clock, db, d.req, d.channels, dir).0.rows;
            KeepsColumns(db.rows, after) && forall i :: |db.rows| <= i < |after| ==> Meets(after[i], d)
  {
    match Get(db.rows, d.req.key)
    case Found(_) => RaiseRefreshes(clock, db, d.req, d.channels, dir);
    case DoesNotExist => RaiseInserts(clock, db, d.req, d.channels, dir);
    case MultipleObjects =>
  }

  /** Every row a job with distinct keys adds is one that was demanded. */
  lemma {:induction false} RaiseAllAdds(clock: Clock, db: Db, ds: seq<Demand>, dir: Directory)
    requires DistinctKeys(ds)
    ensures AddsDemanded(db.rows, RaiseAll(clock, db, ds, dir).0.rows, ds)
    decreases |ds|
  {
    if ds != [] {
      var front, d := ds[..|ds| - 1], ds[|ds| - 1];
      assert ds == front + [d];
      RaiseAllAdds(clock, db, front, dir);
      var (mid, fine) := RaiseAll(clock, db, front, dir);
      AddOneMore(clock, db.rows, mid, front, d, dir);
      forall i | |db.rows| <= i < |mid.rows| ensures Demanded(mid.rows[i], ds) {
        DemandedStill(mid.rows[i], front, d);
      }
    }
  }

  /** The raises as operations of the service. */
  function RaiseOps(ds: seq<Demand>, dir: Directory): (ops: seq<Op>)
    ensures |ops| == |ds|
    ensures forall i :: 0 <= i < |ds| ==> ops[i] == DoRaise(ds[i].req, ds[i].channels, dir)
  {
    if ds == [] then []
    else
      var d := ds[|ds| - 1];
      RaiseOps(ds[..|ds| - 1], dir) + [DoRaise(d.req, d.channels, dir)]
  }

  lemma RunOneMore(clock: Clock, db: Db, ops: seq<Op>, op: Op)
    ensures Run(clock, db, ops + [op]) == Step(clock, Run(clock, db, ops), op)
  {
    assert (ops + [op])[..|ops|] == ops;
  }

  /** A job none of whose raises failed is a serial run of the service. */
  lemma {:induction false} JobIsRun(clock: Clock, db: Db, ds: seq<Demand>, dir: Directory)
    requires RaiseAll(clock, db, ds, dir).1
    ensures RaiseAll(clock, db, ds, dir).0 == Run(clock, db, RaiseOps(ds, dir))
    decreases |ds|
  {
    if ds != [] {
      var front, d := ds[..|ds| - 1], ds[|ds| - 1];
      JobIsRun(clock, db, front, dir);
      RunOneMore(clock, db, RaiseOps(front, dir), DoRaise(d.req, d.channels, dir));
    }
  }

  /** A second run of the same job straight after the first creates no alert. */
  lemma SecondRunCreatesNothing(clock: Clock, db: Db, ds: seq<Demand>, dir: Directory)
    requires DistinctKeys(ds) && RaiseAll(clock, db, ds, dir).1
    ensures var after := RaiseAll(clock, db, ds, dir).0;
            |RaiseAll(clock, after, ds, dir).0.rows| == |after.rows|
  {
    var after := RaiseAll(clock, db, ds, dir).0;
    RaiseAllSupplies(clock, db, ds, dir);
    forall i | 0 <= i < |ds| ensures HasLive(after.rows, ds[i].req.key) || Refused(after.rows, ds[i].req.key) {
      assert Supplied(db.rows, after.rows, ds[i]);
      if Refused(db.rows, ds[i].req.key) {
        var j :| 0 <= j < |db.rows| && OpenFor(db.rows[j], ds[i].req.key);
        assert OpenFor(after.rows[j], ds[i].req.key);
      }
    }
    SettledAddsNothing(clock, after, ds, dir);
  }
}
