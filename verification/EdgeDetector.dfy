/** Over a serial run, the alerts of one key are the rising edges of a one-bit machine. */
module EdgeDetector {
  import opened Options
  import opened Alerts
  import opened AlertService
  import History

  /** What one operation means to the key. */
  datatype Signal = Match(value: Option<real>) | NoMatch | TakenUp | Unrelated

  /** The bit, how often it rose, and the latest matching value. */
  datatype Detector = Detector(on: bool, edges: nat, latest: Option<real>)

  function Sense(d: Detector, s: Signal): Detector {
    match s
    case Match(v) => Detector(true, if d.on then d.edges else d.edges + 1, v)
    case NoMatch => d.(on := false)
    case TakenUp => d.(on := false)
    case Unrelated => d
  }

  /** Acknowledging or resolving matters when it is the key's open row that is taken up. */
  function SignalOf(rows: seq<Alert>, op: Op, k: AlertKey): Signal {
    match op
    case DoRaise(req, _, _) => if req.key == k then Match(req.value) else Unrelated
    case DoAutoResolve(closing) => if closing == k then NoMatch else Unrelated
    case DoAcknowledge(id, _) => if id < |rows| && LiveOpen(rows[id], k) then TakenUp else Unrelated
    case DoResolve(id) => if id < |rows| && LiveOpen(rows[id], k) then TakenUp else Unrelated
  }

  function Watch(clock: Clock, db: Db, ops: seq<Op>, k: AlertKey, start: Detector): Detector {
    if ops == [] then start
    else
      var front, op := ops[..|ops| - 1], ops[|ops| - 1];
      Sense(Watch(clock, db, front, k, start), SignalOf(Run(clock, db, front).rows, op, k))
  }

  function CountClosed(h: seq<Alert>): nat {
    if h == [] then 0 else CountClosed(h[..|h| - 1]) + if h[|h| - 1].status.Open? then 0 else 1
  }

  /**
   The story agrees with the detector: one row per edge, and only the newest can be open, which
   then is not soft-deleted. The story without rows agrees with a detector that was never set.
   */
  ghost predicate Agrees(h: seq<Alert>, d: Detector) {
    && |h| == d.edges
    && (forall i :: 0 <= i < |h| ==> (h[i].status.Open? <==> d.on && i == |h| - 1))
    && (forall i :: 0 <= i < |h| && h[i].status.Open? ==> !h[i].deleted)
    && (d.on ==> h != [] && h[|h| - 1].value == d.latest)
  }

  lemma RaisedAgrees(h: seq<Alert>, d: Detector, req: Request)
    requires Agrees(h, d) && forall i :: 0 <= i < |h| ==> h[i].key == req.key
    ensures Agrees(History.Raised(h, req), Sense(d, Match(req.value)))
  {
    if d.on {
      assert LiveOpen(h[|h| - 1], req.key);
    }
  }

  /** Rewriting one row of the story to a row that is not open. */
  lemma RewriteAgrees(h: seq<Alert>, d: Detector, p: nat, a: Alert)
    requires Agrees(h, d) && p < |h| && !a.deleted && !a.status.Open?
    ensures Agrees(h[p := a], if h[p].status.Open? then d.(on := false) else d)
  {
  }

  /** Acknowledging or resolving row `id` rewrites it, time stamps apart, to a row that is not open. */
  lemma TakeUpInStory(rows: seq<Alert>, id: nat, after: Alert, k: AlertKey, d: Detector)
    requires Visible(rows, id)
    requires after.key == rows[id].key && !after.deleted && !after.status.Open?
    requires Agrees(History.Story(rows, k), d)
    ensures Agrees(History.Story(rows[id := after], k), if LiveOpen(rows[id], k) then d.(on := false) else d)
  {
    var t, a := History.AllTimeless(rows), History.Timeless(after);
    assert History.AllTimeless(rows[id := after]) == t[id := a];
    History.Rewrite(t, id, a, k);
    if a.key == k {
      History.Placed(t, id);
      assert History.Of(t, k)[History.Place(t, id)].status == rows[id].status;
      RewriteAgrees(History.Of(t, k), d, History.Place(t, id), a);
    }
  }

  lemma ClosedAgrees(h: seq<Alert>, d: Detector, k: AlertKey)
    requires Agrees(h, d) && forall i :: 0 <= i < |h| ==> h[i].key == k
    ensures Agrees(History.Closed(h, k), Sense(d, NoMatch))
  {
  }

  lemma EngineStepAgrees(clock: Clock, db: Db, op: Op, k: AlertKey, d: Detector)
    requires Agrees(History.Story(db.rows, k), d) && (op.DoRaise? || op.DoAutoResolve?)
    ensures Agrees(History.Story(Step(clock, db, op).rows, k), Sense(d, SignalOf(db.rows, op, k)))
  {
    var h := History.Story(db.rows, k);
    match op
    case DoRaise(req, chosen, dir) =>
      History.RaiseInStory(clock, db, req, chosen, dir, k);
      if req.key == k { RaisedAgrees(h, d, req); }
    case DoAutoResolve(closing) =>
      History.AutoResolveInStory(clock, db, closing, k);
      if closing == k { ClosedAgrees(h, d, k); }
  }

  lemma UserStepAgrees(clock: Clock, db: Db, op: Op, k: AlertKey, d: Detector)
    requires Agrees(History.Story(db.rows, k), d) && (op.DoAcknowledge? || op.DoResolve?)
    ensures Agrees(History.Story(Step(clock, db, op).rows, k), Sense(d, SignalOf(db.rows, op, k)))
  {
    match op
    case DoAcknowledge(id, user) =>
      if Visible(db.rows, id) { TakeUpInStory(db.rows, id, Step(clock, db, op).rows[id], k, d); }
    case DoResolve(id) =>
      if Visible(db.rows, id) { TakeUpInStory(db.rows, id, Step(clock, db, op).rows[id], k, d); }
  }

  /**
   Main result: in every serial run over any keys, from a table that agrees with the detector for
   this key, the rows created for the key are the rising edges, only the newest can be open, it is
   open exactly while the bit is set, and it then holds the latest matching value.
   */
  lemma {:induction false} AlertsAreEdges(clock: Clock, db: Db, ops: seq<Op>, k: AlertKey, start: Detector)
    requires Agrees(History.Story(db.rows, k), start)
    ensures Agrees(History.Story(Run(clock, db, ops).rows, k), Watch(clock, db, ops, k, start))
    decreases |ops|
  {
    if ops != [] {
      var front := ops[..|ops| - 1];
      AlertsAreEdges(clock, db, front, k, start);
      var op, d := ops[|ops| - 1], Watch(clock, db, front, k, start);
      if op.DoRaise? || op.DoAutoResolve? {
        EngineStepAgrees(clock, Run(clock, db, front), op, k, d);
      } else {
        UserStepAgrees(clock, Run(clock, db, front), op, k, d);
      }
    }
  }

  lemma {:induction false} AllClosed(h: seq<Alert>)
    requires forall i :: 0 <= i < |h| ==> !h[i].status.Open?
    ensures CountClosed(h) == |h|
  {
    if h != [] {
      AllClosed(h[..|h| - 1]);
    }
  }

  lemma ClosedCount(h: seq<Alert>, d: Detector)
    requires Agrees(h, d)
    ensures d.edges == CountClosed(h) + if d.on then 1 else 0
  {
    if d.on {
      AllClosed(h[..|h| - 1]);
    } else {
      AllClosed(h);
    }
  }

  /** Conservation: alerts created less alerts that have left OPEN is the bit. */
  lemma CreatedLessClosedIsBit(clock: Clock, db: Db, ops: seq<Op>, k: AlertKey, start: Detector)
    requires Agrees(History.Story(db.rows, k), start)
    ensures var d := Watch(clock, db, ops, k, start);
            d.edges == CountClosed(History.Story(Run(clock, db, ops).rows, k)) + if d.on then 1 else 0
  {
    AlertsAreEdges(clock, db, ops, k, start);
    ClosedCount(History.Story(Run(clock, db, ops).rows, k), Watch(clock, db, ops, k, start));
  }
}
