/**
 The cooldown of a rule on a device, over the rows it opens one after the other. The comparison is
 with the notification time of the open row, so it binds the announcements of one row: a rising
 edge opens a new row, and announces it at once.
 */
module KeyCooldown {
  import opened Options
  import opened Alerts
  import opened AlertService
  import opened Cooldown

  /** When an alert of the key was announced, oldest first. */
  function KeyTimes(rows: seq<Alert>, raised: seq<Emission>, k: AlertKey): seq<Time> {
    if raised == [] then []
    else
      var e := raised[|raised| - 1];
      KeyTimes(rows, raised[..|raised| - 1], k)
      + if e.alert < |rows| && rows[e.alert].key == k then [e.time] else []
  }

  lemma KeyTimesAppend(rows: seq<Alert>, raised: seq<Emission>, e: Emission, k: AlertKey)
    ensures KeyTimes(rows, raised + [e], k)
            == KeyTimes(rows, raised, k) + if e.alert < |rows| && rows[e.alert].key == k then [e.time] else []
  {
    assert (raised + [e])[..|raised|] == raised;
  }

  /** Rows keep their keys, so what was announced stays announced. */
  lemma {:induction false} KeyTimesStay(a: seq<Alert>, b: seq<Alert>, raised: seq<Emission>, k: AlertKey)
    requires |a| <= |b| && forall i :: 0 <= i < |a| ==> b[i].key == a[i].key
    requires forall i :: 0 <= i < |raised| ==> raised[i].alert < |a|
    ensures KeyTimes(b, raised, k) == KeyTimes(a, raised, k)
  {
    if raised != [] {
      KeyTimesStay(a, b, raised[..|raised| - 1], k);
    }
  }

  /** The newest row of the key. */
  function Newest(rows: seq<Alert>, k: AlertKey): (id: Option<nat>)
    ensures id.Some? ==> id.value < |rows| && rows[id.value].key == k
    ensures id.Some? ==> forall i :: id.value < i < |rows| ==> rows[i].key != k
    ensures id.None? ==> forall i :: 0 <= i < |rows| ==> rows[i].key != k
  {
    if rows == [] then None
    else if rows[|rows| - 1].key == k then Some(|rows| - 1)
    else Newest(rows[..|rows| - 1], k)
  }

  /** Only the newest row of the key can be open, and its last announcement is the key's. */
  ghost predicate NewestLeads(rows: seq<Alert>, times: seq<Time>, k: AlertKey) {
    && (forall i :: 0 <= i < |rows| ==> !rows[i].deleted)
    && (forall i :: 0 <= i < |rows| && OpenFor(rows[i], k) ==> Newest(rows, k) == Some(i))
    && match Newest(rows, k)
       case None => times == []
       case Some(id) => times != [] && rows[id].notifiedAt == Some(times[|times| - 1])
  }

  ghost predicate Leads(db: Db, k: AlertKey) {
    && NewestLeads(db.rows, KeyTimes(db.rows, db.raised, k), k)
    && forall i :: 0 <= i < |db.raised| ==> db.raised[i].alert < |db.rows|
  }

  /** The key has not been announced within the gap. */
  predicate QuietFor(db: Db, k: AlertKey, gap: Time, now: Time) {
    var ts := KeyTimes(db.rows, db.raised, k);
    ts == [] || now - ts[|ts| - 1] >= gap
  }

  /** The operation opens a new row for the key. */
  predicate Opens(db: Db, op: Op, k: AlertKey) {
    op.DoRaise? && op.req.key == k && Get(db.rows, k).DoesNotExist? && !Conflicts(db.rows, k)
  }

  // ---- One operation ----------------------------------------------------------------------

  /** From a to b the rows of the key are at most closed, and new rows are for other keys. */
  ghost predicate Closes(a: seq<Alert>, b: seq<Alert>, k: AlertKey) {
    && |a| <= |b|
    && (forall i :: 0 <= i < |b| ==> !b[i].deleted)
    && (forall i :: 0 <= i < |a| ==> b[i].key == a[i].key)
    && (forall i :: |a| <= i < |b| ==> b[i].key != k)
    && (forall i :: 0 <= i < |a| && a[i].key == k ==>
          b[i].notifiedAt == a[i].notifiedAt && (b[i].status.Open? ==> a[i].status.Open?))
  }

  lemma ClosingLeads(a: seq<Alert>, b: seq<Alert>, times: seq<Time>, k: AlertKey)
    requires NewestLeads(a, times, k) && Closes(a, b, k)
    ensures NewestLeads(b, times, k)
  {
    var x, y := Newest(a, k), Newest(b, k);
    if x.Some? {
      assert b[x.value].key == k;
    }
    if y.Some? {
      assert a[y.value].key == k;
    }
    assert x == y;
    forall i | 0 <= i < |b| && OpenFor(b[i], k) ensures y == Some(i) {
      assert OpenFor(a[i], k);
    }
  }

  /** An operation that raises nothing closes at most, and announces nothing. */
  lemma ClosingCloses(clock: Clock, db: Db, op: Op, k: AlertKey)
    requires !op.DoRaise? && forall i :: 0 <= i < |db.rows| ==> !db.rows[i].deleted
    ensures Closes(db.rows, Step(clock, db, op).rows, k) && Step(clock, db, op).raised == db.raised
  {
  }

  /** What a raise does to the rows and announcements of all other keys. */
  lemma OtherRaiseCloses(clock: Clock, db: Db, req: Request, chosen: seq<Channel>, dir: Directory, k: AlertKey)
    requires req.key != k && forall i :: 0 <= i < |db.rows| ==> !db.rows[i].deleted
    ensures var after := Raise(clock, db, req, chosen, dir).0;
            && Closes(db.rows, after.rows, k)
            && (|after.raised| == |db.raised| ==> after.raised == db.raised)
            && (|after.raised| > |db.raised| ==>
                  && after.raised == db.raised + [after.raised[|db.raised|]]
                  && after.raised[|db.raised|].alert < |after.rows|
                  && after.rows[after.raised[|db.raised|].alert].key != k)
            && |db.raised| <= |after.raised|
  {
    match Get(db.rows, req.key)
    case MultipleObjects =>
    case DoesNotExist => RaiseInserts(clock, db, req, chosen, dir);
    case Found(id) => RaiseRefreshes(clock, db, req, chosen, dir);
  }

  /** A refresh that announces does so a cooldown after the row's last announcement. */
  lemma RefreshWaits(clock: Clock, db: Db, req: Request, chosen: seq<Channel>, dir: Directory, seconds: nat)
    requires Forward(clock) && Get(db.rows, req.key).Found? && req.cooldown == Some(seconds)
    requires db.rows[Get(db.rows, req.key).id].notifiedAt.Some?
    requires |Raise(clock, db, req, chosen, dir).0.raised| > |db.raised|
    ensures var after, last := Raise(clock, db, req, chosen, dir).0, db.rows[Get(db.rows, req.key).id].notifiedAt.value;
            after.ticks > 0 && clock(after.ticks - 1) - last >= seconds * SECOND
  {
    RaiseRefreshes(clock, db, req, chosen, dir);
    RaiseWaits(clock, db, req, chosen, dir);
  }

  lemma InsertLeads(clock: Clock, db: Db, req: Request, chosen: seq<Channel>, dir: Directory)
    requires Leads(db, req.key) && Get(db.rows, req.key).DoesNotExist? && !Conflicts(db.rows, req.key)
    ensures var after := Raise(clock, db, req, chosen, dir).0;
            && Leads(after, req.key)
            && KeyTimes(after.rows, after.raised, req.key)
               == KeyTimes(db.rows, db.raised, req.key) + [clock(db.ticks)]
  {
    var k, after := req.key, Raise(clock, db, req, chosen, dir).0;
    RaiseInserts(clock, db, req, chosen, dir);
    KeyTimesStay(db.rows, after.rows, db.raised, k);
    KeyTimesAppend(after.rows, db.raised, Emission(|db.rows|, clock(db.ticks)), k);
    OpenedLeads(db.rows, after.rows[|db.rows|], KeyTimes(db.rows, db.raised, k), k);
  }

  lemma RefreshLeads(clock: Clock, db: Db, req: Request, chosen: seq<Channel>, dir: Directory)
    requires Leads(db, req.key) && Get(db.rows, req.key).Found?
    ensures var after, times := Raise(clock, db, req, chosen, dir).0, KeyTimes(db.rows, db.raised, req.key);
            && Leads(after, req.key)
            && KeyTimes(after.rows, after.raised, req.key)
               == if |after.raised| == |db.raised| then times
                  else if after.ticks > 0 then times + [clock(after.ticks - 1)] else []
  {
    var k, after, times := req.key, Raise(clock, db, req, chosen, dir).0, KeyTimes(db.rows, db.raised, req.key);
    var id := Get(db.rows, k).id;
    RaiseRefreshes(clock, db, req, chosen, dir);
    KeyTimesStay(db.rows, after.rows, db.raised, k);
    if |after.raised| > |db.raised| {
      KeyTimesAppend(after.rows, db.raised, Emission(id, clock(after.ticks - 1)), k);
    }
    RefreshedLeads(db.rows, after.rows, id, times, KeyTimes(after.rows, after.raised, k), k);
  }

  lemma OwnRaiseLeads(clock: Clock, db: Db, req: Request, chosen: seq<Channel>, dir: Directory)
    requires Leads(db, req.key)
    ensures Leads(Raise(clock, db, req, chosen, dir).0, req.key)
  {
    match Get(db.rows, req.key)
    case MultipleObjects =>
    case DoesNotExist =>
      RaiseInserts(clock, db, req, chosen, dir);
      if !Conflicts(db.rows, req.key) { InsertLeads(clock, db, req, chosen, dir); }
    case Found(id) => RefreshLeads(clock, db, req, chosen, dir);
  }

  lemma OpenedLeads(rows: seq<Alert>, a: Alert, times: seq<Time>, k: AlertKey)
    requires NewestLeads(rows, times, k) && a.key == k && !a.deleted && a.notifiedAt.Some?
    requires forall i :: 0 <= i < |rows| ==> !LiveOpen(rows[i], k)
    ensures NewestLeads(rows + [a], times + [a.notifiedAt.value], k)
  {
    assert Newest(rows + [a], k) == Some(|rows|);
    assert forall i :: 0 <= i < |rows| ==> !OpenFor(rows[i], k);
  }

  lemma RefreshedLeads(
    a: seq<Alert>, b: seq<Alert>, id: nat, times: seq<Time>, later: seq<Time>, k: AlertKey)
    requires NewestLeads(a, times, k) && id < |a| == |b| && LiveOpen(a[id], k)
    requires forall i :: 0 <= i < |a| && i != id ==> b[i] == a[i]
    requires b[id].key == k && !b[id].deleted
    requires if later == times then b[id].notifiedAt == a[id].notifiedAt
             else later != [] && b[id].notifiedAt == Some(later[|later| - 1])
    ensures NewestLeads(b, later, k)
  {
    assert Newest(a, k) == Some(id);
    assert Newest(b, k) == Some(id);
  }

  lemma StepLeads(clock: Clock, db: Db, op: Op, k: AlertKey)
    requires Leads(db, k)
    ensures Leads(Step(clock, db, op), k)
  {
    var after, times := Step(clock, db, op), KeyTimes(db.rows, db.raised, k);
    if op.DoRaise? && op.req.key == k {
      OwnRaiseLeads(clock, db, op.req, op.chosen, op.dir);
    } else {
      QuietStep(clock, db, op, k);
      ClosingLeads(db.rows, after.rows, times, k);
    }
  }

  /** Any other operation adds no announcement of the key. */
  lemma QuietStep(clock: Clock, db: Db, op: Op, k: AlertKey)
    requires Leads(db, k) && !(op.DoRaise? && op.req.key == k)
    ensures var after := Step(clock, db, op);
            && Closes(db.rows, after.rows, k)
            && (forall i :: 0 <= i < |after.raised| ==> after.raised[i].alert < |after.rows|)
            && KeyTimes(after.rows, after.raised, k) == KeyTimes(db.rows, db.raised, k)
  {
    var after := Step(clock, db, op);
    if op.DoRaise? {
      OtherRaiseCloses(clock, db, op.req, op.chosen, op.dir, k);
    } else {
      ClosingCloses(clock, db, op, k);
    }
    KeyTimesStay(db.rows, after.rows, db.raised, k);
    if |after.raised| > |db.raised| {
      KeyTimesAppend(after.rows, db.raised, after.raised[|db.raised|], k);
    }
  }

  /**
   An operation adds at most one announcement of the key: it opens a row, or a cooldown has passed
   since the key's last one.
   */
  lemma StepAnnounces(clock: Clock, db: Db, op: Op, k: AlertKey, seconds: nat)
    requires Forward(clock) && Leads(db, k)
    requires op.DoRaise? && op.req.key == k ==> op.req.cooldown == Some(seconds)
    ensures var after, times := Step(clock, db, op), KeyTimes(db.rows, db.raised, k);
            var later := KeyTimes(after.rows, after.raised, k);
            if Opens(db, op, k) then later == times + [clock(db.ticks)]
            else later == times
                 || (|later| == |times| + 1 && times <= later && QuietFor(db, k, seconds * SECOND, later[|times|]))
  {
    if op.DoRaise? && op.req.key == k {
      match Get(db.rows, k)
      case MultipleObjects =>
      case DoesNotExist =>
        RaiseInserts(clock, db, op.req, op.chosen, op.dir);
        if !Conflicts(db.rows, k) { InsertLeads(clock, db, op.req, op.chosen, op.dir); }
      case Found(id) =>
        RefreshLeads(clock, db, op.req, op.chosen, op.dir);
        if |Step(clock, db, op).raised| != |db.raised| {
          RaiseRefreshes(clock, db, op.req, op.chosen, op.dir);
          RefreshWaits(clock, db, op.req, op.chosen, op.dir, seconds);
        }
    } else {
      QuietStep(clock, db, op, k);
    }
  }

  // ---- Runs -------------------------------------------------------------------------------

  /** If the operation opens a row of the key, it does so a gap or more after the key's last announcement. */
  predicate EdgeApart(clock: Clock, db: Db, op: Op, k: AlertKey, gap: Time) {
    Opens(db, op, k) ==> QuietFor(db, k, gap, clock(db.ticks))
  }

  /** So does every operation of the run. */
  predicate EdgesApart(clock: Clock, ops: seq<Op>, k: AlertKey, gap: Time) {
    ops == []
    || (EdgesApart(clock, ops[..|ops| - 1], k, gap)
        && EdgeApart(clock, Run(clock, EMPTY, ops[..|ops| - 1]), ops[|ops| - 1], k, gap))
  }

  /** When the alerts of the key were announced in the run. */
  function Announced(clock: Clock, ops: seq<Op>, k: AlertKey): seq<Time> {
    var db := Run(clock, EMPTY, ops);
    KeyTimes(db.rows, db.raised, k)
  }

  lemma {:induction false} RunLeads(clock: Clock, ops: seq<Op>, k: AlertKey)
    ensures Leads(Run(clock, EMPTY, ops), k)
    decreases |ops|
  {
    if ops != [] {
      RunLeads(clock, ops[..|ops| - 1], k);
      StepLeads(clock, Run(clock, EMPTY, ops[..|ops| - 1]), ops[|ops| - 1], k);
    }
  }

  lemma SpacedFront(ts: seq<Time>, later: seq<Time>, gap: Time)
    requires later == ts || (|later| == |ts| + 1 && ts <= later)
    ensures Spaced(later, gap) <==>
            Spaced(ts, gap) && (later == ts || ts == [] || later[|ts|] - ts[|ts| - 1] >= gap)
  {
    if Spaced(later, gap) {
      assert forall i :: 0 <= i < |ts| ==> ts[i] == later[i];
    }
  }

  /**
   Main result: in a serial run the announcements of all alerts of one key are at least the cooldown
   apart exactly if each of its alerts is opened that long after the key's last announcement.
   */
  lemma {:induction false} KeySpacedIffEdgesApart(clock: Clock, ops: seq<Op>, k: AlertKey, r: RuleId, seconds: nat)
    requires Forward(clock) && FixedCooldown(ops, r, seconds) && k.rule == Some(r)
    ensures Spaced(Announced(clock, ops, k), seconds * SECOND) <==> EdgesApart(clock, ops, k, seconds * SECOND)
    decreases |ops|
  {
    if ops != [] {
      var front, op := ops[..|ops| - 1], ops[|ops| - 1];
      KeySpacedIffEdgesApart(clock, front, k, r, seconds);
      RunLeads(clock, front, k);
      StepAnnounces(clock, Run(clock, EMPTY, front), op, k, seconds);
      SpacedFront(Announced(clock, front, k), Announced(clock, ops, k), seconds * SECOND);
    }
  }

  function Edge(req: Request): Op {
    DoRaise(req, [], Directory([], []))
  }

  /** A sensor that flaps n times. */
  function Flapping(req: Request, n: nat): seq<Op> {
    if n == 0 then [] else Flapping(req, n - 1) + [Edge(req)] + [DoAutoResolve(req.key)]
  }

  lemma Then(clock: Clock, ops: seq<Op>, op: Op)
    ensures Run(clock, EMPTY, ops + [op]) == Step(clock, Run(clock, EMPTY, ops), op)
  {
    assert (ops + [op])[..|ops|] == ops;
  }

  ghost predicate NoneOpen(rows: seq<Alert>, k: AlertKey) {
    forall i :: 0 <= i < |rows| ==> !OpenFor(rows[i], k)
  }

  /** The rising edge opens a row and announces it. */
  lemma EdgeAnnounces(clock: Clock, db: Db, req: Request)
    requires Leads(db, req.key) && NoneOpen(db.rows, req.key)
    ensures var mid := Step(clock, db, Edge(req));
            && Leads(mid, req.key) && mid.ticks == db.ticks + 1
            && KeyTimes(mid.rows, mid.raised, req.key) == KeyTimes(db.rows, db.raised, req.key) + [clock(db.ticks)]
  {
    assert Get(db.rows, req.key).DoesNotExist? && !Conflicts(db.rows, req.key);
    RaiseInserts(clock, db, req, [], Directory([], []));
    InsertLeads(clock, db, req, [], Directory([], []));
  }

  /** The falling edge closes it and announces nothing. */
  lemma FallCloses(clock: Clock, mid: Db, k: AlertKey)
    requires Leads(mid, k)
    ensures var after := AutoResolve(clock, mid, k);
            && NoneOpen(after.rows, k) && after.ticks == mid.ticks + 1
            && KeyTimes(after.rows, after.raised, k) == KeyTimes(mid.rows, mid.raised, k)
  {
    var after := AutoResolve(clock, mid, k);
    KeyTimesStay(mid.rows, after.rows, mid.raised, k);
    forall i | 0 <= i < |after.rows| ensures !OpenFor(after.rows[i], k) {
      assert !mid.rows[i].deleted;
    }
  }

  /** The first n of every other reading of the clock. */
  function EveryOther(clock: Clock, n: nat): (ts: seq<Time>)
    ensures |ts| == n
  {
    if n == 0 then [] else EveryOther(clock, n - 1) + [clock(2 * (n - 1))]
  }

  /** So far n flaps were announced, at every other reading of the clock, and the last one is over. */
  ghost predicate Flapped(clock: Clock, ops: seq<Op>, k: AlertKey, n: nat) {
    && Announced(clock, ops, k) == EveryOther(clock, n)
    && Run(clock, EMPTY, ops).ticks == 2 * n && NoneOpen(Run(clock, EMPTY, ops).rows, k)
  }

  lemma FlapOnce(clock: Clock, ops: seq<Op>, req: Request, n: nat)
    requires Flapped(clock, ops, req.key, n)
    ensures Flapped(clock, ops + [Edge(req)] + [DoAutoResolve(req.key)], req.key, n + 1)
  {
    RunLeads(clock, ops, req.key);
    EdgeAnnounces(clock, Run(clock, EMPTY, ops), req);
    Then(clock, ops, Edge(req));
    FallCloses(clock, Run(clock, EMPTY, ops + [Edge(req)]), req.key);
    Then(clock, ops + [Edge(req)], DoAutoResolve(req.key));
  }

  /**
   So de-duplication does not bound what a flapping sensor sends: n flaps are n announcements, made
   at every other reading of whatever clock.
   */
  lemma {:induction false} EveryFlapIsAnnounced(clock: Clock, req: Request, n: nat)
    ensures Flapped(clock, Flapping(req, n), req.key, n)
    decreases n
  {
    if n > 0 {
      var ops := Flapping(req, n - 1);
      EveryFlapIsAnnounced(clock, req, n - 1);
      FlapOnce(clock, ops, req, n - 1);
      assert Flapping(req, n) == ops + [Edge(req)] + [DoAutoResolve(req.key)];
    }
  }

  /** Two flaps while the clock stands still break every cooldown. */
  lemma FlappingBreaksCooldown(req: Request, seconds: nat)
    requires seconds > 0
    ensures !Spaced(Announced((_: nat) => 0, Flapping(req, 2), req.key), seconds * SECOND)
  {
    EveryFlapIsAnnounced((_: nat) => 0, req, 2);
    var ts := Announced((_: nat) => 0, Flapping(req, 2), req.key);
    assert ts[1] - ts[0] < seconds * SECOND;
  }
}
