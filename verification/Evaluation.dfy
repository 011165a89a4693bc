/** What an evaluation of a device's readings leaves behind, rule by rule and whatever their order. */
module Evaluation {
  import opened Options
  import opened Alerts
  import opened AlertService
  import opened Rules
  import History

  /** A soft-deleted row is still open, so the index refuses a new one. */
  ghost predicate Blocked(rows: seq<Alert>, k: AlertKey) {
    exists i :: 0 <= i < |rows| && OpenFor(rows[i], k) && rows[i].deleted
  }

  ghost predicate HasLive(rows: seq<Alert>, k: AlertKey) {
    exists i :: 0 <= i < |rows| && LiveOpen(rows[i], k)
  }

  ghost predicate LiveHolds(rows: seq<Alert>, k: AlertKey, v: Option<real>) {
    forall i :: 0 <= i < |rows| && LiveOpen(rows[i], k) ==> rows[i].value == v
  }

  /** From a to b only rows of the key were added or rewritten. */
  ghost predicate Elsewhere(a: seq<Alert>, b: seq<Alert>, k: AlertKey) {
    && |a| <= |b|
    && (forall i :: 0 <= i < |a| ==> b[i].key == a[i].key && (a[i].key != k ==> b[i] == a[i]))
    && (forall i :: |a| <= i < |b| ==> b[i].key == k)
  }

  /** From a to b no row of the key was added or rewritten. */
  ghost predicate Untouched(a: seq<Alert>, b: seq<Alert>, k: AlertKey) {
    && |a| <= |b|
    && (forall i :: 0 <= i < |a| ==> b[i].key == a[i].key && (a[i].key == k ==> b[i] == a[i]))
    && (forall i :: |a| <= i < |b| ==> b[i].key != k)
  }

  /** Nothing of another key changes, and the index keeps holding. */
  lemma ElsewhereKeeps(a: seq<Alert>, b: seq<Alert>, k: AlertKey, other: AlertKey)
    requires Elsewhere(a, b, k) && k != other
    ensures OneOpen(a, other) ==> OneOpen(b, other)
    ensures Blocked(b, other) <==> Blocked(a, other)
    ensures HasLive(b, other) <==> HasLive(a, other)
    ensures forall v :: LiveHolds(b, other, v) <==> LiveHolds(a, other, v)
  {
    if Blocked(a, other) {
      var i :| 0 <= i < |a| && OpenFor(a[i], other) && a[i].deleted;
      assert OpenFor(b[i], other);
    }
    if HasLive(a, other) {
      var i :| 0 <= i < |a| && LiveOpen(a[i], other);
      assert LiveOpen(b[i], other);
    }
    forall v ensures LiveHolds(b, other, v) <==> LiveHolds(a, other, v) {
      assert forall i :: 0 <= i < |a| && LiveOpen(a[i], other) ==> LiveOpen(b[i], other) && b[i] == a[i];
    }
  }

  lemma RefreshOutcome(a: seq<Alert>, b: seq<Alert>, id: nat, k: AlertKey, value: Option<real>)
    requires OneOpen(a, k) && id < |a| == |b| && LiveOpen(a[id], k)
    requires forall i :: 0 <= i < |a| && i != id ==> b[i] == a[i]
    requires b[id] == a[id].(value := value, message := b[id].message, notifiedAt := b[id].notifiedAt)
    ensures Elsewhere(a, b, k) && OneOpen(b, k) && !Blocked(a, k) && !Blocked(b, k)
    ensures HasLive(b, k) && LiveHolds(b, k, value)
  {
    assert LiveOpen(b[id], k);
  }

  lemma InsertOutcome(rows: seq<Alert>, a: Alert, k: AlertKey)
    requires a.key == k && a.status.Open? && !a.deleted
    requires forall i :: 0 <= i < |rows| ==> !OpenFor(rows[i], k)
    ensures Elsewhere(rows, rows + [a], k) && OneOpen(rows + [a], k) && !Blocked(rows, k) && !Blocked(rows + [a], k)
    ensures HasLive(rows + [a], k) && LiveHolds(rows + [a], k, a.value)
  {
    assert LiveOpen((rows + [a])[|rows|], k);
  }

  lemma RefusedOutcome(rows: seq<Alert>, k: AlertKey)
    requires Conflicts(rows, k) && forall i :: 0 <= i < |rows| ==> !LiveOpen(rows[i], k)
    ensures Blocked(rows, k) && !HasLive(rows, k)
  {
    var i :| 0 <= i < |rows| && OpenFor(rows[i], k);
    assert !LiveOpen(rows[i], k);
  }

  lemma RaiseOutcome(clock: Clock, db: Db, req: Request, chosen: seq<Channel>, dir: Directory)
    requires OneOpen(db.rows, req.key) && Indexed(req.key)
    ensures var (after, outcome) := Raise(clock, db, req, chosen, dir);
            && Elsewhere(db.rows, after.rows, req.key) && OneOpen(after.rows, req.key)
            && (Blocked(after.rows, req.key) <==> Blocked(db.rows, req.key))
            && (HasLive(after.rows, req.key) <==> !Blocked(db.rows, req.key))
            && LiveHolds(after.rows, req.key, req.value)
            && !outcome.Failed?
  {
    var k, after := req.key, Raise(clock, db, req, chosen, dir).0;
    match Get(db.rows, k)
    case Found(id) =>
      RaiseRefreshes(clock, db, req, chosen, dir);
      RefreshOutcome(db.rows, after.rows, id, k, req.value);
    case DoesNotExist =>
      RaiseInserts(clock, db, req, chosen, dir);
      if Conflicts(db.rows, k) {
        RefusedOutcome(db.rows, k);
      } else {
        InsertOutcome(db.rows, after.rows[|db.rows|], k);
      }
    case MultipleObjects =>
  }

  lemma AutoResolveOutcome(clock: Clock, db: Db, k: AlertKey)
    requires OneOpen(db.rows, k)
    ensures var after := AutoResolve(clock, db, k).rows;
            && Elsewhere(db.rows, after, k) && OneOpen(after, k) && !HasLive(after, k)
            && (Blocked(after, k) <==> Blocked(db.rows, k))
  {
    var after := AutoResolve(clock, db, k).rows;
    if Blocked(db.rows, k) {
      var i :| 0 <= i < |db.rows| && OpenFor(db.rows[i], k) && db.rows[i].deleted;
      assert OpenFor(after[i], k) && after[i].deleted;
    }
  }

  /** The sensors a rule looks at, in order, each with its number if it has one. */
  function Looked(ids: seq<SensorId>, sensors: map<SensorId, Sensor>): seq<(SensorId, Option<real>)>
    requires forall s <- ids :: s in sensors
  {
    if ids == [] then []
    else
      var id := ids[|ids| - 1];
      Looked(ids[..|ids| - 1], sensors) + [(id, sensors[id].lastValue)]
  }

  /** The numbers among what a rule looks at, in order. */
  function NumbersIn(seen: seq<(SensorId, Option<real>)>): seq<real> {
    if seen == [] then []
    else
      var (_, v) := seen[|seen| - 1];
      NumbersIn(seen[..|seen| - 1]) + if v.Some? then [v.value] else []
  }

  /**
   The sensors that open an alert for the rule, oldest first: those whose number matches while none
   is open; and whether one is open in the end.
   */
  function Edges(r: Rule, seen: seq<(SensorId, Option<real>)>, live: bool): (seq<SensorId>, bool) {
    if seen == [] then ([], live)
    else
      var (openers, on) := Edges(r, seen[..|seen| - 1], live);
      var (id, v) := seen[|seen| - 1];
      if v.None? then (openers, on)
      else if Matches(r, v) then (if on then openers else openers + [id], true)
      else (openers, false)
  }

  /** The sensors that open a row for the key: none while a soft-deleted open row blocks it. */
  ghost function Openers(rows: seq<Alert>, r: Rule, k: AlertKey, seen: seq<(SensorId, Option<real>)>): seq<SensorId> {
    if Blocked(rows, k) then [] else Edges(r, seen, HasLive(rows, k)).0
  }

  /** The rows added for the key bear the rule's severity and organisation and the sensors that opened them. */
  ghost predicate AddedBy(before: seq<Alert>, after: seq<Alert>, r: Rule, k: AlertKey, openers: seq<SensorId>) {
    |before| <= |after|
    && var added := History.Of(after[|before|..], k);
       && |added| == |openers|
       && forall i :: 0 <= i < |added| ==>
            added[i].severity == r.severity && added[i].org == r.org && added[i].sensor == Some(openers[i])
  }

  /** The rows there were keep what an alert is about. */
  ghost predicate KeepsColumns(before: seq<Alert>, after: seq<Alert>) {
    && |before| <= |after|
    && forall i :: 0 <= i < |before| ==>
         && after[i].key == before[i].key && after[i].severity == before[i].severity
         && after[i].org == before[i].org && after[i].sensor == before[i].sensor && after[i].title == before[i].title
  }

  lemma {:induction false} OfBoth(a: seq<Alert>, b: seq<Alert>, k: AlertKey)
    ensures History.Of(a + b, k) == History.Of(a, k) + History.Of(b, k)
  {
    if b == [] {
      assert a + b == a;
    } else {
      assert (a + b)[..|a + b| - 1] == a + b[..|b| - 1];
      OfBoth(a, b[..|b| - 1], k);
    }
  }

  /** Where the rows of the key are the same, so is its history. */
  lemma {:induction false} OfSame(a: seq<Alert>, b: seq<Alert>, k: AlertKey)
    requires |a| == |b| && forall i :: 0 <= i < |a| ==> b[i].key == a[i].key && (a[i].key == k ==> b[i] == a[i])
    ensures History.Of(b, k) == History.Of(a, k)
  {
    if a != [] {
      OfSame(a[..|a| - 1], b[..|b| - 1], k);
    }
  }

  lemma {:induction false} OfNone(a: seq<Alert>, k: AlertKey)
    requires forall i :: 0 <= i < |a| ==> a[i].key != k
    ensures History.Of(a, k) == []
  {
    if a != [] {
      OfNone(a[..|a| - 1], k);
    }
  }

  /** Rewritten rows keep their place in the history, and the columns all of them keep. */
  lemma {:induction false} OfKept(a: seq<Alert>, b: seq<Alert>, k: AlertKey)
    requires |a| == |b| && KeepsColumns(a, b)
    ensures |History.Of(b, k)| == |History.Of(a, k)| && KeepsColumns(History.Of(a, k), History.Of(b, k))
  {
    if a != [] {
      OfKept(a[..|a| - 1], b[..|b| - 1], k);
    }
  }

  /** Rows that are rewritten add none. */
  lemma AddedKept(start: seq<Alert>, a: seq<Alert>, b: seq<Alert>, r: Rule, k: AlertKey, openers: seq<SensorId>)
    requires AddedBy(start, a, r, k, openers) && |a| == |b| && KeepsColumns(a, b)
    ensures AddedBy(start, b, r, k, openers)
  {
    OfKept(a[|start|..], b[|start|..], k);
  }

  lemma AddedOneMore(
    start: seq<Alert>, a: seq<Alert>, row: Alert, r: Rule, k: AlertKey, openers: seq<SensorId>, id: SensorId)
    requires AddedBy(start, a, r, k, openers)
    requires row.key == k && row.severity == r.severity && row.org == r.org && row.sensor == Some(id)
    ensures AddedBy(start, a + [row], r, k, openers + [id])
  {
    assert (a + [row])[|start|..] == a[|start|..] + [row];
    History.OfAppend(a[|start|..], row, k);
  }

  /** The last numeric value decides: open with that value if it matches, closed if not. */
  ghost predicate Decided(before: Db, after: Db, r: Rule, k: AlertKey, seen: seq<(SensorId, Option<real>)>) {
    var values := NumbersIn(seen);
    && OneOpen(after.rows, k)
    && KeepsColumns(before.rows, after.rows)
    && AddedBy(before.rows, after.rows, r, k, Openers(before.rows, r, k, seen))
    && Elsewhere(before.rows, after.rows, k)
    && (Blocked(after.rows, k) <==> Blocked(before.rows, k))
    && (values == [] ==> after == before)
    && (values != [] ==>
          var last := Some(values[|values| - 1]);
          && (HasLive(after.rows, k) <==> Matches(r, last) && !Blocked(before.rows, k))
          && LiveHolds(after.rows, k, last))
  }

  /** What the turn of one rule leaves, and whether an alert is then open. */
  ghost predicate Turned(before: Db, after: Db, r: Rule, k: AlertKey, seen: seq<(SensorId, Option<real>)>) {
    && Decided(before, after, r, k, seen)
    && (!Blocked(before.rows, k) ==> (HasLive(after.rows, k) <==> Edges(r, seen, HasLive(before.rows, k)).1))
  }

  /** A matching number opens an alert if none is live and nothing blocks it. */
  lemma BreachOpens(
    clock: Clock, start: seq<Alert>, mid: Db, r: Rule, device: Serial, id: SensorId, s: Sensor, dir: Directory,
    openers: seq<SensorId>)
    requires AddedBy(start, mid.rows, r, KeyOf(r, device), openers) && KeepsColumns(start, mid.rows)
    requires OneOpen(mid.rows, KeyOf(r, device))
    ensures var k, after := KeyOf(r, device), Raise(clock, mid, Breach(r, device, id, s), r.channels, dir).0;
            && KeepsColumns(start, after.rows)
            && AddedBy(start, after.rows, r, k,
                       if HasLive(mid.rows, k) || Blocked(mid.rows, k) then openers else openers + [id])
  {
    var k, req := KeyOf(r, device), Breach(r, device, id, s);
    var after := Raise(clock, mid, req, r.channels, dir).0;
    match Get(mid.rows, k)
    case Found(i) =>
      RaiseRefreshes(clock, mid, req, r.channels, dir);
      assert LiveOpen(mid.rows[i], k);
      AddedKept(start, mid.rows, after.rows, r, k, openers);
    case DoesNotExist =>
      RaiseInserts(clock, mid, req, r.channels, dir);
      if Conflicts(mid.rows, k) {
        RefusedOutcome(mid.rows, k);
      } else {
        assert !Blocked(mid.rows, k);
        assert after.rows == mid.rows + [after.rows[|mid.rows|]];
        AddedOneMore(start, mid.rows, after.rows[|mid.rows|], r, k, openers, id);
      }
    case MultipleObjects =>
  }

  lemma ClosingAddsNothing(clock: Clock, start: seq<Alert>, mid: Db, r: Rule, k: AlertKey, openers: seq<SensorId>)
    requires AddedBy(start, mid.rows, r, k, openers) && KeepsColumns(start, mid.rows)
    ensures var after := AutoResolve(clock, mid, k).rows;
            KeepsColumns(start, after) && AddedBy(start, after, r, k, openers)
  {
    AddedKept(start, mid.rows, AutoResolve(clock, mid, k).rows, r, k, openers);
  }

  lemma MatchTurns(
    clock: Clock, db: Db, mid: Db, r: Rule, device: Serial, id: SensorId, s: Sensor, dir: Directory,
    seen: seq<(SensorId, Option<real>)>)
    requires Turned(db, mid, r, KeyOf(r, device), seen) && Matches(r, s.lastValue)
    ensures Turned(db, Raise(clock, mid, Breach(r, device, id, s), r.channels, dir).0, r, KeyOf(r, device),
                   seen + [(id, s.lastValue)])
  {
    assert (seen + [(id, s.lastValue)])[..|seen|] == seen;
    RaiseOutcome(clock, mid, Breach(r, device, id, s), r.channels, dir);
    BreachOpens(clock, db.rows, mid, r, device, id, s, dir, Openers(db.rows, r, KeyOf(r, device), seen));
  }

  lemma ClearTurns(
    clock: Clock, db: Db, mid: Db, r: Rule, k: AlertKey, id: SensorId, v: real, seen: seq<(SensorId, Option<real>)>)
    requires Turned(db, mid, r, k, seen) && !Matches(r, Some(v))
    ensures Turned(db, AutoResolve(clock, mid, k), r, k, seen + [(id, Some(v))])
  {
    assert (seen + [(id, Some(v))])[..|seen|] == seen;
    AutoResolveOutcome(clock, mid, k);
    ClosingAddsNothing(clock, db.rows, mid, r, k, Openers(db.rows, r, k, seen));
  }

  /** One sensor's turn. */
  lemma JudgeTurns(
    clock: Clock, db: Db, mid: Db, r: Rule, device: Serial, id: SensorId, s: Sensor, dir: Directory,
    seen: seq<(SensorId, Option<real>)>)
    requires Turned(db, mid, r, KeyOf(r, device), seen)
    ensures Turned(db, Judge(clock, mid, r, device, id, s, dir), r, KeyOf(r, device), seen + [(id, s.lastValue)])
  {
    match s.lastValue
    case None =>
      assert (seen + [(id, s.lastValue)])[..|seen|] == seen;
      assert NumbersIn(seen) + [] == NumbersIn(seen);
    case Some(v) =>
      if Matches(r, s.lastValue) {
        MatchTurns(clock, db, mid, r, device, id, s, dir, seen);
      } else {
        ClearTurns(clock, db, mid, r, KeyOf(r, device), id, v, seen);
      }
  }

  lemma {:induction false} JudgeAllDecides(
    clock: Clock, db: Db, r: Rule, device: Serial, ids: seq<SensorId>, sensors: map<SensorId, Sensor>, dir: Directory)
    requires forall s <- ids :: s in sensors
    requires OneOpen(db.rows, KeyOf(r, device))
    ensures Turned(db, JudgeAll(clock, db, r, device, ids, sensors, dir), r, KeyOf(r, device), Looked(ids, sensors))
    decreases |ids|
  {
    if ids == [] {
      assert db.rows[|db.rows|..] == [];
    } else {
      var front, id := ids[..|ids| - 1], ids[|ids| - 1];
      JudgeAllDecides(clock, db, r, device, front, sensors, dir);
      JudgeTurns(clock, db, JudgeAll(clock, db, r, device, front, sensors, dir), r, device, id, sensors[id], dir,
                 Looked(front, sensors));
    }
  }

  ghost predicate DistinctRules(rules: seq<Rule>) {
    forall i, j :: 0 <= i < j < |rules| ==> rules[i].id != rules[j].id
  }

  /** What the sensors in the rule's scope hold, if the rule is evaluated at all. */
  function SeenFor(
    r: Rule, org: OrgId, device: Serial, batch: seq<SensorId>, sensors: map<SensorId, Sensor>)
    : seq<(SensorId, Option<real>)>
    requires forall s <- batch :: s in sensors
  {
    if r.org == org && r.active && r.source.SensorReading?
    then
      ScopedKnown(r, device, batch, sensors);
      Looked(Scoped(r, device, batch, sensors), sensors)
    else []
  }

  lemma {:induction false} ScopedKnown(r: Rule, device: Serial, batch: seq<SensorId>, sensors: map<SensorId, Sensor>)
    requires forall s <- batch :: s in sensors
    ensures forall s <- Scoped(r, device, batch, sensors) :: s in sensors
  {
    if batch != [] {
      ScopedKnown(r, device, batch[..|batch| - 1], sensors);
    }
  }

  /** What one rule of the loop does, in terms of its documented scope. */
  function OneRule(clock: Clock, db: Db, r: Rule, org: OrgId, device: Serial, batch: seq<SensorId>,
                   sensors: map<SensorId, Sensor>, dir: Directory): Db
    requires forall s <- batch :: s in sensors
  {
    if Evaluated(r, org, device, batch)
    then
      ScopedAreKnown(r, batch, sensors);
      JudgeAll(clock, db, r, device, SensorsForRule(r, batch, sensors), sensors, dir)
    else db
  }

  lemma OneRuleDecides(clock: Clock, db: Db, r: Rule, org: OrgId, device: Serial, batch: seq<SensorId>,
                       sensors: map<SensorId, Sensor>, dir: Directory)
    requires forall s <- batch :: s in sensors
    requires Distinct(batch) && OneOpen(db.rows, KeyOf(r, device))
    ensures Decided(db, OneRule(clock, db, r, org, device, batch, sensors, dir), r, KeyOf(r, device),
                    SeenFor(r, org, device, batch, sensors))
  {
    LookupIsExact(r, device, batch, sensors);
    ScopedAreKnown(r, batch, sensors);
    if Evaluated(r, org, device, batch) {
      JudgeAllDecides(clock, db, r, device, SensorsForRule(r, batch, sensors), sensors, dir);
    }
  }

  /** What the whole loop leaves for one rule, compared with the state before it. */
  ghost predicate DecidedFor(before: Db, after: Db, r: Rule, k: AlertKey, seen: seq<(SensorId, Option<real>)>) {
    var values := NumbersIn(seen);
    && OneOpen(after.rows, k)
    && KeepsColumns(before.rows, after.rows)
    && AddedBy(before.rows, after.rows, r, k, Openers(before.rows, r, k, seen))
    && (Blocked(after.rows, k) <==> Blocked(before.rows, k))
    && (values == [] ==> Untouched(before.rows, after.rows, k))
    && (values != [] ==>
          var last := Some(values[|values| - 1]);
          && (HasLive(after.rows, k) <==> Matches(r, last) && !Blocked(before.rows, k))
          && LiveHolds(after.rows, k, last))
  }

  lemma {:induction false} OfHolds(rows: seq<Alert>, k: AlertKey, i: nat) returns (n: nat)
    requires i < |rows| && rows[i].key == k
    ensures n < |History.Of(rows, k)| && History.Of(rows, k)[n] == rows[i]
  {
    var front := rows[..|rows| - 1];
    if i < |front| {
      n := OfHolds(front, k, i);
    } else {
      n := |History.Of(front, k)|;
    }
  }

  /** A sensor opens an alert by a number that matches. */
  lemma {:induction false} OpenersMatch(r: Rule, seen: seq<(SensorId, Option<real>)>, live: bool)
    ensures forall id <- Edges(r, seen, live).0 :: exists v: real :: (id, Some(v)) in seen && Matches(r, Some(v))
  {
    if seen != [] {
      var front := seen[..|seen| - 1];
      OpenersMatch(r, front, live);
      forall id | id in Edges(r, seen, live).0
        ensures exists v: real :: (id, Some(v)) in seen && Matches(r, Some(v))
      {
        if id in Edges(r, front, live).0 {
          var v: real :| (id, Some(v)) in front && Matches(r, Some(v));
          assert (id, Some(v)) in seen;
        } else {
          var (_, v) := seen[|seen| - 1];
          assert (id, v) in seen && v == Some(v.value) && Matches(r, v);
        }
      }
    }
  }

  /** A row opened for the rule: its severity and organisation, and a sensor it looks at whose number matches. */
  ghost predicate BearsRule(a: Alert, r: Rule, seen: seq<(SensorId, Option<real>)>) {
    && a.severity == r.severity && a.org == r.org && a.sensor.Some?
    && exists v: real :: (a.sensor.value, Some(v)) in seen && Matches(r, Some(v))
  }

  ghost predicate AddedBearRule(
    before: seq<Alert>, after: seq<Alert>, r: Rule, k: AlertKey, seen: seq<(SensorId, Option<real>)>) {
    forall i :: |before| <= i < |after| && after[i].key == k ==> BearsRule(after[i], r, seen)
  }

  lemma AddedRowsBearRule(before: Db, after: Db, r: Rule, k: AlertKey, seen: seq<(SensorId, Option<real>)>)
    requires DecidedFor(before, after, r, k, seen)
    ensures AddedBearRule(before.rows, after.rows, r, k, seen)
  {
    OpenersMatch(r, seen, HasLive(before.rows, k));
    forall i | |before.rows| <= i < |after.rows| && after.rows[i].key == k
      ensures BearsRule(after.rows[i], r, seen)
    {
      var n := OfHolds(after.rows[|before.rows|..], k, i - |before.rows|);
      assert Openers(before.rows, r, k, seen)[n] in Openers(before.rows, r, k, seen);
    }
  }

  lemma KeepsIndex(a: seq<Alert>, b: seq<Alert>, k: AlertKey)
    requires IndexHolds(a) && Elsewhere(a, b, k) && OneOpen(b, k)
    ensures IndexHolds(b)
  {
    forall other | Indexed(other) ensures OneOpen(b, other) {
      if other != k {
        ElsewhereKeeps(a, b, k, other);
      }
    }
  }

  /** Rows added to rows in between add to their history. */
  lemma AddedInTwo(rows: seq<Alert>, n: nat, m: nat, k: AlertKey)
    requires n <= m <= |rows|
    ensures History.Of(rows[n..], k) == History.Of(rows[n..m], k) + History.Of(rows[m..], k)
  {
    assert rows[n..] == rows[n..m] + rows[m..];
    OfBoth(rows[n..m], rows[m..], k);
  }

  /** What is added once the key was left alone is all that is added. */
  lemma AddedLater(a: seq<Alert>, b: seq<Alert>, c: seq<Alert>, r: Rule, k: AlertKey, openers: seq<SensorId>)
    requires Untouched(a, b, k) && KeepsColumns(b, c) && AddedBy(b, c, r, k, openers)
    ensures AddedBy(a, c, r, k, openers)
  {
    AddedInTwo(c, |a|, |b|, k);
    OfNone(c[|a|..|b|], k);
  }

  /** The rule's own turn, after turns that left its key alone, decides. */
  lemma AfterOwnRule(
    db: Db, mid: Db, after: Db, r: Rule, k: AlertKey, seen: seq<(SensorId, Option<real>)>)
    requires DecidedFor(db, mid, r, k, []) && Decided(mid, after, r, k, seen)
    ensures DecidedFor(db, after, r, k, seen)
  {
    UntouchedKeeps(db.rows, mid.rows, k);
    AddedLater(db.rows, mid.rows, after.rows, r, k, Openers(db.rows, r, k, seen));
  }

  lemma UntouchedKeeps(a: seq<Alert>, b: seq<Alert>, k: AlertKey)
    requires Untouched(a, b, k)
    ensures HasLive(b, k) <==> HasLive(a, k)
    ensures Blocked(b, k) <==> Blocked(a, k)
  {
    if HasLive(a, k) {
      var i :| 0 <= i < |a| && LiveOpen(a[i], k);
      assert LiveOpen(b[i], k);
    }
    if Blocked(a, k) {
      var i :| 0 <= i < |a| && OpenFor(a[i], k) && a[i].deleted;
      assert OpenFor(b[i], k);
    }
  }

  /** Another rule's turn changes nothing that was decided. */
  lemma AfterOtherRule(
    db: Db, mid: Db, after: Db, r: Rule, k: AlertKey, other: AlertKey, seen: seq<(SensorId, Option<real>)>)
    requires DecidedFor(db, mid, r, k, seen) && k != other
    requires Elsewhere(mid.rows, after.rows, other) && KeepsColumns(mid.rows, after.rows)
    ensures DecidedFor(db, after, r, k, seen)
  {
    ElsewhereKeeps(mid.rows, after.rows, other, k);
    var n, m := |db.rows|, |mid.rows|;
    AddedInTwo(after.rows, n, m, k);
    OfSame(mid.rows[n..], after.rows[n..m], k);
    OfNone(after.rows[m..], k);
    assert History.Of(mid.rows[n..], k) + [] == History.Of(mid.rows[n..], k);
  }

  lemma {:induction false} EachDecided(
    clock: Clock, db: Db, rules: seq<Rule>, org: OrgId, device: Serial, batch: seq<SensorId>,
    sensors: map<SensorId, Sensor>, dir: Directory, r: Rule)
    requires forall s <- batch :: s in sensors
    requires Distinct(batch) && DistinctRules(rules) && IndexHolds(db.rows)
    requires forall i :: 0 <= i < |rules| && rules[i].id == r.id ==> rules[i] == r
    ensures IndexHolds(Evaluate(clock, db, rules, org, device, batch, sensors, dir).rows)
    ensures DecidedFor(db, Evaluate(clock, db, rules, org, device, batch, sensors, dir), r, KeyOf(r, device),
                       if r in rules then SeenFor(r, org, device, batch, sensors) else [])
    decreases |rules|
  {
    var k := KeyOf(r, device);
    assert OneOpen(db.rows, k);
    if rules != [] {
      var front, q := rules[..|rules| - 1], rules[|rules| - 1];
      var mid := Evaluate(clock, db, front, org, device, batch, sensors, dir);
      var after := Evaluate(clock, db, rules, org, device, batch, sensors, dir);
      EachDecided(clock, db, front, org, device, batch, sensors, dir, r);
      assert OneOpen(mid.rows, KeyOf(q, device));
      OneRuleDecides(clock, mid, q, org, device, batch, sensors, dir);
      EvaluateOneMore(clock, db, rules, org, device, batch, sensors, dir);
      KeepsIndex(mid.rows, after.rows, KeyOf(q, device));
      OthersBeforeLast(rules, device);
      if q.id == r.id {
        AfterOwnRule(db, mid, after, r, k, SeenFor(r, org, device, batch, sensors));
      } else {
        AfterOtherRule(db, mid, after, r, k, KeyOf(q, device),
                       if r in rules then SeenFor(r, org, device, batch, sensors) else []);
      }
    }
  }

  /**
   Main result: after the loop, each rule has a live open alert for the device exactly when the
   last numeric value in its scope matches and no soft-deleted open row is in the way, and that
   alert holds that value; a rule with no numeric value in scope finds its alerts untouched. Every
   alert opened has the rule's severity and organisation and the sensor that opened it.
   */
  lemma EvaluateDecides(
    clock: Clock, db: Db, rules: seq<Rule>, org: OrgId, device: Serial, batch: seq<SensorId>,
    sensors: map<SensorId, Sensor>, dir: Directory)
    requires forall s <- batch :: s in sensors
    requires Distinct(batch) && DistinctRules(rules) && IndexHolds(db.rows)
    ensures var after := Evaluate(clock, db, rules, org, device, batch, sensors, dir);
            && IndexHolds(after.rows)
            && forall r <- rules ::
                 var k, seen := AlertKey(Some(r.id), Some(device)), SeenFor(r, org, device, batch, sensors);
                 DecidedFor(db, after, r, k, seen) && AddedBearRule(db.rows, after.rows, r, k, seen)
  {
    var after := Evaluate(clock, db, rules, org, device, batch, sensors, dir);
    forall r | r in rules
      ensures var k, seen := AlertKey(Some(r.id), Some(device)), SeenFor(r, org, device, batch, sensors);
              DecidedFor(db, after, r, k, seen) && AddedBearRule(db.rows, after.rows, r, k, seen)
    {
      EachDecided(clock, db, rules, org, device, batch, sensors, dir, r);
      AddedRowsBearRule(db, after, r, KeyOf(r, device), SeenFor(r, org, device, batch, sensors));
    }
    EvaluateKeepsIndex(clock, db, rules, org, device, batch, sensors, dir);
  }

  lemma {:induction false} EvaluateKeepsIndex(
    clock: Clock, db: Db, rules: seq<Rule>, org: OrgId, device: Serial, batch: seq<SensorId>,
    sensors: map<SensorId, Sensor>, dir: Directory)
    requires forall s <- batch :: s in sensors
    requires Distinct(batch) && DistinctRules(rules) && IndexHolds(db.rows)
    ensures IndexHolds(Evaluate(clock, db, rules, org, device, batch, sensors, dir).rows)
  {
    if rules != [] {
      EachDecided(clock, db, rules, org, device, batch, sensors, dir, rules[0]);
    }
  }

  // ---- The order of the rules -------------------------------------------------------------

  /** One rule on one sensor, in the story of the rule's key. */
  function JudgeStory(h: seq<Alert>, r: Rule, device: Serial, id: SensorId, s: Sensor): seq<Alert> {
    if s.lastValue.None? then h
    else if Matches(r, s.lastValue) then History.Raised(h, Breach(r, device, id, s))
    else History.Closed(h, KeyOf(r, device))
  }

  function JudgeAllStory(
    h: seq<Alert>, r: Rule, device: Serial, ids: seq<SensorId>, sensors: map<SensorId, Sensor>): seq<Alert>
    requires forall s <- ids :: s in sensors
    decreases |ids|
  {
    if ids == [] then h
    else
      var id := ids[|ids| - 1];
      JudgeStory(JudgeAllStory(h, r, device, ids[..|ids| - 1], sensors), r, device, id, sensors[id])
  }

  lemma {:induction false} JudgeAllInStory(
    clock: Clock, db: Db, r: Rule, device: Serial, ids: seq<SensorId>, sensors: map<SensorId, Sensor>, dir: Directory,
    k: AlertKey)
    requires forall s <- ids :: s in sensors
    ensures History.Story(JudgeAll(clock, db, r, device, ids, sensors, dir).rows, k)
            == if KeyOf(r, device) == k then JudgeAllStory(History.Story(db.rows, k), r, device, ids, sensors)
               else History.Story(db.rows, k)
    decreases |ids|
  {
    if ids != [] {
      var front, id := ids[..|ids| - 1], ids[|ids| - 1];
      var mid := JudgeAll(clock, db, r, device, front, sensors, dir);
      JudgeAllInStory(clock, db, r, device, front, sensors, dir, k);
      if sensors[id].lastValue.Some? {
        if Matches(r, sensors[id].lastValue) {
          History.RaiseInStory(clock, mid, Breach(r, device, id, sensors[id]), r.channels, dir, k);
        } else {
          History.AutoResolveInStory(clock, mid, KeyOf(r, device), k);
        }
      }
    }
  }

  /** The story a rule writes for its own key, whatever the other rules do. */
  function OwnStory(h: seq<Alert>, r: Rule, org: OrgId, device: Serial, batch: seq<SensorId>,
                    sensors: map<SensorId, Sensor>): seq<Alert>
    requires forall s <- batch :: s in sensors
  {
    if Evaluated(r, org, device, batch)
    then
      ScopedAreKnown(r, batch, sensors);
      JudgeAllStory(h, r, device, SensorsForRule(r, batch, sensors), sensors)
    else h
  }

  lemma OneRuleInStory(
    clock: Clock, db: Db, r: Rule, org: OrgId, device: Serial, batch: seq<SensorId>, sensors: map<SensorId, Sensor>,
    dir: Directory, k: AlertKey)
    requires forall s <- batch :: s in sensors
    ensures var before := History.Story(db.rows, k);
            History.Story(OneRule(clock, db, r, org, device, batch, sensors, dir).rows, k)
            == if KeyOf(r, device) == k then OwnStory(before, r, org, device, batch, sensors) else before
  {
    if Evaluated(r, org, device, batch) {
      ScopedAreKnown(r, batch, sensors);
      JudgeAllInStory(clock, db, r, device, SensorsForRule(r, batch, sensors), sensors, dir, k);
    }
  }

  lemma EvaluateOneMore(
    clock: Clock, db: Db, rules: seq<Rule>, org: OrgId, device: Serial, batch: seq<SensorId>,
    sensors: map<SensorId, Sensor>, dir: Directory)
    requires forall s <- batch :: s in sensors
    requires rules != []
    ensures var mid := Evaluate(clock, db, rules[..|rules| - 1], org, device, batch, sensors, dir);
            Evaluate(clock, db, rules, org, device, batch, sensors, dir)
            == OneRule(clock, mid, rules[|rules| - 1], org, device, batch, sensors, dir)
  {
  }

  lemma OthersBeforeLast(rules: seq<Rule>, device: Serial)
    requires rules != [] && DistinctRules(rules)
    ensures forall r <- rules[..|rules| - 1] :: r != rules[|rules| - 1]
                                              && KeyOf(r, device) != KeyOf(rules[|rules| - 1], device)
    ensures forall r :: r in rules <==> r in rules[..|rules| - 1] || r == rules[|rules| - 1]
  {
    var front := rules[..|rules| - 1];
    assert rules == front + [rules[|rules| - 1]];
    forall r | r in front ensures KeyOf(r, device) != KeyOf(rules[|rules| - 1], device) {
      var i :| 0 <= i < |front| && front[i] == r;
      assert rules[i] == r;
    }
  }

  lemma {:induction false} EvaluateInStory(
    clock: Clock, db: Db, rules: seq<Rule>, org: OrgId, device: Serial, batch: seq<SensorId>,
    sensors: map<SensorId, Sensor>, dir: Directory, k: AlertKey)
    requires forall s <- batch :: s in sensors
    requires DistinctRules(rules)
    ensures var before, after := History.Story(db.rows, k),
                                 History.Story(Evaluate(clock, db, rules, org, device, batch, sensors, dir).rows, k);
            && (forall r <- rules :: KeyOf(r, device) == k ==>
                  after == OwnStory(before, r, org, device, batch, sensors))
            && ((forall r <- rules :: KeyOf(r, device) != k) ==> after == before)
    decreases |rules|
  {
    if rules != [] {
      var front, q := rules[..|rules| - 1], rules[|rules| - 1];
      EvaluateInStory(clock, db, front, org, device, batch, sensors, dir, k);
      EvaluateOneMore(clock, db, rules, org, device, batch, sensors, dir);
      OneRuleInStory(clock, Evaluate(clock, db, front, org, device, batch, sensors, dir), q, org, device, batch,
                     sensors, dir, k);
      OthersBeforeLast(rules, device);
    }
  }

  /**
   The order in which the rules are processed does not matter: the story of every key, which is
   all of its rows but their time stamps, comes out the same.
   */
  lemma OrderDoesNotMatter(
    clock: Clock, db: Db, rules: seq<Rule>, shuffled: seq<Rule>, org: OrgId, device: Serial, batch: seq<SensorId>,
    sensors: map<SensorId, Sensor>, dir: Directory, k: AlertKey)
    requires forall s <- batch :: s in sensors
    requires DistinctRules(rules) && DistinctRules(shuffled) && forall r :: r in rules <==> r in shuffled
    ensures History.Story(Evaluate(clock, db, rules, org, device, batch, sensors, dir).rows, k)
            == History.Story(Evaluate(clock, db, shuffled, org, device, batch, sensors, dir).rows, k)
  {
    EvaluateInStory(clock, db, rules, org, device, batch, sensors, dir, k);
    EvaluateInStory(clock, db, shuffled, org, device, batch, sensors, dir, k);
    if r :| r in rules && KeyOf(r, device) == k {
      assert r in shuffled;
    }
  }
}
