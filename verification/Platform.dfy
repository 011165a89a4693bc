/** A batch from its arrival to the alerts it leaves behind. */
module Platform {
  import opened Options
  import opened Alerts
  import opened AlertService
  import opened Rules
  import opened Evaluation
  import opened EvaluationRun
  import Telemetry

  /**
   The evaluation loop. `batch` are the sensors the ingest touched, in the order of the sensor
   query (by name); `sensors` is what it returned. The index lets no raise fail.
   */
  method EvaluateDeviceReadings(
    engine: AlertEngine, rules: seq<Rule>, org: OrgId, device: Serial, batch: seq<SensorId>,
    sensors: map<SensorId, Sensor>, dir: Directory)
    requires forall s <- batch :: s in sensors
    requires IndexHolds(engine.rows) && Distinct(batch) && DistinctRules(rules)
    modifies engine
    ensures engine.View() == Evaluate(engine.clock, old(engine.View()), rules, org, device, batch, sensors, dir)
    ensures engine.View()
            == Run(engine.clock, old(engine.View()), EvaluationOps(rules, org, device, batch, sensors, dir))
  {
    EvaluationIsRun(engine.clock, engine.View(), rules, org, device, batch, sensors, dir);
    if batch == [] {
      NothingToEvaluate(engine.clock, engine.View(), rules, org, device, sensors, dir);
      return;
    }
    for i := 0 to |rules|
      invariant engine.View()
                == Evaluate(engine.clock, old(engine.View()), rules[..i], org, device, batch, sensors, dir)
    {
      assert rules[..i + 1][..i] == rules[..i];
      EvaluateKeepsIndex(engine.clock, old(engine.View()), rules[..i], org, device, batch, sensors, dir);
      if Evaluated(rules[i], org, device, batch) {
        ScopedAreKnown(rules[i], batch, sensors);
        EvaluateRule(engine, rules[i], device, SensorsForRule(rules[i], batch, sensors), sensors, dir);
      }
    }
    assert rules[..|rules|] == rules;
  }

  /** The inner loop, over the sensors of one rule. */
  method EvaluateRule(
    engine: AlertEngine, r: Rule, device: Serial, ids: seq<SensorId>, sensors: map<SensorId, Sensor>, dir: Directory)
    requires forall s <- ids :: s in sensors
    requires OneOpen(engine.rows, KeyOf(r, device))
    modifies engine
    ensures engine.View() == JudgeAll(engine.clock, old(engine.View()), r, device, ids, sensors, dir)
  {
    for j := 0 to |ids|
      invariant engine.View() == JudgeAll(engine.clock, old(engine.View()), r, device, ids[..j], sensors, dir)
    {
      assert ids[..j + 1][..j] == ids[..j];
      JudgeAllDecides(engine.clock, old(engine.View()), r, device, ids[..j], sensors, dir);
      var s := sensors[ids[j]];
      if s.lastValue.Some? {
        if Matches(r, s.lastValue) {
          RaiseOutcome(engine.clock, engine.View(), Breach(r, device, ids[j], s), r.channels, dir);
          var outcome := engine.RaiseAlert(Breach(r, device, ids[j], s), r.channels, dir);
          assert !outcome.Failed?;
        } else {
          engine.AutoResolveAlerts(KeyOf(r, device));
        }
      }
    }
    assert ids[..|ids|] == ids;
  }

  lemma {:induction false} NothingToEvaluate(
    clock: Clock, db: Db, rules: seq<Rule>, org: OrgId, device: Serial, sensors: map<SensorId, Sensor>, dir: Directory)
    ensures Evaluate(clock, db, rules, org, device, [], sensors, dir) == db
  {
    if rules != [] {
      NothingToEvaluate(clock, db, rules[..|rules| - 1], org, device, sensors, dir);
      assert OfType([], sensors, rules[|rules| - 1].sensorType) == [];
    }
  }

  /** The sensor query's answer: the batch's sensors, each once, in the database's order. */
  ghost predicate FetchedFor(order: seq<SensorId>, b: Telemetry.Batch) {
    && Distinct(order)
    && forall id :: id in order <==> id.device == b.serial && Telemetry.LastFor(b.readings, id.key).Some?
  }

  /** What the batch reports for a sensor, as a number. */
  function Reported(b: Telemetry.Batch, id: SensorId): Option<real> {
    match Telemetry.LastFor(b.readings, id.key)
    case None => None
    case Some(raw) => Telemetry.Coerce(raw).number
  }

  /** The sensors, each with what the batch reports for it. */
  function Reports(b: Telemetry.Batch, ids: seq<SensorId>): seq<(SensorId, Option<real>)> {
    if ids == [] then []
    else
      var id := ids[|ids| - 1];
      Reports(b, ids[..|ids| - 1]) + [(id, Reported(b, id))]
  }

  /** After a completed ingest the fetched sensors hold what the batch reports. */
  lemma FetchedHoldBatch(store: Telemetry.Store, b: Telemetry.Batch, now: Time, order: seq<SensorId>)
    requires Telemetry.Ingest(store, b, now).1.Stored? && FetchedFor(order, b)
    ensures var sensors := Telemetry.Ingest(store, b, now).0.sensors;
            forall id <- order :: id in sensors && sensors[id].lastValue == Reported(b, id)
  {
    assert b.readings[..|b.readings|] == b.readings;
    forall id | id in order
      ensures var sensors := Telemetry.Ingest(store, b, now).0.sensors;
              id in sensors && sensors[id].lastValue == Reported(b, id)
    {
      Telemetry.WrittenAt(store.sensors, b.serial, b.readings, Telemetry.TimeOf(b, now), id);
    }
  }

  lemma {:induction false} SameReports(b: Telemetry.Batch, ids: seq<SensorId>, sensors: map<SensorId, Sensor>)
    requires forall id <- ids :: id in sensors && sensors[id].lastValue == Reported(b, id)
    ensures Looked(ids, sensors) == Reports(b, ids)
  {
    if ids != [] {
      SameReports(b, ids[..|ids| - 1], sensors);
    }
  }

  /** What the batch reports for the sensors a rule looks at, in the order of the sensor query. */
  function Concerning(
    r: Rule, org: OrgId, b: Telemetry.Batch, order: seq<SensorId>, sensors: map<SensorId, Sensor>)
    : seq<(SensorId, Option<real>)>
    requires forall s <- order :: s in sensors
  {
    if r.org == org && r.active && r.source.SensorReading?
    then Reports(b, Scoped(r, b.serial, order, sensors))
    else []
  }

  lemma {:induction false} ScopedAreFetched(
    r: Rule, device: Serial, batch: seq<SensorId>, sensors: map<SensorId, Sensor>)
    requires forall s <- batch :: s in sensors
    ensures forall s <- Scoped(r, device, batch, sensors) :: s in batch
  {
    if batch != [] {
      ScopedAreFetched(r, device, batch[..|batch| - 1], sensors);
    }
  }

  /**
   Main result, end to end: after a completed ingest and the evaluation it triggers, every rule in
   whose scope the batch reports a number has a live open alert for the device exactly when the
   last such number matches (and no soft-deleted open row blocks the key), holding that number;
   the alerts of every other rule are untouched.
   */
  lemma BatchDecidesAlerts(
    clock: Clock, db: Db, store: Telemetry.Store, b: Telemetry.Batch, now: Time, order: seq<SensorId>,
    rules: seq<Rule>, dir: Directory)
    requires IndexHolds(db.rows) && DistinctRules(rules)
    requires Telemetry.Ingest(store, b, now).1.Stored? && FetchedFor(order, b)
    ensures var sensors := Telemetry.Ingest(store, b, now).0.sensors;
            && (forall id <- order :: id in sensors)
            && var org := store.devices[b.serial].org;
               var after := Evaluate(clock, db, rules, org, b.serial, order, sensors, dir);
               forall r <- rules ::
                 var k, seen := AlertKey(Some(r.id), Some(b.serial)), Concerning(r, org, b, order, sensors);
                 DecidedFor(db, after, r, k, seen) && AddedBearRule(db.rows, after.rows, r, k, seen)
  {
    var sensors, org := Telemetry.Ingest(store, b, now).0.sensors, store.devices[b.serial].org;
    FetchedHoldBatch(store, b, now, order);
    EvaluateDecides(clock, db, rules, org, b.serial, order, sensors, dir);
    forall r | r in rules
      ensures SeenFor(r, org, b.serial, order, sensors) == Concerning(r, org, b, order, sensors)
    {
      ScopedAreFetched(r, b.serial, order, sensors);
      ScopedKnown(r, b.serial, order, sensors);
      SameReports(b, Scoped(r, b.serial, order, sensors), sensors);
    }
  }

  /** The single write path: persist the batch, then evaluate the rules it concerns. */
  method IngestPayload(
    store: Telemetry.TelemetryStore, engine: AlertEngine, b: Telemetry.Batch, order: seq<SensorId>,
    rules: seq<Rule>, dir: Directory, now: Time)
    returns (result: Telemetry.IngestResult)
    requires IndexHolds(engine.rows) && DistinctRules(rules) && FetchedFor(order, b)
    modifies store, engine
    ensures (store.View(), result) == Telemetry.Ingest(old(store.View()), b, now)
    ensures !result.Stored? ==> engine.View() == old(engine.View())
    ensures result.Stored? ==>
              && b.serial in store.devices && IndexHolds(engine.rows)
              && (forall id <- order :: id in store.sensors)
              && forall r <- rules ::
                   var k := AlertKey(Some(r.id), Some(b.serial));
                   var seen := Concerning(r, store.devices[b.serial].org, b, order, store.sensors);
                   && DecidedFor(old(engine.View()), engine.View(), r, k, seen)
                   && AddedBearRule(old(engine.rows), engine.rows, r, k, seen)
  {
    result := store.IngestPayload(b, now);
    if result.Stored? {
      FetchedHoldBatch(old(store.View()), b, now, order);
      BatchDecidesAlerts(engine.clock, engine.View(), old(store.View()), b, now, order, rules, dir);
      var org := store.devices[b.serial].org;
      EvaluateKeepsIndex(engine.clock, engine.View(), rules, org, b.serial, order, store.sensors, dir);
      EvaluateDeviceReadings(engine, rules, org, b.serial, order, store.sensors, dir);
    }
  }
}
