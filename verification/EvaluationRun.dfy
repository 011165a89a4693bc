/** An evaluation is a serial run of the alert service: what it raises and what it auto-resolves. */
module EvaluationRun {
  import opened Options
  import opened Alerts
  import opened AlertService
  import opened Rules
  import opened Evaluation

  /** What a rule has the service do about one sensor, column by column. */
  function OpsFor(r: Rule, device: Serial, id: SensorId, s: Sensor, dir: Directory): seq<Op> {
    var key := AlertKey(rule := Some(r.id), device := Some(device));
    if s.lastValue.None? then []
    else if Matches(r, s.lastValue) then
      [DoRaise(
         Request(
           key := key, org := r.org, sensor := Some(id), severity := r.severity,
           title := s.name + " " + Sign(r.operator), message := s.name + " reading breached threshold.",
           value := s.lastValue, cooldown := Some(r.cooldown)),
         r.channels, dir)]
    else [DoAutoResolve(key)]
  }

  /** The sensors in turn. */
  function SensorOps(
    r: Rule, device: Serial, ids: seq<SensorId>, sensors: map<SensorId, Sensor>, dir: Directory): seq<Op>
    requires forall s <- ids :: s in sensors
    decreases |ids|
  {
    if ids == [] then []
    else
      var id := ids[|ids| - 1];
      SensorOps(r, device, ids[..|ids| - 1], sensors, dir) + OpsFor(r, device, id, sensors[id], dir)
  }

  /** A rule is looked at if it is an active sensor rule of the organisation, on the sensors in its scope. */
  function RuleOps(
    r: Rule, org: OrgId, device: Serial, batch: seq<SensorId>, sensors: map<SensorId, Sensor>, dir: Directory): seq<Op>
    requires forall s <- batch :: s in sensors
  {
    if r.org == org && r.active && r.source == SensorReading
    then
      ScopedKnown(r, device, batch, sensors);
      SensorOps(r, device, Scoped(r, device, batch, sensors), sensors, dir)
    else []
  }

  function EvaluationOps(
    rules: seq<Rule>, org: OrgId, device: Serial, batch: seq<SensorId>, sensors: map<SensorId, Sensor>,
    dir: Directory): seq<Op>
    requires forall s <- batch :: s in sensors
    decreases |rules|
  {
    if rules == [] then []
    else
      EvaluationOps(rules[..|rules| - 1], org, device, batch, sensors, dir)
      + RuleOps(rules[|rules| - 1], org, device, batch, sensors, dir)
  }

  lemma {:induction false} RunInTwo(clock: Clock, db: Db, a: seq<Op>, b: seq<Op>)
    ensures Run(clock, db, a + b) == Run(clock, Run(clock, db, a), b)
  {
    if b == [] {
      assert a + b == a;
    } else {
      assert (a + b)[..|a + b| - 1] == a + b[..|b| - 1];
      RunInTwo(clock, db, a, b[..|b| - 1]);
    }
  }

  lemma JudgeIsRun(clock: Clock, db: Db, r: Rule, device: Serial, id: SensorId, s: Sensor, dir: Directory)
    ensures Judge(clock, db, r, device, id, s, dir) == Run(clock, db, OpsFor(r, device, id, s, dir))
  {
    var ops := OpsFor(r, device, id, s, dir);
    if ops != [] {
      assert ops[..|ops| - 1] == [];
      assert Run(clock, db, ops) == Step(clock, db, ops[0]);
    }
  }

  lemma {:induction false} JudgeAllIsRun(
    clock: Clock, db: Db, r: Rule, device: Serial, ids: seq<SensorId>, sensors: map<SensorId, Sensor>, dir: Directory)
    requires forall s <- ids :: s in sensors
    ensures JudgeAll(clock, db, r, device, ids, sensors, dir)
            == Run(clock, db, SensorOps(r, device, ids, sensors, dir))
    decreases |ids|
  {
    if ids != [] {
      var front, id := ids[..|ids| - 1], ids[|ids| - 1];
      JudgeAllIsRun(clock, db, r, device, front, sensors, dir);
      JudgeIsRun(clock, JudgeAll(clock, db, r, device, front, sensors, dir), r, device, id, sensors[id], dir);
      RunInTwo(clock, db, SensorOps(r, device, front, sensors, dir), OpsFor(r, device, id, sensors[id], dir));
    }
  }

  lemma OneRuleIsRun(
    clock: Clock, db: Db, r: Rule, org: OrgId, device: Serial, batch: seq<SensorId>, sensors: map<SensorId, Sensor>,
    dir: Directory)
    requires Distinct(batch) && forall s <- batch :: s in sensors
    ensures OneRule(clock, db, r, org, device, batch, sensors, dir)
            == Run(clock, db, RuleOps(r, org, device, batch, sensors, dir))
  {
    LookupIsExact(r, device, batch, sensors);
    if r.org == org && r.active && r.source == SensorReading {
      ScopedKnown(r, device, batch, sensors);
      JudgeAllIsRun(clock, db, r, device, Scoped(r, device, batch, sensors), sensors, dir);
    }
  }

  /**
   Main result: the evaluation is the serial run of exactly these operations, so that all that holds
   of serial runs (edges, stories, cooldowns) holds of evaluations.
   */
  lemma {:induction false} EvaluationIsRun(
    clock: Clock, db: Db, rules: seq<Rule>, org: OrgId, device: Serial, batch: seq<SensorId>,
    sensors: map<SensorId, Sensor>, dir: Directory)
    requires Distinct(batch) && forall s <- batch :: s in sensors
    ensures Evaluate(clock, db, rules, org, device, batch, sensors, dir)
            == Run(clock, db, EvaluationOps(rules, org, device, batch, sensors, dir))
    decreases |rules|
  {
    if rules != [] {
      var front, r := rules[..|rules| - 1], rules[|rules| - 1];
      EvaluationIsRun(clock, db, front, org, device, batch, sensors, dir);
      EvaluateOneMore(clock, db, rules, org, device, batch, sensors, dir);
      OneRuleIsRun(clock, Evaluate(clock, db, front, org, device, batch, sensors, dir), r, org, device, batch, sensors,
                   dir);
      RunInTwo(clock, db, EvaluationOps(front, org, device, batch, sensors, dir),
               RuleOps(r, org, device, batch, sensors, dir));
    }
  }
}
