/**
 Alert rules: the comparison, the two-stage lookup of the rules a batch of readings concerns, and
 the evaluation of a device's fresh readings.
 */
module Rules {
  import opened Options
  import opened Alerts
  import opened AlertService

  datatype Source = SensorReading | Battery | Offline | Health

  /** `Other` is any text the operator table does not list. */
  datatype Operator = Gt | Gte | Lt | Lte | Eq | Neq | Other

  /** A live rule; `channels` are its live notify channels. */
  datatype Rule = Rule(
    id: RuleId, org: OrgId, active: bool, severity: Severity, source: Source,
    device: Option<Serial>, sensor: Option<SensorId>, sensorType: string,
    operator: Operator, threshold: Option<real>, cooldown: nat, channels: seq<Channel>)

  datatype Sensor = Sensor(
    name: string, sensorType: string, deleted: bool,
    lastValue: Option<real>, lastText: string, lastAt: Option<Time>)

  function Matches(r: Rule, value: Option<real>): bool {
    if r.threshold.None? || value.None? then false
    else
      var v, t := value.value, r.threshold.value;
      match r.operator
      case Gt => v > t
      case Gte => v >= t
      case Lt => v < t
      case Lte => v <= t
      case Eq => v == t
      case Neq => v != t
      case Other => false
  }

  /** The six operators divide the values around the threshold; without both numbers nothing matches. */
  lemma OperatorsDivide(r: Rule, v: real, t: real)
    ensures var at := (op: Operator) => Matches(r.(operator := op, threshold := Some(t)), Some(v));
            && (v > t ==> at(Gt) && !at(Lt) && !at(Eq)) && (v < t ==> at(Lt) && !at(Gt) && !at(Eq))
            && (v == t ==> at(Eq) && !at(Gt) && !at(Lt))
            && at(Lte) == !at(Gt) && at(Gte) == !at(Lt) && at(Neq) == !at(Eq) && !at(Other)
    ensures !Matches(r, None) && !Matches(r.(threshold := None), Some(v))
  {
  }

  // ---- The two-stage lookup ---------------------------------------------------------------

  /** The database filter. */
  predicate Prefilter(r: Rule, device: Serial, batch: seq<SensorId>) {
    || (r.sensor.Some? && r.sensor.value in batch)
    || (r.device == Some(device) && r.sensor.None?)
    || (r.device.None? && (r.sensorType == "" || r.sensor.None?))
  }

  /** The batch's sensors of the rule's type. */
  function OfType(batch: seq<SensorId>, sensors: map<SensorId, Sensor>, sensorType: string): seq<SensorId>
    requires forall s <- batch :: s in sensors
  {
    if batch == [] then []
    else
      var s := batch[|batch| - 1];
      OfType(batch[..|batch| - 1], sensors, sensorType) + if sensors[s].sensorType == sensorType then [s] else []
  }

  /** The second stage, in memory; `batch` is in the order the sensors were fetched. */
  function SensorsForRule(r: Rule, batch: seq<SensorId>, sensors: map<SensorId, Sensor>): seq<SensorId>
    requires forall s <- batch :: s in sensors
  {
    if r.sensor.Some? then if r.sensor.value in batch then [r.sensor.value] else []
    else if r.sensorType != "" then OfType(batch, sensors, r.sensorType)
    else batch
  }

  /** The scope a rule's columns are documented to describe. */
  predicate InScope(r: Rule, device: Serial, id: SensorId, s: Sensor) {
    if r.sensor.Some? then r.sensor.value == id
    else (r.device.None? || r.device.value == device) && (r.sensorType == "" || r.sensorType == s.sensorType)
  }

  function Scoped(r: Rule, device: Serial, batch: seq<SensorId>, sensors: map<SensorId, Sensor>): seq<SensorId>
    requires forall s <- batch :: s in sensors
  {
    if batch == [] then []
    else
      var s := batch[|batch| - 1];
      Scoped(r, device, batch[..|batch| - 1], sensors) + if InScope(r, device, s, sensors[s]) then [s] else []
  }

  ghost predicate Distinct(batch: seq<SensorId>) {
    forall i, j :: 0 <= i < j < |batch| ==> batch[i] != batch[j]
  }

  /** The sensors the two stages give the rule. */
  function Selected(r: Rule, device: Serial, batch: seq<SensorId>, sensors: map<SensorId, Sensor>): seq<SensorId>
    requires forall s <- batch :: s in sensors
  {
    if Prefilter(r, device, batch) then SensorsForRule(r, batch, sensors) else []
  }

  lemma {:induction false} BoundScope(r: Rule, device: Serial, batch: seq<SensorId>, sensors: map<SensorId, Sensor>)
    requires forall s <- batch :: s in sensors
    requires Distinct(batch) && r.sensor.Some?
    ensures Scoped(r, device, batch, sensors) == if r.sensor.value in batch then [r.sensor.value] else []
  {
    if batch != [] {
      var front, last := batch[..|batch| - 1], batch[|batch| - 1];
      assert batch == front + [last];
      BoundScope(r, device, front, sensors);
      assert r.sensor.value in front ==> last != r.sensor.value;
    }
  }

  lemma {:induction false} UnboundScope(r: Rule, device: Serial, batch: seq<SensorId>, sensors: map<SensorId, Sensor>)
    requires forall s <- batch :: s in sensors
    requires r.sensor.None?
    ensures Scoped(r, device, batch, sensors)
            == if r.device.Some? && r.device.value != device then [] else SensorsForRule(r, batch, sensors)
  {
    if batch != [] {
      UnboundScope(r, device, batch[..|batch| - 1], sensors);
      assert batch == batch[..|batch| - 1] + [batch[|batch| - 1]];
    }
  }

  /** The prefilter neither loses nor adds a pair: the two stages give exactly the scope, in order. */
  lemma {:induction false} LookupIsExact(r: Rule, device: Serial, batch: seq<SensorId>, sensors: map<SensorId, Sensor>)
    requires forall s <- batch :: s in sensors
    requires Distinct(batch)
    ensures Selected(r, device, batch, sensors) == Scoped(r, device, batch, sensors)
  {
    if r.sensor.Some? {
      BoundScope(r, device, batch, sensors);
    } else {
      UnboundScope(r, device, batch, sensors);
    }
  }

  // ---- Evaluation -------------------------------------------------------------------------

  function KeyOf(r: Rule, device: Serial): AlertKey {
    AlertKey(Some(r.id), Some(device))
  }

  function Sign(op: Operator): string {
    match op
    case Gt => ">"
    case Gte => "≥"
    case Lt => "<"
    case Lte => "≤"
    case Eq => "="
    case Neq => "≠"
    case Other => ""
  }

  /** The sign in an alert's title is the comparison that was made. */
  lemma SignIsComparison(r: Rule, v: real)
    ensures Matches(r, Some(v)) <==>
            r.threshold.Some? && var t, sign := r.threshold.value, Sign(r.operator);
            || (sign == ">" && v > t) || (sign == "≥" && v >= t) || (sign == "<" && v < t)
            || (sign == "≤" && v <= t) || (sign == "=" && v == t) || (sign == "≠" && v != t)
  {
  }

  /** The call a breached rule makes; numbers are not rendered into its texts. */
  function Breach(r: Rule, device: Serial, id: SensorId, s: Sensor): Request {
    Request(KeyOf(r, device), r.org, Some(id), r.severity, s.name + " " + Sign(r.operator),
            s.name + " reading breached threshold.", s.lastValue, Some(r.cooldown))
  }

  /** One rule on one sensor. */
  function Judge(clock: Clock, db: Db, r: Rule, device: Serial, id: SensorId, s: Sensor, dir: Directory): Db {
    if s.lastValue.None? then db
    else if Matches(r, s.lastValue) then Raise(clock, db, Breach(r, device, id, s), r.channels, dir).0
    else AutoResolve(clock, db, KeyOf(r, device))
  }

  function JudgeAll(clock: Clock, db: Db, r: Rule, device: Serial, ids: seq<SensorId>,
                    sensors: map<SensorId, Sensor>, dir: Directory): Db
    requires forall s <- ids :: s in sensors
    decreases |ids|
  {
    if ids == [] then db
    else
      var front, id := ids[..|ids| - 1], ids[|ids| - 1];
      Judge(clock, JudgeAll(clock, db, r, device, front, sensors, dir), r, device, id, sensors[id], dir)
  }

  /** The rules the query returns. */
  predicate Evaluated(r: Rule, org: OrgId, device: Serial, batch: seq<SensorId>) {
    r.org == org && r.active && r.source.SensorReading? && Prefilter(r, device, batch)
  }

  function Evaluate(clock: Clock, db: Db, rules: seq<Rule>, org: OrgId, device: Serial, batch: seq<SensorId>,
                    sensors: map<SensorId, Sensor>, dir: Directory): Db
    requires forall s <- batch :: s in sensors
    decreases |rules|
  {
    if rules == [] then db
    else
      var r := rules[|rules| - 1];
      var before := Evaluate(clock, db, rules[..|rules| - 1], org, device, batch, sensors, dir);
      if Evaluated(r, org, device, batch)
      then
        ScopedAreKnown(r, batch, sensors);
        JudgeAll(clock, before, r, device, SensorsForRule(r, batch, sensors), sensors, dir)
      else before
  }

  lemma {:induction false} ScopedAreKnown(r: Rule, batch: seq<SensorId>, sensors: map<SensorId, Sensor>)
    requires forall s <- batch :: s in sensors
    ensures forall s <- SensorsForRule(r, batch, sensors) :: s in sensors
  {
    OfTypeAreKnown(batch, sensors, r.sensorType);
  }

  lemma {:induction false} OfTypeAreKnown(batch: seq<SensorId>, sensors: map<SensorId, Sensor>, sensorType: string)
    requires forall s <- batch :: s in sensors
    ensures forall s <- OfType(batch, sensors, sensorType) :: s in sensors
  {
    if batch != [] {
      OfTypeAreKnown(batch[..|batch| - 1], sensors, sensorType);
    }
  }
}
