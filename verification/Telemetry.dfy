/**
 Telemetry ingestion and retention. Devices and sensors are live rows keyed by serial and by
 (serial, payload key), the columns that are unique in the database; a soft-deleted sensor keeps
 its key. Readings are appended and, past the retention window, purged.
 */
module Telemetry {
  import opened Options
  import Alerts
  import opened Rules

  type Time = Alerts.Time
  type Serial = Alerts.Serial
  type SensorId = Alerts.SensorId

  datatype DeviceStatus = Provisioning | Online | Offline | Degraded | Maintenance | Faulty | Decommissioned

  datatype Device = Device(
    name: string, org: Alerts.OrgId, status: DeviceStatus, lastSeen: Option<Time>,
    battery: Option<real>, signal: Option<int>, health: real, firmware: string, ip: Option<string>,
    latitude: Option<real>, longitude: Option<real>, altitude: Option<real>)

  /** A parsed JSON value; text that reads as a number is told apart from other text. */
  datatype Raw = Flag(b: bool) | Number(x: real) | NumericText(x: real) | Text(s: string) | Null | Structure(json: Json)

  datatype Coerced = Coerced(number: Option<real>, text: Option<string>, json: Option<Json>)

  /** The number a raw value stands for, if it stands for one. */
  predicate ReadsAs(raw: Raw, x: real) {
    || raw == Number(x) || raw == NumericText(x)
    || (raw == Flag(true) && x == 1.0) || (raw == Flag(false) && x == 0.0)
  }

  /**
   Exactly one of the three buckets is filled: the number with what the value reads as, the JSON
   with a structure, the text with any other value.
   */
  function Coerce(raw: Raw): (c: Coerced)
    ensures c.number.Some? <==> c.text.None? && c.json.None?
    ensures !(c.text.Some? && c.json.Some?)
    ensures forall x :: c.number == Some(x) <==> ReadsAs(raw, x)
    ensures forall doc :: c.json == Some(doc) <==> raw == Structure(doc)
    ensures forall words :: raw == Text(words) ==> c.text == Some(words)
    ensures raw.Null? ==> c.text == Some("None")
  {
    match raw
    case Flag(b) => Coerced(Some(if b then 1.0 else 0.0), None, None)
    case Number(x) => Coerced(Some(x), None, None)
    case NumericText(x) => Coerced(Some(x), None, None)
    case Text(s) => Coerced(None, Some(s), None)
    case Null => Coerced(None, Some("None"), None)
    case Structure(json) => Coerced(None, None, Some(json))
  }

  datatype Position = Position(lat: Option<real>, lon: Option<real>, alt: Option<real>)

  /** A device's batch. A field that is present may still be null; `position` needs both lat and lon. */
  datatype Batch = Batch(
    serial: Serial, time: Option<Time>, readings: seq<(string, Raw)>,
    battery: Option<Option<real>>, signal: Option<Option<int>>, position: Option<Position>)

  datatype Reading = Reading(
    id: nat, sensor: SensorId, time: Time, value: Option<real>, text: string, json: Option<Json>)

  datatype IngestResult = UnknownDevice | KeyRetired(key: string) | Stored(count: nat)

  datatype Store = Store(
    devices: map<Serial, Device>, sensors: map<SensorId, Sensor>, readings: seq<Reading>, nextId: nat)

  // ---- What one batch does ----------------------------------------------------------------

  /** A sign of life brings an offline or provisioning device online. */
  function Arrived(st: DeviceStatus): DeviceStatus {
    if st.Offline? || st.Provisioning? then Online else st
  }

  function Touched(d: Device, b: Batch, ts: Time): Device {
    Device(
      d.name, d.org,
      Arrived(d.status),
      Some(ts),
      if b.battery.Some? then b.battery.value else d.battery,
      if b.signal.Some? then b.signal.value else d.signal,
      d.health, d.firmware, d.ip,
      if b.position.Some? then b.position.value.lat else d.latitude,
      if b.position.Some? then b.position.value.lon else d.longitude,
      if b.position.Some? then b.position.value.alt else d.altitude)
  }

  function TextOf(c: Coerced): string {
    if c.text.Some? then c.text.value else ""
  }

  /** The number, text and JSON kept of a raw value: one of them, the text empty if it is another. */
  ghost predicate KeptAs(raw: Raw, number: Option<real>, text: string, json: Option<Json>) {
    match raw
    case Flag(b) => number == Some(if b then 1.0 else 0.0) && text == "" && json == None
    case Number(x) => number == Some(x) && text == "" && json == None
    case NumericText(x) => number == Some(x) && text == "" && json == None
    case Text(s) => number == None && text == s && json == None
    case Null => number == None && text == "None" && json == None
    case Structure(doc) => number == None && text == "" && json == Some(doc)
  }

  /** The row keeps the raw value of its key, for the device's sensor of that key, at the batch's time. */
  ghost predicate StoresRaw(row: Reading, serial: Serial, r: (string, Raw), ts: Time) {
    && row.sensor.device == serial && row.sensor.key == r.0 && row.time == ts
    && KeptAs(r.1, row.value, row.text, row.json)
  }

  lemma RowStores(serial: Serial, r: (string, Raw), ts: Time, id: nat)
    ensures StoresRaw(RowFor(serial, r, ts, id), serial, r, ts)
  {
    match r.1
    case Flag(_) =>
    case Number(_) =>
    case NumericText(_) =>
    case Text(_) =>
    case Null =>
    case Structure(_) =>
  }

  lemma RowsStore(serial: Serial, rs: seq<(string, Raw)>, ts: Time, nextId: nat, n: nat)
    requires n <= |rs|
    ensures forall i :: 0 <= i < n ==> StoresRaw(RowsFor(serial, rs[..n], ts, nextId)[i], serial, rs[i], ts)
  {
    forall i | 0 <= i < n ensures StoresRaw(RowsFor(serial, rs[..n], ts, nextId)[i], serial, rs[i], ts) {
      RowStores(serial, rs[i], ts, nextId + i);
    }
  }

  function Lower(s: string): string {
    seq(|s|, i requires 0 <= i < |s| => if 'A' <= s[i] <= 'Z' then s[i] - 'A' + 'a' else s[i])
  }

  predicate Contains(s: string, needle: string) {
    exists i :: 0 <= i <= |s| && needle <= s[i..]
  }

  /** The needles in the order in which they are looked for, each with its type. */
  const NEEDLES: seq<(string, string)> :=
    [("temp", "temperature"), ("humid", "humidity"), ("motion", "motion"), ("gps", "gps"), ("batt", "battery"),
     ("press", "pressure"), ("light", "light"), ("lux", "light"), ("gas", "gas"), ("co2", "gas"),
     ("heart", "heart_rate"), ("hr", "heart_rate"), ("vib", "vibration")]

  function TypeByNeedle(needles: seq<(string, string)>, k: string): string {
    if needles == [] then "custom"
    else if Contains(k, needles[0].0) then needles[0].1
    else TypeByNeedle(needles[1..], k)
  }

  /** The type of a new sensor, guessed from its key. */
  function GuessType(key: string): string {
    TypeByNeedle(NEEDLES, Lower(key))
  }

  /** The first needle that occurs decides. */
  lemma {:induction false} FirstNeedleDecides(needles: seq<(string, string)>, k: string, j: nat)
    requires j <= |needles| && forall i :: 0 <= i < j ==> !Contains(k, needles[i].0)
    requires j < |needles| ==> Contains(k, needles[j].0)
    ensures TypeByNeedle(needles, k) == if j < |needles| then needles[j].1 else "custom"
  {
    if 0 < j {
      FirstNeedleDecides(needles[1..], k, j - 1);
    }
  }

  function NewSensor(key: string): Sensor {
    Sensor(key, GuessType(key), false, None, "", None)
  }

  /** The sensor the loop works on: the one it found, or the one it creates. */
  function SensorFor(sensors: map<SensorId, Sensor>, id: SensorId): Sensor {
    if id in sensors then sensors[id] else NewSensor(id.key)
  }

  function Latest(s: Sensor, raw: Raw, ts: Time): Sensor {
    s.(lastValue := Coerce(raw).number, lastText := TextOf(Coerce(raw)), lastAt := Some(ts))
  }

  /** Creating a sensor fails on the unique key when a soft-deleted one holds it. */
  predicate Retired(sensors: map<SensorId, Sensor>, id: SensorId) {
    id in sensors && sensors[id].deleted
  }

  function IdOf(serial: Serial, reading: (string, Raw)): SensorId {
    Alerts.SensorId(serial, reading.0)
  }

  function WriteSensors(
    sensors: map<SensorId, Sensor>, serial: Serial, rs: seq<(string, Raw)>, ts: Time): map<SensorId, Sensor>
  {
    if rs == [] then sensors
    else
      var before, r := WriteSensors(sensors, serial, rs[..|rs| - 1], ts), rs[|rs| - 1];
      before[IdOf(serial, r) := Latest(SensorFor(before, IdOf(serial, r)), r.1, ts)]
  }

  /** How many readings the loop gets through. */
  function Accepted(sensors: map<SensorId, Sensor>, serial: Serial, rs: seq<(string, Raw)>): (n: nat)
    ensures n <= |rs|
    ensures forall i :: 0 <= i < n ==> !Retired(sensors, IdOf(serial, rs[i]))
    ensures n < |rs| ==> Retired(sensors, IdOf(serial, rs[n]))
  {
    if rs == [] then 0
    else if Retired(sensors, IdOf(serial, rs[0])) then 0
    else 1 + Accepted(sensors, serial, rs[1..])
  }

  function RowFor(serial: Serial, r: (string, Raw), ts: Time, id: nat): Reading {
    var c := Coerce(r.1);
    Reading(id, IdOf(serial, r), ts, c.number, TextOf(c), c.json)
  }

  function RowsFor(serial: Serial, rs: seq<(string, Raw)>, ts: Time, nextId: nat): (rows: seq<Reading>)
    ensures |rows| == |rs|
    ensures forall i :: 0 <= i < |rs| ==> rows[i] == RowFor(serial, rs[i], ts, nextId + i)
  {
    seq(|rs|, i requires 0 <= i < |rs| => RowFor(serial, rs[i], ts, nextId + i))
  }

  function TimeOf(b: Batch, now: Time): Time {
    if b.time.Some? then b.time.value else now
  }

  /** The readings reach the stream only when the loop over them completes. */
  function Ingest(store: Store, b: Batch, now: Time): (Store, IngestResult) {
    if b.serial !in store.devices then (store, UnknownDevice)
    else
      var ts := TimeOf(b, now);
      var n := Accepted(store.sensors, b.serial, b.readings);
      var devices := store.devices[b.serial := Touched(store.devices[b.serial], b, ts)];
      var sensors := WriteSensors(store.sensors, b.serial, b.readings[..n], ts);
      if n < |b.readings| then (Store(devices, sensors, store.readings, store.nextId), KeyRetired(b.readings[n].0))
      else (Store(devices, sensors, store.readings + RowsFor(b.serial, b.readings, ts, store.nextId), store.nextId + n),
            Stored(n))
  }

  /** What the steps before the readings are stored leave of a known device's batch. */
  ghost predicate Written(before: Store, after: Store, b: Batch, ts: Time, rows: seq<Reading>, retired: Option<string>)
    requires b.serial in before.devices
  {
    var n := Accepted(before.sensors, b.serial, b.readings);
    && after.devices == before.devices[b.serial := Touched(before.devices[b.serial], b, ts)]
    && after.sensors == WriteSensors(before.sensors, b.serial, b.readings[..n], ts)
    && rows == RowsFor(b.serial, b.readings[..n], ts, before.nextId)
    && retired == if n < |b.readings| then Some(b.readings[n].0) else None
  }

  lemma AbortedIngest(before: Store, after: Store, b: Batch, now: Time, rows: seq<Reading>, retired: Option<string>)
    requires b.serial in before.devices && Written(before, after, b, TimeOf(b, now), rows, retired) && retired.Some?
    requires after.readings == before.readings && after.nextId == before.nextId
    ensures (after, KeyRetired(retired.value)) == Ingest(before, b, now)
  {
  }

  lemma CompletedIngest(before: Store, after: Store, b: Batch, now: Time, rows: seq<Reading>)
    requires b.serial in before.devices && Written(before, after, b, TimeOf(b, now), rows, None)
    requires after.readings == before.readings + rows && after.nextId == before.nextId + |rows|
    ensures (after, Stored(|rows|)) == Ingest(before, b, now)
  {
    assert b.readings[..|b.readings|] == b.readings;
  }

  // ---- The sensors a batch writes ---------------------------------------------------------

  /** The last raw value the readings hold for a key. */
  function LastFor(rs: seq<(string, Raw)>, key: string): Option<Raw> {
    if rs == [] then None
    else if rs[|rs| - 1].0 == key then Some(rs[|rs| - 1].1)
    else LastFor(rs[..|rs| - 1], key)
  }

  /** What a sensor becomes: the last value for its key, or nothing new. */
  function WrittenSensor(
    sensors: map<SensorId, Sensor>, serial: Serial, rs: seq<(string, Raw)>, ts: Time, id: SensorId): Option<Sensor>
  {
    if id.device == serial && LastFor(rs, id.key).Some?
    then Some(Latest(SensorFor(sensors, id), LastFor(rs, id.key).value, ts))
    else if id in sensors then Some(sensors[id])
    else None
  }

  predicate IsAt<K, V(==)>(m: map<K, V>, k: K, v: Option<V>) {
    if k in m then v == Some(m[k]) else v.None?
  }

  lemma {:induction false} WrittenAt(
    sensors: map<SensorId, Sensor>, serial: Serial, rs: seq<(string, Raw)>, ts: Time, id: SensorId)
    ensures IsAt(WriteSensors(sensors, serial, rs, ts), id, WrittenSensor(sensors, serial, rs, ts, id))
  {
    if rs != [] {
      WrittenAt(sensors, serial, rs[..|rs| - 1], ts, id);
    }
  }

  /** So it shows the last value for its key as that is kept, and if the batch created it, bears the key as its name. */
  lemma SensorShowsLast(
    sensors: map<SensorId, Sensor>, serial: Serial, rs: seq<(string, Raw)>, ts: Time, id: SensorId)
    requires id.device == serial && LastFor(rs, id.key).Some?
    ensures id in WriteSensors(sensors, serial, rs, ts)
    ensures var s, raw := WriteSensors(sensors, serial, rs, ts)[id], LastFor(rs, id.key).value;
            && s.lastAt == Some(ts) && (exists json :: KeptAs(raw, s.lastValue, s.lastText, json))
            && if id in sensors
               then s == sensors[id].(lastValue := s.lastValue, lastText := s.lastText, lastAt := s.lastAt)
               else s.name == id.key && s.sensorType == GuessType(id.key) && !s.deleted
  {
    WrittenAt(sensors, serial, rs, ts, id);
    var s, raw := WriteSensors(sensors, serial, rs, ts)[id], LastFor(rs, id.key).value;
    assert KeptAs(raw, s.lastValue, s.lastText, Coerce(raw).json);
  }

  lemma WriteOneMore(sensors: map<SensorId, Sensor>, serial: Serial, rs: seq<(string, Raw)>, ts: Time, i: nat)
    requires i < |rs|
    ensures var before, id := WriteSensors(sensors, serial, rs[..i], ts), IdOf(serial, rs[i]);
            WriteSensors(sensors, serial, rs[..i + 1], ts) == before[id := Latest(SensorFor(before, id), rs[i].1, ts)]
  {
    assert rs[..i + 1][..i] == rs[..i];
  }

  lemma RowsOneMore(serial: Serial, rs: seq<(string, Raw)>, ts: Time, nextId: nat, i: nat)
    requires i < |rs|
    ensures RowsFor(serial, rs[..i + 1], ts, nextId)
            == RowsFor(serial, rs[..i], ts, nextId) + [RowFor(serial, rs[i], ts, nextId + i)]
  {
  }

  /** Writing a sensor neither retires nor revives a key. */
  lemma WriteKeepsRetired(
    sensors: map<SensorId, Sensor>, serial: Serial, rs: seq<(string, Raw)>, ts: Time, id: SensorId)
    ensures Retired(WriteSensors(sensors, serial, rs, ts), id) <==> Retired(sensors, id)
  {
    WrittenAt(sensors, serial, rs, ts, id);
  }

  lemma {:induction false} LastForOccurs(rs: seq<(string, Raw)>, key: string)
    ensures LastFor(rs, key).Some? ==> exists i :: 0 <= i < |rs| && rs[i].0 == key
    ensures LastFor(rs, key).None? ==> forall i :: 0 <= i < |rs| ==> rs[i].0 != key
  {
    if rs != [] {
      LastForOccurs(rs[..|rs| - 1], key);
    }
  }

  // ---- The class --------------------------------------------------------------------------

  class TelemetryStore {
    var devices: map<Serial, Device>
    var sensors: map<SensorId, Sensor>
    var readings: seq<Reading>
    var nextId: nat

    function View(): Store
      reads this
    {
      Store(devices, sensors, readings, nextId)
    }

    /** Liveness and the denormalised device columns. */
    method TouchDevice(b: Batch, ts: Time)
      requires b.serial in devices
      modifies this`devices
      ensures devices == old(devices)[b.serial := Touched(old(devices)[b.serial], b, ts)]
      ensures var was := old(devices)[b.serial];
              devices[b.serial]
              == was.(lastSeen := Some(ts),
                      status := if was.status in {DeviceStatus.Offline, Provisioning} then Online else was.status,
                      battery := if b.battery == None then was.battery else b.battery.value,
                      signal := if b.signal == None then was.signal else b.signal.value,
                      latitude := if b.position == None then was.latitude else b.position.value.lat,
                      longitude := if b.position == None then was.longitude else b.position.value.lon,
                      altitude := if b.position == None then was.altitude else b.position.value.alt)
    {
      var device := devices[b.serial];
      device := device.(lastSeen := Some(ts));
      if device.status.Offline? || device.status.Provisioning? {
        device := device.(status := Online);
      }
      if b.battery.Some? {
        device := device.(battery := b.battery.value);
      }
      if b.signal.Some? {
        device := device.(signal := b.signal.value);
      }
      if b.position.Some? {
        device := device.(latitude := b.position.value.lat, longitude := b.position.value.lon,
                          altitude := b.position.value.alt);
      }
      devices := devices[b.serial := device];
    }

    method SaveSensor(id: SensorId, raw: Raw, ts: Time)
      modifies this`sensors
      ensures sensors == old(sensors)[id := Latest(SensorFor(old(sensors), id), raw, ts)]
    {
      var sensor := if id in sensors then sensors[id] else NewSensor(id.key);
      var c := Coerce(raw);
      sensor := sensor.(lastValue := c.number, lastText := TextOf(c), lastAt := Some(ts));
      sensors := sensors[id := sensor];
    }

    /** The loop over the readings: sensors are saved as it goes, the rows are collected. */
    method WriteReadings(serial: Serial, rs: seq<(string, Raw)>, ts: Time)
      returns (rows: seq<Reading>, retired: Option<string>)
      modifies this`sensors
      ensures var n := Accepted(old(sensors), serial, rs);
              && sensors == WriteSensors(old(sensors), serial, rs[..n], ts)
              && rows == RowsFor(serial, rs[..n], ts, nextId)
              && retired == if n < |rs| then Some(rs[n].0) else None
      ensures forall i :: 0 <= i < |rows| ==> i < |rs| && StoresRaw(rows[i], serial, rs[i], ts)
    {
      rows, retired := [], None;
      ghost var start, n := sensors, Accepted(sensors, serial, rs);
      var i := 0;
      while i < |rs| && retired.None?
        invariant i <= n && (retired.Some? ==> i == n < |rs| && retired.value == rs[n].0)
        invariant sensors == WriteSensors(start, serial, rs[..i], ts)
        invariant rows == RowsFor(serial, rs[..i], ts, nextId)
        decreases |rs| - i, retired.None?
      {
        var id := IdOf(serial, rs[i]);
        WriteKeepsRetired(start, serial, rs[..i], ts, id);
        if Retired(sensors, id) {
          retired := Some(rs[i].0);
        } else {
          WriteOneMore(start, serial, rs, ts, i);
          RowsOneMore(serial, rs, ts, nextId, i);
          rows := rows + [RowFor(serial, rs[i], ts, nextId + i)];
          SaveSensor(id, rs[i].1, ts);
          i := i + 1;
        }
      }
      RowsStore(serial, rs, ts, nextId, n);
    }

    method IngestPayload(b: Batch, now: Time) returns (result: IngestResult)
      modifies this
      ensures (View(), result) == Ingest(old(View()), b, now)
    {
      if b.serial !in devices {
        return UnknownDevice;
      }
      var ts := if b.time.Some? then b.time.value else now;
      TouchDevice(b, ts);
      var rows, retired := WriteReadings(b.serial, b.readings, ts);
      if retired.Some? {
        AbortedIngest(old(View()), View(), b, now, rows, retired);
        return KeyRetired(retired.value);
      }
      readings := readings + rows;
      nextId := nextId + |rows|;
      CompletedIngest(old(View()), View(), b, now, rows);
      return Stored(|rows|);
    }

    /** One round of the purge: at most `limit` ids of readings older than the cutoff. */
    method SelectOld(cutoff: Time, limit: nat) returns (ids: set<nat>)
      ensures |ids| <= limit
      ensures forall id <- ids :: exists i :: 0 <= i < |readings| && readings[i].id == id && readings[i].time < cutoff
      ensures |ids| < limit ==> forall i :: 0 <= i < |readings| && readings[i].time < cutoff ==> readings[i].id in ids
    {
      ids := {};
      for i := 0 to |readings|
        invariant |ids| <= limit
        invariant forall id <- ids ::
                    exists j :: 0 <= j < |readings| && readings[j].id == id && readings[j].time < cutoff
        invariant |ids| < limit ==> forall j :: 0 <= j < i && readings[j].time < cutoff ==> readings[j].id in ids
      {
        if readings[i].time < cutoff && |ids| < limit {
          ids := ids + {readings[i].id};
        }
      }
    }

    /** One round: delete the selected readings; fewer than a full batch are all there were. */
    method PurgeRound(cutoff: Time) returns (deleted: nat)
      requires DistinctReadings(readings)
      modifies this`readings
      ensures DistinctReadings(readings) && Kept(readings, cutoff) == Kept(old(readings), cutoff)
      ensures |readings| + deleted == |old(readings)| && deleted <= 10000
      ensures deleted < 10000 ==> readings == Kept(old(readings), cutoff)
    {
      var ids := SelectOld(cutoff, BATCH);
      if ids == {} {
        AllKept(readings, cutoff);
        return 0;
      }
      WithoutOld(readings, ids, cutoff);
      assert HasReadings(readings, ids);
      WithoutRemoves(readings, ids);
      if |ids| < BATCH {
        WithoutAllOld(readings, ids, cutoff);
      }
      deleted := |readings|;
      readings := Without(readings, ids);
      deleted := deleted - |readings|;
    }

    method PurgeOldTelemetry(cutoff: Time) returns (total: nat)
      requires DistinctReadings(readings)
      modifies this`readings
      ensures readings == Kept(old(readings), cutoff)
      ensures total + |readings| == |old(readings)|
      ensures DistinctReadings(readings)
    {
      total := 0;
      while true
        invariant DistinctReadings(readings)
        invariant Kept(readings, cutoff) == Kept(old(readings), cutoff)
        invariant total + |readings| == |old(readings)|
        decreases |readings|
      {
        var deleted := PurgeRound(cutoff);
        if deleted == 0 {
          break;
        }
        total := total + deleted;
      }
    }
  }

  // ---- Retention --------------------------------------------------------------------------

  const BATCH := 10000

  ghost predicate DistinctReadings(rs: seq<Reading>) {
    forall i, j :: 0 <= i < j < |rs| ==> rs[i].id != rs[j].id
  }

  /** The readings are numbered apart, and below the next number. */
  ghost predicate Numbered(store: Store) {
    && DistinctReadings(store.readings)
    && forall i :: 0 <= i < |store.readings| ==> store.readings[i].id < store.nextId
  }

  /** An ingest, completed or not, keeps the readings apart, as a purge that deletes by id needs them. */
  lemma IngestKeepsNumbered(store: Store, b: Batch, now: Time)
    requires Numbered(store)
    ensures Numbered(Ingest(store, b, now).0)
  {
  }

  function Without(rs: seq<Reading>, ids: set<nat>): seq<Reading> {
    if rs == [] then []
    else Without(rs[..|rs| - 1], ids) + if rs[|rs| - 1].id in ids then [] else [rs[|rs| - 1]]
  }

  /** The readings inside the retention window. */
  function Kept(rs: seq<Reading>, cutoff: Time): seq<Reading> {
    if rs == [] then []
    else Kept(rs[..|rs| - 1], cutoff) + if rs[|rs| - 1].time < cutoff then [] else [rs[|rs| - 1]]
  }

  ghost predicate HasReading(rs: seq<Reading>, id: nat) {
    exists i :: 0 <= i < |rs| && rs[i].id == id
  }

  ghost predicate HasReadings(rs: seq<Reading>, ids: set<nat>) {
    forall id :: id in ids ==> HasReading(rs, id)
  }

  lemma OthersInFront(rs: seq<Reading>, ids: set<nat>, last: nat)
    requires rs != [] && last == rs[|rs| - 1].id && DistinctReadings(rs) && HasReadings(rs, ids)
    ensures var front := rs[..|rs| - 1];
            && DistinctReadings(front) && HasReadings(front, ids - {last})
            && forall i :: 0 <= i < |front| ==> front[i].id != last
  {
    var front := rs[..|rs| - 1];
    forall id | id in ids - {last} ensures HasReading(front, id) {
      var i :| 0 <= i < |rs| && rs[i].id == id;
      assert front[i].id == id;
    }
  }

  /** Deleting by id deletes one reading per id. */
  lemma {:induction false} WithoutRemoves(rs: seq<Reading>, ids: set<nat>)
    requires DistinctReadings(rs) && HasReadings(rs, ids)
    ensures |rs| == |Without(rs, ids)| + |ids|
  {
    if rs == [] {
      assert ids == {} by {
        assert forall id: nat :: !HasReading(rs, id);
      }
    } else {
      var front, last := rs[..|rs| - 1], rs[|rs| - 1].id;
      OthersInFront(rs, ids, last);
      WithoutRemoves(front, ids - {last});
      WithoutUnused(front, ids, last);
      assert ids == if last in ids then ids - {last} + {last} else ids - {last};
    }
  }

  /** Deleting all old readings leaves the window. */
  lemma {:induction false} WithoutAllOld(rs: seq<Reading>, ids: set<nat>, cutoff: Time)
    requires forall i :: 0 <= i < |rs| ==> (rs[i].id in ids <==> rs[i].time < cutoff)
    ensures Without(rs, ids) == Kept(rs, cutoff)
  {
    if rs != [] {
      WithoutAllOld(rs[..|rs| - 1], ids, cutoff);
    }
  }

  lemma {:induction false} WithoutUnused(rs: seq<Reading>, ids: set<nat>, id: nat)
    requires forall i :: 0 <= i < |rs| ==> rs[i].id != id
    ensures Without(rs, ids - {id}) == Without(rs, ids)
  {
    if rs != [] {
      WithoutUnused(rs[..|rs| - 1], ids, id);
    }
  }

  lemma {:induction false} AllKept(rs: seq<Reading>, cutoff: Time)
    requires forall i :: 0 <= i < |rs| ==> rs[i].time >= cutoff
    ensures Kept(rs, cutoff) == rs
  {
    if rs != [] {
      AllKept(rs[..|rs| - 1], cutoff);
      assert rs == rs[..|rs| - 1] + [rs[|rs| - 1]];
    }
  }

  /** Deleting old readings by id leaves the window alone and makes progress. */
  lemma WithoutOld(rs: seq<Reading>, ids: set<nat>, cutoff: Time)
    requires DistinctReadings(rs) && ids != {}
    requires forall id <- ids :: exists i :: 0 <= i < |rs| && rs[i].id == id && rs[i].time < cutoff
    ensures DistinctReadings(Without(rs, ids))
    ensures Kept(Without(rs, ids), cutoff) == Kept(rs, cutoff)
    ensures |Without(rs, ids)| < |rs| && forall i :: 0 <= i < |rs| && rs[i].id in ids ==> rs[i].time < cutoff
  {
    forall i | 0 <= i < |rs| && rs[i].id in ids ensures rs[i].time < cutoff {
      var j :| 0 <= j < |rs| && rs[j].id == rs[i].id && rs[j].time < cutoff;
      assert i == j;
    }
    WithoutKeepsWindow(rs, ids, cutoff);
    WithoutKeepsDistinct(rs, ids);
    var id :| id in ids;
    var i :| 0 <= i < |rs| && rs[i].id == id && rs[i].time < cutoff;
    WithoutShrinks(rs, ids, i);
  }

  lemma {:induction false} WithoutKeepsWindow(rs: seq<Reading>, ids: set<nat>, cutoff: Time)
    requires forall i :: 0 <= i < |rs| && rs[i].id in ids ==> rs[i].time < cutoff
    ensures Kept(Without(rs, ids), cutoff) == Kept(rs, cutoff)
  {
    if rs != [] {
      var w, last := Without(rs[..|rs| - 1], ids), rs[|rs| - 1];
      WithoutKeepsWindow(rs[..|rs| - 1], ids, cutoff);
      if last.id !in ids {
        assert Without(rs, ids) == w + [last] && (w + [last])[..|w|] == w;
      } else {
        assert Without(rs, ids) == w && last.time < cutoff;
      }
    }
  }

  lemma {:induction false} WithoutSelects(rs: seq<Reading>, ids: set<nat>, i: nat) returns (j: nat)
    requires i < |Without(rs, ids)|
    ensures j < |rs| && rs[j] == Without(rs, ids)[i]
  {
    if i < |Without(rs[..|rs| - 1], ids)| {
      j := WithoutSelects(rs[..|rs| - 1], ids, i);
    } else {
      j := |rs| - 1;
    }
  }

  lemma {:induction false} WithoutKeepsDistinct(rs: seq<Reading>, ids: set<nat>)
    requires DistinctReadings(rs)
    ensures DistinctReadings(Without(rs, ids))
  {
    if rs != [] {
      var front := rs[..|rs| - 1];
      WithoutKeepsDistinct(front, ids);
      forall i | 0 <= i < |Without(front, ids)| ensures Without(front, ids)[i].id != rs[|rs| - 1].id {
        var j := WithoutSelects(front, ids, i);
      }
    }
  }

  lemma {:induction false} WithoutShrinks(rs: seq<Reading>, ids: set<nat>, i: nat)
    requires i < |rs| && rs[i].id in ids
    ensures |Without(rs, ids)| < |rs|
  {
    WithoutIsShorter(rs[..|rs| - 1], ids);
    if i < |rs| - 1 {
      WithoutShrinks(rs[..|rs| - 1], ids, i);
    }
  }

  lemma {:induction false} WithoutIsShorter(rs: seq<Reading>, ids: set<nat>)
    ensures |Without(rs, ids)| <= |rs|
  {
    if rs != [] {
      WithoutIsShorter(rs[..|rs| - 1], ids);
    }
  }
}
