/** Telemetry batches under at-least-once delivery. */
module TelemetryRedelivery {
  import opened Options
  import Alerts
  import opened Rules
  import opened Telemetry
  import Redelivery

  /** A stored sample without its row id: what a second copy of a reading repeats. */
  datatype Sample = Sample(sensor: SensorId, time: Time, value: Option<real>, text: string, json: Option<Json>)

  function SampleOf(r: Reading): Sample {
    Sample(r.sensor, r.time, r.value, r.text, r.json)
  }

  function Samples(rs: seq<Reading>): set<Sample> {
    set i | 0 <= i < |rs| :: SampleOf(rs[i])
  }

  /** What the dashboards see: devices, sensors, and the samples stored so far. */
  datatype Snapshot = Snapshot(devices: map<Serial, Device>, sensors: map<SensorId, Sensor>, samples: set<Sample>)

  function SnapshotOf(store: Store): Snapshot {
    Snapshot(store.devices, store.sensors, Samples(store.readings))
  }

  // ---- One batch, handled to some extent --------------------------------------------------

  /** The writes of an ingest: the device, then for each reading its sensor's creation, if need be, and its values. */
  function CreateSensor(sensors: map<SensorId, Sensor>, id: SensorId): map<SensorId, Sensor> {
    if id in sensors then sensors else sensors[id := NewSensor(id.key)]
  }

  /** The sensors after `half` of those writes, two for each reading. */
  function CutSensors(
    sensors: map<SensorId, Sensor>, serial: Serial, rs: seq<(string, Raw)>, ts: Time, half: nat): map<SensorId, Sensor>
    requires half <= 2 * |rs|
  {
    var done := WriteSensors(sensors, serial, rs[..half / 2], ts);
    if half % 2 == 1 then CreateSensor(done, IdOf(serial, rs[half / 2])) else done
  }

  /** How many of them a handling gets through: the loop ends at the first retired key in any case. */
  function Reach(sensors: map<SensorId, Sensor>, b: Batch, extent: Redelivery.Extent): (half: nat)
    requires extent != Redelivery.Cut(0)
    ensures half <= 2 * |b.readings|
  {
    var n := Accepted(sensors, b.serial, b.readings);
    match extent
    case Whole => 2 * n
    case Cut(w) => if w - 1 <= 2 * n then w - 1 else 2 * n
  }

  /** The readings are stored in one write, after the loop. */
  predicate Stores(sensors: map<SensorId, Sensor>, b: Batch, extent: Redelivery.Extent) {
    extent.Whole? && Accepted(sensors, b.serial, b.readings) == |b.readings|
  }

  function IngestTo(store: Store, b: Batch, now: Time, extent: Redelivery.Extent): Store {
    if extent == Redelivery.Cut(0) || b.serial !in store.devices then store
    else
      var ts := TimeOf(b, now);
      var rows := if Stores(store.sensors, b, extent) then RowsFor(b.serial, b.readings, ts, store.nextId) else [];
      Store(
        store.devices[b.serial := Touched(store.devices[b.serial], b, ts)],
        CutSensors(store.sensors, b.serial, b.readings, ts, Reach(store.sensors, b, extent)),
        store.readings + rows, store.nextId + |rows|)
  }

  /** Handled to its end it is the ingest. */
  lemma WholeIsIngest(store: Store, b: Batch, now: Time)
    ensures IngestTo(store, b, now, Redelivery.Whole) == Ingest(store, b, now).0
  {
    if b.serial in store.devices {
      var n, ts := Accepted(store.sensors, b.serial, b.readings), TimeOf(b, now);
      WholeSensors(store.sensors, b, ts);
      assert n < |b.readings| ==> store.readings + [] == store.readings;
    }
  }

  lemma WholeSensors(sensors: map<SensorId, Sensor>, b: Batch, ts: Time)
    ensures CutSensors(sensors, b.serial, b.readings, ts, Reach(sensors, b, Redelivery.Whole))
            == WriteSensors(sensors, b.serial, b.readings[..Accepted(sensors, b.serial, b.readings)], ts)
  {
    var n := Accepted(sensors, b.serial, b.readings);
    assert 2 * n / 2 == n && 2 * n % 2 == 0;
  }

  /** What write number `half` of the loop does: create the sensor if need be, or save its values. */
  ghost predicate OneWrite(
    before: map<SensorId, Sensor>, after: map<SensorId, Sensor>, serial: Serial, rs: seq<(string, Raw)>, ts: Time,
    half: nat)
    requires half < 2 * |rs|
  {
    var (key, raw) := rs[half / 2];
    var id := Alerts.SensorId(serial, key);
    if half % 2 == 0 then
      after == if id in before then before else before[id := Sensor(key, GuessType(key), false, None, "", None)]
    else id in before && after == before[id := Latest(before[id], raw, ts)]
  }

  lemma CutSensorsOneMore(
    sensors: map<SensorId, Sensor>, serial: Serial, rs: seq<(string, Raw)>, ts: Time, half: nat)
    requires half < 2 * |rs|
    ensures OneWrite(CutSensors(sensors, serial, rs, ts, half), CutSensors(sensors, serial, rs, ts, half + 1),
                     serial, rs, ts, half)
  {
    if half % 2 == 1 {
      assert (half + 1) / 2 == half / 2 + 1;
      WriteOneMore(sensors, serial, rs, ts, half / 2);
    } else {
      assert (half + 1) / 2 == half / 2;
    }
  }

  /** The first write of a handling is the device's. */
  lemma FirstWriteIsDevice(store: Store, b: Batch, now: Time)
    requires b.serial in store.devices
    ensures IngestTo(store, b, now, Redelivery.Cut(0)) == store
    ensures IngestTo(store, b, now, Redelivery.Cut(1))
            == store.(devices := store.devices[b.serial := Touched(store.devices[b.serial], b, TimeOf(b, now))])
  {
    assert b.readings[..0] == [] && store.readings + [] == store.readings;
  }

  /** What a handling cut after its device and `reach` writes of the loop leaves. */
  lemma CutIs(store: Store, b: Batch, now: Time, w: nat, reach: nat)
    requires b.serial in store.devices && 0 < w && reach == Reach(store.sensors, b, Redelivery.Cut(w))
    ensures var ts := TimeOf(b, now);
            IngestTo(store, b, now, Redelivery.Cut(w))
            == Store(store.devices[b.serial := Touched(store.devices[b.serial], b, ts)],
                     CutSensors(store.sensors, b.serial, b.readings, ts, reach), store.readings, store.nextId)
  {
    assert store.readings + [] == store.readings;
  }

  /** One that gets one write further than another has made one write more, until the loop ends. */
  lemma CutGrowsByOneWrite(store: Store, b: Batch, now: Time, w: nat)
    requires b.serial in store.devices && 0 < w
    ensures var before := IngestTo(store, b, now, Redelivery.Cut(w));
            var after := IngestTo(store, b, now, Redelivery.Cut(w + 1));
            && after.devices == before.devices && after.readings == before.readings && after.nextId == before.nextId
            && if w <= 2 * Accepted(store.sensors, b.serial, b.readings)
               then OneWrite(before.sensors, after.sensors, b.serial, b.readings, TimeOf(b, now), w - 1)
               else after == before
  {
    var all := 2 * Accepted(store.sensors, b.serial, b.readings);
    CutIs(store, b, now, w, if w <= all then w - 1 else all);
    CutIs(store, b, now, w + 1, if w <= all then w else all);
    if w <= all {
      CutSensorsOneMore(store.sensors, b.serial, b.readings, TimeOf(b, now), w - 1);
    }
  }

  function NewSamples(b: Batch, ts: Time): set<Sample> {
    Samples(RowsFor(b.serial, b.readings, ts, 0))
  }

  /** A handled batch, as the snapshot shows it; a batch without a time of its own is read as of time 0. */
  function Absorb(s: Snapshot, h: Redelivery.Handling<Batch>): Snapshot {
    var b, ts := h.msg, TimeOf(h.msg, 0);
    if h.extent == Redelivery.Cut(0) || b.serial !in s.devices then s
    else
      Snapshot(
        s.devices[b.serial := Touched(s.devices[b.serial], b, ts)],
        CutSensors(s.sensors, b.serial, b.readings, ts, Reach(s.sensors, b, h.extent)),
        if Stores(s.sensors, b, h.extent) then s.samples + NewSamples(b, ts) else s.samples)
  }

  lemma SameSamples(b: Batch, ts: Time, nextId: nat)
    ensures Samples(RowsFor(b.serial, b.readings, ts, nextId)) == NewSamples(b, ts)
  {
    var x, y := RowsFor(b.serial, b.readings, ts, nextId), RowsFor(b.serial, b.readings, ts, 0);
    assert forall i :: 0 <= i < |x| ==> SampleOf(x[i]) == SampleOf(y[i]);
    forall s | s in Samples(x) ensures s in Samples(y) {
      var i :| 0 <= i < |x| && SampleOf(x[i]) == s;
      assert SampleOf(y[i]) == s;
    }
    forall s | s in Samples(y) ensures s in Samples(x) {
      var i :| 0 <= i < |y| && SampleOf(y[i]) == s;
      assert SampleOf(x[i]) == s;
    }
  }

  lemma SamplesAppend(a: seq<Reading>, b: seq<Reading>)
    ensures Samples(a + b) == Samples(a) + Samples(b)
  {
    forall s | s in Samples(a) + Samples(b) ensures s in Samples(a + b) {
      if s in Samples(a) {
        var i :| 0 <= i < |a| && SampleOf(a[i]) == s;
        assert SampleOf((a + b)[i]) == s;
      } else {
        var i :| 0 <= i < |b| && SampleOf(b[i]) == s;
        assert SampleOf((a + b)[|a| + i]) == s;
      }
    }
  }

  /** What an ingest does to the snapshot depends on nothing else, if the batch carries its time. */
  lemma IngestIsAbsorb(store: Store, h: Redelivery.Handling<Batch>, now: Time)
    requires h.msg.time.Some?
    ensures SnapshotOf(IngestTo(store, h.msg, now, h.extent)) == Absorb(SnapshotOf(store), h)
  {
    var b := h.msg;
    SameSamples(b, b.time.value, store.nextId);
    if Stores(store.sensors, b, h.extent) {
      SamplesAppend(store.readings, RowsFor(b.serial, b.readings, b.time.value, store.nextId));
    } else {
      assert store.readings + [] == store.readings;
    }
  }

  // ---- One sensor -------------------------------------------------------------------------

  /** What the writes of a batch do to one sensor. */
  datatype Touch = Leave | Create | Write(raw: Raw)

  function Look<K, V>(m: map<K, V>, k: K): Option<V> {
    if k in m then Some(m[k]) else None
  }

  function OrNew(s: Option<Sensor>, id: SensorId): Sensor {
    if s.Some? then s.value else NewSensor(id.key)
  }

  function Apply(t: Touch, s: Option<Sensor>, id: SensorId, ts: Time): Option<Sensor> {
    match t
    case Leave => s
    case Create => Some(OrNew(s, id))
    case Write(raw) => Some(Latest(OrNew(s, id), raw, ts))
  }

  function TouchOf(serial: Serial, rs: seq<(string, Raw)>, half: nat, id: SensorId): Touch
    requires half <= 2 * |rs|
  {
    var last := LastFor(rs[..half / 2], id.key);
    if id.device != serial then Leave
    else if last.Some? then Write(last.value)
    else if half % 2 == 1 && rs[half / 2].0 == id.key then Create
    else Leave
  }

  lemma CutAt(sensors: map<SensorId, Sensor>, serial: Serial, rs: seq<(string, Raw)>, ts: Time, half: nat, id: SensorId)
    requires half <= 2 * |rs|
    ensures Look(CutSensors(sensors, serial, rs, ts, half), id)
            == Apply(TouchOf(serial, rs, half, id), Look(sensors, id), id, ts)
  {
    WrittenAt(sensors, serial, rs[..half / 2], ts, id);
  }

  predicate AtMost(a: Touch, b: Touch) {
    b.Write? || a.Leave? || (a.Create? && b.Create?)
  }

  lemma {:induction false} LastForGrows(rs: seq<(string, Raw)>, key: string, j: nat, k: nat)
    requires j <= k <= |rs|
    requires LastFor(rs[..j], key).Some? || (j < k && rs[j].0 == key)
    ensures LastFor(rs[..k], key).Some?
    decreases k
  {
    if j < k {
      assert rs[..k][..k - 1] == rs[..k - 1] && rs[..k][k - 1] == rs[k - 1];
      if LastFor(rs[..j], key).Some? || j < k - 1 {
        LastForGrows(rs, key, j, k - 1);
      }
    }
  }

  /** More writes do at least as much to every sensor. */
  lemma TouchGrows(serial: Serial, rs: seq<(string, Raw)>, a: nat, b: nat, id: SensorId)
    requires a <= b <= 2 * |rs|
    ensures AtMost(TouchOf(serial, rs, a, id), TouchOf(serial, rs, b, id))
  {
    if TouchOf(serial, rs, a, id).Write? || (TouchOf(serial, rs, a, id).Create? && a < b) {
      LastForGrows(rs, id.key, a / 2, b / 2);
    }
  }

  lemma TouchesOverwrite(f: Touch, x: Touch, g: Touch, s: Option<Sensor>, id: SensorId, t: Time, xt: Time)
    requires AtMost(f, g)
    ensures Apply(g, Apply(f, s, id, t), id, t) == Apply(g, s, id, t)
    ensures Apply(g, Apply(x, Apply(f, s, id, t), id, xt), id, t) == Apply(g, Apply(x, s, id, xt), id, t)
  {
  }

  lemma SameMaps<K, V>(a: map<K, V>, b: map<K, V>)
    requires forall k :: Look(a, k) == Look(b, k)
    ensures a == b
  {
    forall k ensures k in a <==> k in b {
      assert Look(a, k) == Look(b, k);
    }
    forall k | k in a ensures a[k] == b[k] {
      assert Look(a, k) == Look(b, k);
    }
    assert a.Keys == b.Keys;
  }

  // ---- The two-message law ----------------------------------------------------------------

  /** Which keys are accepted depends only on the retired ones, and those never change. */
  lemma {:induction false} SameAccepted(
    a: map<SensorId, Sensor>, b: map<SensorId, Sensor>, serial: Serial, rs: seq<(string, Raw)>)
    requires forall id :: Retired(a, id) <==> Retired(b, id)
    ensures Accepted(a, serial, rs) == Accepted(b, serial, rs)
  {
    if rs != [] {
      SameAccepted(a, b, serial, rs[1..]);
    }
  }

  lemma CutKeepsRetired(
    sensors: map<SensorId, Sensor>, serial: Serial, rs: seq<(string, Raw)>, ts: Time, half: nat)
    requires half <= 2 * |rs|
    ensures forall id :: Retired(CutSensors(sensors, serial, rs, ts, half), id) <==> Retired(sensors, id)
  {
    forall id ensures Retired(CutSensors(sensors, serial, rs, ts, half), id) <==> Retired(sensors, id) {
      CutAt(sensors, serial, rs, ts, half, id);
    }
  }

  /** A handling gets as far after another one as before it. */
  lemma AbsorbKeepsReach(s: Snapshot, x: Redelivery.Handling<Batch>, h: Redelivery.Handling<Batch>)
    ensures h.extent != Redelivery.Cut(0) ==>
              Reach(Absorb(s, x).sensors, h.msg, h.extent) == Reach(s.sensors, h.msg, h.extent)
    ensures Stores(Absorb(s, x).sensors, h.msg, h.extent) == Stores(s.sensors, h.msg, h.extent)
  {
    var b := x.msg;
    if x.extent != Redelivery.Cut(0) && b.serial in s.devices {
      CutKeepsRetired(s.sensors, b.serial, b.readings, TimeOf(b, 0), Reach(s.sensors, b, x.extent));
      SameAccepted(Absorb(s, x).sensors, s.sensors, h.msg.serial, h.msg.readings);
    }
  }

  /** What a handling does to one sensor, wherever it gets. */
  function TouchBy(s: Snapshot, h: Redelivery.Handling<Batch>, id: SensorId): Touch {
    if h.extent == Redelivery.Cut(0) || h.msg.serial !in s.devices then Leave
    else TouchOf(h.msg.serial, h.msg.readings, Reach(s.sensors, h.msg, h.extent), id)
  }

  lemma AbsorbAt(s: Snapshot, h: Redelivery.Handling<Batch>, id: SensorId)
    ensures Look(Absorb(s, h).sensors, id) == Apply(TouchBy(s, h, id), Look(s.sensors, id), id, TimeOf(h.msg, 0))
  {
    var b := h.msg;
    if h.extent != Redelivery.Cut(0) && b.serial in s.devices {
      CutAt(s.sensors, b.serial, b.readings, TimeOf(b, 0), Reach(s.sensors, b, h.extent), id);
    }
  }

  lemma TouchByIsStable(s: Snapshot, x: Redelivery.Handling<Batch>, h: Redelivery.Handling<Batch>, id: SensorId)
    ensures TouchBy(Absorb(s, x), h, id) == TouchBy(s, h, id)
  {
    AbsorbKeepsReach(s, x, h);
  }

  lemma TouchByGrows(s: Snapshot, f: Redelivery.Handling<Batch>, g: Redelivery.Handling<Batch>, id: SensorId)
    requires Redelivery.Supersedes(g, f)
    ensures AtMost(TouchBy(s, f, id), TouchBy(s, g, id))
  {
    var b := f.msg;
    if f.extent != Redelivery.Cut(0) && b.serial in s.devices {
      TouchGrows(b.serial, b.readings, Reach(s.sensors, b, f.extent), Reach(s.sensors, b, g.extent), id);
    }
  }

  lemma SensorsOverwriteAt(
    s: Snapshot, f: Redelivery.Handling<Batch>, x: Redelivery.Handling<Batch>, g: Redelivery.Handling<Batch>,
    id: SensorId)
    requires Redelivery.Supersedes(g, f)
    ensures Look(Absorb(Absorb(s, f), g).sensors, id) == Look(Absorb(s, g).sensors, id)
    ensures Look(Absorb(Absorb(Absorb(s, f), x), g).sensors, id) == Look(Absorb(Absorb(s, x), g).sensors, id)
  {
    AbsorbAt(s, f, id);
    AbsorbAt(s, x, id);
    AbsorbAt(s, g, id);
    AbsorbAt(Absorb(s, f), g, id);
    AbsorbAt(Absorb(s, f), x, id);
    AbsorbAt(Absorb(s, x), g, id);
    AbsorbAt(Absorb(Absorb(s, f), x), g, id);
    TouchByIsStable(s, f, g, id);
    TouchByIsStable(s, f, x, id);
    TouchByIsStable(s, x, g, id);
    TouchByIsStable(Absorb(s, f), x, g, id);
    TouchByGrows(s, f, g, id);
    TouchesOverwrite(TouchBy(s, f, id), TouchBy(s, x, id), TouchBy(s, g, id), Look(s.sensors, id), id,
                     TimeOf(f.msg, 0), TimeOf(x.msg, 0));
  }

  lemma SensorsOverwrite(
    s: Snapshot, f: Redelivery.Handling<Batch>, x: Redelivery.Handling<Batch>, g: Redelivery.Handling<Batch>)
    requires Redelivery.Supersedes(g, f)
    ensures Absorb(Absorb(s, f), g).sensors == Absorb(s, g).sensors
    ensures Absorb(Absorb(Absorb(s, f), x), g).sensors == Absorb(Absorb(s, x), g).sensors
  {
    forall id
      ensures Look(Absorb(Absorb(s, f), g).sensors, id) == Look(Absorb(s, g).sensors, id)
      ensures Look(Absorb(Absorb(Absorb(s, f), x), g).sensors, id) == Look(Absorb(Absorb(s, x), g).sensors, id)
    {
      SensorsOverwriteAt(s, f, x, g, id);
    }
    SameMaps(Absorb(Absorb(s, f), g).sensors, Absorb(s, g).sensors);
    SameMaps(Absorb(Absorb(Absorb(s, f), x), g).sensors, Absorb(Absorb(s, x), g).sensors);
  }

  /** The samples a handling adds. */
  function Added(s: Snapshot, h: Redelivery.Handling<Batch>): set<Sample> {
    if h.msg.serial in s.devices && Stores(s.sensors, h.msg, h.extent) then NewSamples(h.msg, TimeOf(h.msg, 0)) else {}
  }

  lemma AddedIsStable(s: Snapshot, x: Redelivery.Handling<Batch>, h: Redelivery.Handling<Batch>)
    ensures Added(Absorb(s, x), h) == Added(s, h)
    ensures Absorb(s, x).samples == s.samples + Added(s, x)
  {
    AbsorbKeepsReach(s, x, h);
  }

  lemma SamplesOverwrite(
    s: Snapshot, f: Redelivery.Handling<Batch>, x: Redelivery.Handling<Batch>, g: Redelivery.Handling<Batch>)
    requires Redelivery.Supersedes(g, f)
    ensures Absorb(Absorb(s, f), g).samples == Absorb(s, g).samples
    ensures Absorb(Absorb(Absorb(s, f), x), g).samples == Absorb(Absorb(s, x), g).samples
  {
    AddedIsStable(s, f, g);
    AddedIsStable(s, f, x);
    AddedIsStable(s, x, g);
    AddedIsStable(s, g, g);
    AddedIsStable(Absorb(s, f), x, g);
    AddedIsStable(Absorb(s, f), g, g);
    AddedIsStable(Absorb(s, x), g, g);
    AddedIsStable(Absorb(Absorb(s, f), x), g, g);
    assert Added(s, f) <= Added(s, g);
    assert s.samples + Added(s, f) + Added(s, g) == s.samples + Added(s, g);
    assert s.samples + Added(s, f) + Added(s, x) + Added(s, g) == s.samples + Added(s, x) + Added(s, g);
  }

  /** What a handling does to one device. */
  function DeviceBy(d: Option<Device>, h: Redelivery.Handling<Batch>, serial: Serial): Option<Device> {
    if h.extent == Redelivery.Cut(0) || h.msg.serial != serial || d.None? then d
    else Some(Touched(d.value, h.msg, TimeOf(h.msg, 0)))
  }

  lemma DeviceAt(s: Snapshot, h: Redelivery.Handling<Batch>, serial: Serial)
    ensures Look(Absorb(s, h).devices, serial) == DeviceBy(Look(s.devices, serial), h, serial)
  {
  }

  lemma DeviceOverwrites(
    d: Option<Device>, f: Redelivery.Handling<Batch>, x: Redelivery.Handling<Batch>, g: Redelivery.Handling<Batch>,
    serial: Serial)
    requires Redelivery.Supersedes(g, f)
    ensures DeviceBy(DeviceBy(d, f, serial), g, serial) == DeviceBy(d, g, serial)
    ensures DeviceBy(DeviceBy(DeviceBy(d, f, serial), x, serial), g, serial)
            == DeviceBy(DeviceBy(d, x, serial), g, serial)
  {
  }

  lemma DevicesOverwrite(
    s: Snapshot, f: Redelivery.Handling<Batch>, x: Redelivery.Handling<Batch>, g: Redelivery.Handling<Batch>)
    requires Redelivery.Supersedes(g, f)
    ensures Absorb(Absorb(s, f), g).devices == Absorb(s, g).devices
    ensures Absorb(Absorb(Absorb(s, f), x), g).devices == Absorb(Absorb(s, x), g).devices
  {
    forall serial
      ensures Look(Absorb(Absorb(s, f), g).devices, serial) == Look(Absorb(s, g).devices, serial)
      ensures Look(Absorb(Absorb(Absorb(s, f), x), g).devices, serial) == Look(Absorb(Absorb(s, x), g).devices, serial)
    {
      DeviceAt(s, f, serial);
      DeviceAt(s, x, serial);
      DeviceAt(s, g, serial);
      DeviceAt(Absorb(s, f), g, serial);
      DeviceAt(Absorb(s, f), x, serial);
      DeviceAt(Absorb(s, x), g, serial);
      DeviceAt(Absorb(Absorb(s, f), x), g, serial);
      DeviceOverwrites(Look(s.devices, serial), f, x, g, serial);
    }
    SameMaps(Absorb(Absorb(s, f), g).devices, Absorb(s, g).devices);
    SameMaps(Absorb(Absorb(Absorb(s, f), x), g).devices, Absorb(Absorb(s, x), g).devices);
  }

  lemma AbsorbTwice(
    s: Snapshot, f: Redelivery.Handling<Batch>, x: Redelivery.Handling<Batch>, g: Redelivery.Handling<Batch>)
    requires Redelivery.Supersedes(g, f)
    ensures Absorb(Absorb(s, f), g) == Absorb(s, g)
    ensures Absorb(Absorb(Absorb(s, f), x), g) == Absorb(Absorb(s, x), g)
  {
    DevicesOverwrite(s, f, x, g);
    SensorsOverwrite(s, f, x, g);
    SamplesOverwrite(s, f, x, g);
  }

  /** Ingesting obeys the two-message law, wherever the early copies are cut off. */
  lemma AbsorbOverwrites()
    ensures Redelivery.Overwriting(Absorb) && Redelivery.StartsBlank(Absorb)
  {
    forall s, f, g | Redelivery.Supersedes(g, f) ensures Absorb(Absorb(s, f), g) == Absorb(s, g) {
      AbsorbTwice(s, f, f, g);
    }
    forall s, f, x, g | Redelivery.Supersedes(g, f)
      ensures Absorb(Absorb(Absorb(s, f), x), g) == Absorb(Absorb(s, x), g)
    {
      AbsorbTwice(s, f, x, g);
    }
  }

  // ---- Convergence ------------------------------------------------------------------------

  function IngestEach(store: Store, hs: seq<Redelivery.Handling<Batch>>, clock: Alerts.Clock, tick: nat): Store
    decreases |hs|
  {
    if hs == [] then store
    else IngestEach(IngestTo(store, hs[0].msg, clock(tick), hs[0].extent), hs[1..], clock, tick + 1)
  }

  lemma {:induction false} IngestEachIsFold(
    store: Store, hs: seq<Redelivery.Handling<Batch>>, clock: Alerts.Clock, tick: nat)
    requires forall i :: 0 <= i < |hs| ==> hs[i].msg.time.Some?
    ensures SnapshotOf(IngestEach(store, hs, clock, tick)) == Redelivery.Fold(Absorb, SnapshotOf(store), hs)
    decreases |hs|
  {
    if hs != [] {
      IngestIsAbsorb(store, hs[0], clock(tick));
      IngestEachIsFold(IngestTo(store, hs[0].msg, clock(tick), hs[0].extent), hs[1..], clock, tick + 1);
    }
  }

  /**
   Main result: whatever QoS 1 session delivers batches that carry their time, and wherever
   handlings raise, as long as no final copy writes less than an earlier one, the devices, the
   sensors with their latest values, and the set of stored samples end as if each batch had been
   ingested once, in order, as far as its final copy was.
   */
  lemma TelemetryConverges(
    store: Store, published: seq<Batch>, ws: seq<Redelivery.Wire>, clock: Alerts.Clock, onceClock: Alerts.Clock)
    requires Redelivery.Delivered(|published|, ws)
    requires forall i :: 0 <= i < |published| ==> published[i].time.Some?
    ensures var arrived := Redelivery.Connect(|published|, ws).arrived;
            && Redelivery.Numbered(Redelivery.Packets(arrived), |published|)
            && (forall p: nat :: p < |published| ==> p in Redelivery.Packets(arrived))
            && SnapshotOf(IngestEach(store, Redelivery.Arrivals(published, arrived), clock, 0))
               == SnapshotOf(IngestEach(store, Redelivery.Once(published, arrived), onceClock, 0))
  {
    var arrived := Redelivery.Connect(|published|, ws).arrived;
    AbsorbOverwrites();
    Redelivery.AtLeastOnceIsExactlyOnce(Absorb, SnapshotOf(store), published, ws);
    IngestEachIsFold(store, Redelivery.Arrivals(published, arrived), clock, 0);
    IngestEachIsFold(store, Redelivery.Once(published, arrived), onceClock, 0);
  }

  /** A second copy is accepted as far as the first, and one that carries its time changes nothing. */
  lemma SecondCopy(store: Store, b: Batch, first: Time, second: Time)
    ensures var once := Ingest(store, b, first).0;
            && Accepted(once.sensors, b.serial, b.readings) == Accepted(store.sensors, b.serial, b.readings)
            && (b.time.Some? ==> SnapshotOf(Ingest(once, b, second).0) == SnapshotOf(once))
  {
    var once, h := Ingest(store, b, first).0, Redelivery.Handling(b, Redelivery.Whole);
    if b.serial in store.devices {
      var n := Accepted(store.sensors, b.serial, b.readings);
      forall id ensures Retired(once.sensors, id) <==> Retired(store.sensors, id) {
        WriteKeepsRetired(store.sensors, b.serial, b.readings[..n], TimeOf(b, first), id);
      }
      SameAccepted(once.sensors, store.sensors, b.serial, b.readings);
    }
    if b.time.Some? {
      WholeIsIngest(store, b, first);
      WholeIsIngest(once, b, second);
      IngestIsAbsorb(store, h, first);
      IngestIsAbsorb(once, h, second);
      AbsorbTwice(SnapshotOf(store), h, h, h);
    }
  }

  /**
   Without a time of its own a batch is stamped when it is handled, so its second copy, at a
   moment no stored sample bears, adds samples: it adds none exactly if the batch carries its time
   or stores nothing.
   */
  lemma SecondCopyAddsSamples(store: Store, b: Batch, first: Time, second: Time)
    requires var once := Ingest(store, b, first).0;
             forall i :: 0 <= i < |once.readings| ==> once.readings[i].time != second
    ensures var once := Ingest(store, b, first).0;
            Samples(Ingest(once, b, second).0.readings) == Samples(once.readings)
            <==> b.time.Some? || !Ingest(store, b, first).1.Stored? || b.readings == []
  {
    var (once, result) := Ingest(store, b, first);
    SecondCopy(store, b, first, second);
    if b.time.None? && result.Stored? {
      var rows := RowsFor(b.serial, b.readings, second, once.nextId);
      SamplesAppend(once.readings, rows);
      if b.readings != [] {
        assert SampleOf(rows[0]) in Samples(rows);
        assert SampleOf(rows[0]) !in Samples(once.readings);
      } else {
        assert Ingest(once, b, second).0.readings == once.readings;
      }
    }
  }

  /** The rows themselves do accumulate: every further copy of a stored batch appends it again. */
  lemma CopiesAccumulate(store: Store, b: Batch, first: Time, second: Time)
    requires Ingest(store, b, first).1.Stored?
    ensures var once := Ingest(store, b, first).0;
            |Ingest(once, b, second).0.readings| == |store.readings| + 2 * |b.readings|
  {
    SecondCopy(store, b, first, second);
  }
}
