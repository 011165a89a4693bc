/** The denormalised latest values agree with the stream of readings, and how long they do. */
module LatestValues {
  import opened Options
  import Alerts
  import opened Rules
  import opened Telemetry

  /** The most recently appended reading of a sensor. */
  function LastReading(rs: seq<Reading>, id: SensorId): Option<Reading> {
    if rs == [] then None
    else if rs[|rs| - 1].sensor == id then Some(rs[|rs| - 1])
    else LastReading(rs[..|rs| - 1], id)
  }

  lemma {:induction false} LastReadingAppend(a: seq<Reading>, b: seq<Reading>, id: SensorId)
    ensures LastReading(a + b, id) == if LastReading(b, id).Some? then LastReading(b, id) else LastReading(a, id)
  {
    if b == [] {
      assert a + b == a;
    } else {
      assert (a + b)[..|a + b| - 1] == a + b[..|b| - 1];
      LastReadingAppend(a, b[..|b| - 1], id);
    }
  }

  /** The sensor shows its last reading, or nothing if it has none. */
  ghost predicate Shows(s: Sensor, last: Option<Reading>) {
    match last
    case None => s.lastAt.None? && s.lastValue.None? && s.lastText == ""
    case Some(r) => s.lastAt == Some(r.time) && s.lastValue == r.value && s.lastText == r.text
  }

  ghost predicate AgreesAt(store: Store, id: SensorId) {
    if id in store.sensors then Shows(store.sensors[id], LastReading(store.readings, id))
    else LastReading(store.readings, id).None?
  }

  ghost predicate AllAgree(store: Store) {
    forall id :: AgreesAt(store, id)
  }

  /** The last row a batch appends for a sensor is the one for the last value of its key. */
  lemma {:induction false} LastRow(serial: Serial, rs: seq<(string, Raw)>, ts: Time, nextId: nat, id: SensorId)
    ensures var last := LastReading(RowsFor(serial, rs, ts, nextId), id);
            if id.device == serial && LastFor(rs, id.key).Some? then
              var c := Coerce(LastFor(rs, id.key).value);
              last.Some? && last.value.time == ts && last.value.value == c.number && last.value.text == TextOf(c)
            else last.None?
  {
    if rs != [] {
      var front := rs[..|rs| - 1];
      assert RowsFor(serial, rs, ts, nextId)[..|rs| - 1] == RowsFor(serial, front, ts, nextId);
      LastRow(serial, front, ts, nextId, id);
    }
  }

  /** A completed ingest, and one for an unknown serial, keeps every sensor in agreement. */
  lemma IngestAgrees(store: Store, b: Batch, now: Time)
    requires AllAgree(store) && !Ingest(store, b, now).1.KeyRetired?
    ensures AllAgree(Ingest(store, b, now).0)
  {
    var after := Ingest(store, b, now).0;
    if b.serial in store.devices {
      var ts := TimeOf(b, now);
      assert b.readings[..|b.readings|] == b.readings;
      forall id ensures AgreesAt(after, id) {
        assert AgreesAt(store, id);
        WrittenAt(store.sensors, b.serial, b.readings, ts, id);
        LastRow(b.serial, b.readings, ts, store.nextId, id);
        LastReadingAppend(store.readings, RowsFor(b.serial, b.readings, ts, store.nextId), id);
      }
    }
  }

  /** What sensor `id` would be told by the readings the loop got through is what it shows already. */
  predicate ShowsAlready(sensors: map<SensorId, Sensor>, id: SensorId, raw: Raw, ts: Time) {
    id in sensors && Latest(sensors[id], raw, ts) == sensors[id]
  }

  /**
   An ingest that meets a retired key has saved the sensors before it and stores no reading: it
   keeps the agreement exactly if each of those sensors already showed what it was sent.
   */
  lemma AbortedIngestAgrees(store: Store, b: Batch, now: Time)
    requires AllAgree(store) && Ingest(store, b, now).1.KeyRetired?
    ensures var n := Accepted(store.sensors, b.serial, b.readings);
            AllAgree(Ingest(store, b, now).0) <==>
            forall id: SensorId :: id.device == b.serial && LastFor(b.readings[..n], id.key).Some? ==>
              ShowsAlready(store.sensors, id, LastFor(b.readings[..n], id.key).value, TimeOf(b, now))
  {
    var n, ts, after := Accepted(store.sensors, b.serial, b.readings), TimeOf(b, now), Ingest(store, b, now).0;
    forall id: SensorId ensures AgreesAt(after, id) <==>
      (id.device == b.serial && LastFor(b.readings[..n], id.key).Some? ==>
         ShowsAlready(store.sensors, id, LastFor(b.readings[..n], id.key).value, ts))
    {
      assert AgreesAt(store, id);
      WrittenAt(store.sensors, b.serial, b.readings[..n], ts, id);
    }
  }

  /** So it does not in general: the first sensor of this batch is saved, its reading is not stored. */
  lemma RetiredKeyBreaksAgreement(device: Device, now: Time)
    ensures var first, second := Alerts.SensorId("d", "t"), Alerts.SensorId("d", "u");
            var sensors := map[first := NewSensor("t"), second := NewSensor("u").(deleted := true)];
            var store := Store(map["d" := device], sensors, [], 0);
            var b := Batch("d", None, [("t", Number(1.0)), ("u", Number(2.0))], None, None, None);
            && AllAgree(store) && Ingest(store, b, now).1 == KeyRetired("u")
            && Ingest(store, b, now).0.readings == [] && !AgreesAt(Ingest(store, b, now).0, first)
  {
    var first, second := Alerts.SensorId("d", "t"), Alerts.SensorId("d", "u");
    var sensors := map[first := NewSensor("t"), second := NewSensor("u").(deleted := true)];
    var store := Store(map["d" := device], sensors, [], 0);
    var b := Batch("d", None, [("t", Number(1.0)), ("u", Number(2.0))], None, None, None);
    assert "t"[0] != "u"[0] && first != second;
    assert !Retired(sensors, first) && Retired(sensors, second);
    assert IdOf("d", b.readings[0]) == first && IdOf("d", b.readings[1]) == second;
    assert Accepted(sensors, "d", b.readings) == 1 && b.readings[..1] == [("t", Number(1.0))];
    forall id ensures AgreesAt(store, id) {
    }
    WrittenAt(sensors, "d", b.readings[..1], now, first);
  }

  function IngestAll(store: Store, bs: seq<Batch>, clock: Alerts.Clock): Store {
    if bs == [] then store
    else Ingest(IngestAll(store, bs[..|bs| - 1], clock), bs[|bs| - 1], clock(|bs| - 1)).0
  }

  /** No batch meets a retired key. */
  ghost predicate AllComplete(store: Store, bs: seq<Batch>, clock: Alerts.Clock) {
    forall i :: 0 <= i < |bs| ==> !Ingest(IngestAll(store, bs[..i], clock), bs[i], clock(i)).1.KeyRetired?
  }

  /** Main result: in every state reached by completed ingests, every sensor shows its last reading. */
  lemma {:induction false} LatestValuesAgree(store: Store, bs: seq<Batch>, clock: Alerts.Clock)
    requires AllAgree(store) && AllComplete(store, bs, clock)
    ensures AllAgree(IngestAll(store, bs, clock))
    decreases |bs|
  {
    if bs != [] {
      var front := bs[..|bs| - 1];
      assert forall i :: 0 <= i < |front| ==> front[..i] == bs[..i];
      LatestValuesAgree(store, front, clock);
      IngestAgrees(IngestAll(store, front, clock), bs[|bs| - 1], clock(|bs| - 1));
    }
  }

  /** A sensor's readings were appended in time order. */
  ghost predicate InTimeOrder(rs: seq<Reading>, id: SensorId) {
    forall i, j :: 0 <= i < j < |rs| && rs[i].sensor == rs[j].sensor == id ==> rs[i].time <= rs[j].time
  }

  lemma {:induction false} LastReadingIsLast(rs: seq<Reading>, id: SensorId) returns (i: nat)
    requires LastReading(rs, id).Some?
    ensures i < |rs| && rs[i] == LastReading(rs, id).value && rs[i].sensor == id
    ensures forall j :: i < j < |rs| ==> rs[j].sensor != id
  {
    if rs[|rs| - 1].sensor == id {
      i := |rs| - 1;
    } else {
      i := LastReadingIsLast(rs[..|rs| - 1], id);
    }
  }

  lemma {:induction false} NoLastReading(rs: seq<Reading>, id: SensorId)
    requires LastReading(rs, id).None?
    ensures forall j :: 0 <= j < |rs| ==> rs[j].sensor != id
  {
    if rs != [] {
      NoLastReading(rs[..|rs| - 1], id);
    }
  }

  /** If time stamps never decrease, the latest value is also the one of the latest time. */
  lemma LatestIsMaximal(store: Store, id: SensorId)
    requires AgreesAt(store, id) && InTimeOrder(store.readings, id) && id in store.sensors
    ensures forall i :: 0 <= i < |store.readings| && store.readings[i].sensor == id ==>
              store.sensors[id].lastAt.Some? && store.readings[i].time <= store.sensors[id].lastAt.value
  {
    var rs := store.readings;
    if LastReading(rs, id).Some? {
      var last := LastReadingIsLast(rs, id);
    } else {
      NoLastReading(rs, id);
    }
  }

  lemma {:induction false} LastKept(rs: seq<Reading>, cutoff: Time, id: SensorId)
    ensures var last, kept := LastReading(rs, id), LastReading(Kept(rs, cutoff), id);
            && (kept.Some? ==> kept.value.time >= cutoff)
            && (last.Some? && last.value.time >= cutoff ==> kept == last)
            && (last.None? ==> kept.None?)
  {
    if rs != [] {
      var front, last := rs[..|rs| - 1], rs[|rs| - 1];
      LastKept(front, cutoff, id);
      if last.time >= cutoff {
        assert Kept(rs, cutoff) == Kept(front, cutoff) + [last];
        assert Kept(rs, cutoff)[..|Kept(front, cutoff)|] == Kept(front, cutoff);
      } else {
        assert Kept(rs, cutoff) == Kept(front, cutoff);
      }
    }
  }

  /**
   A purge keeps a sensor's agreement exactly if the sensor has never been read or its last
   reading is inside the retention window.
   */
  lemma PurgeAgrees(store: Store, cutoff: Time, id: SensorId)
    requires AgreesAt(store, id) && id in store.sensors
    ensures AgreesAt(store.(readings := Kept(store.readings, cutoff)), id)
            <==> store.sensors[id].lastAt.None? || store.sensors[id].lastAt.value >= cutoff
  {
    LastKept(store.readings, cutoff, id);
  }

  /** So it does not in general: a sensor that has reported once, and not since the cutoff. */
  lemma PurgeBreaksAgreement(devices: map<Serial, Device>)
    ensures var id := Alerts.SensorId("d", "t");
            var store := Store(devices, map[id := Latest(NewSensor("t"), Number(1.0), 0)],
                               [RowFor("d", ("t", Number(1.0)), 0, 0)], 1);
            && AllAgree(store) && Kept(store.readings, 1) == []
            && !AgreesAt(store.(readings := Kept(store.readings, 1)), id)
  {
    var id := Alerts.SensorId("d", "t");
    var row := RowFor("d", ("t", Number(1.0)), 0, 0);
    var store := Store(devices, map[id := Latest(NewSensor("t"), Number(1.0), 0)], [row], 1);
    assert Kept([row], 1) == [];
    forall other ensures AgreesAt(store, other) {
      assert [row][..0] == [];
    }
  }

  /** With time stamps that never decrease, that fails only for a stream the purge has emptied. */
  lemma PurgeBreaksOnlyEmptied(store: Store, cutoff: Time, id: SensorId)
    requires AgreesAt(store, id) && id in store.sensors && InTimeOrder(store.readings, id)
    ensures AgreesAt(store.(readings := Kept(store.readings, cutoff)), id)
            <==> (LastReading(Kept(store.readings, cutoff), id).None? ==> LastReading(store.readings, id).None?)
  {
    LastKept(store.readings, cutoff, id);
    var kept := LastReading(Kept(store.readings, cutoff), id);
    if kept.Some? {
      var j := LastReadingIsLast(Kept(store.readings, cutoff), id);
      var i := KeptSelects(store.readings, cutoff, j);
      if LastReading(store.readings, id).Some? {
        var last := LastReadingIsLast(store.readings, id);
      } else {
        NoLastReading(store.readings, id);
      }
    }
  }

  lemma {:induction false} KeptSelects(rs: seq<Reading>, cutoff: Time, j: nat) returns (i: nat)
    requires j < |Kept(rs, cutoff)|
    ensures i < |rs| && rs[i] == Kept(rs, cutoff)[j] && rs[i].time >= cutoff
  {
    if j < |Kept(rs[..|rs| - 1], cutoff)| {
      i := KeptSelects(rs[..|rs| - 1], cutoff, j);
    } else {
      i := |rs| - 1;
    }
  }
}
