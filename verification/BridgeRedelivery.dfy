/**
 The whole bridge under at-least-once delivery: one session carries telemetry, status heartbeats
 and command results together, and telemetry and heartbeats write the same device rows. Handled
 together the three obey the two-message law in everything that does not show when a message was
 handled.
 */
module BridgeRedelivery {
  import opened Options
  import Alerts
  import opened Rules
  import opened Telemetry
  import opened TelemetryRedelivery
  import Commands
  import Jobs
  import Redelivery

  datatype Message =
    | Reported(b: Batch)
    | Status(serial: Serial, hb: Jobs.Heartbeat)
    | Answered(answer: Commands.ResultMessage)

  type Handled = Redelivery.Handling<Message>

  /** What the dashboards see of all three. */
  datatype Picture = Picture(snapshot: Snapshot, commands: map<Commands.CommandId, Commands.Progress>)

  /** A heartbeat is a single write, made unless the handling raised before it. */
  function Beat(devices: map<Serial, Device>, serial: Serial, hb: Jobs.Heartbeat, extent: Redelivery.Extent, now: Time)
    : map<Serial, Device>
  {
    if extent == Redelivery.Cut(0) || serial !in devices then devices
    else devices[serial := Jobs.Beaten(devices[serial], hb, now)]
  }

  /** One handling, as the picture shows it; what stamps the time of its handling is read as of time 0. */
  function Step(p: Picture, h: Handled): Picture {
    match h.msg
    case Reported(b) => p.(snapshot := Absorb(p.snapshot, Redelivery.Handling(b, h.extent)))
    case Status(serial, hb) =>
      p.(snapshot := p.snapshot.(devices := Beat(p.snapshot.devices, serial, hb, h.extent, 0)))
    case Answered(answer) => p.(commands := Commands.Deliver(p.commands, Redelivery.Handling(answer, h.extent)))
  }

  // ---- The two-message law ----------------------------------------------------------------

  /** A sign of life of a device. */
  datatype Sign = Quiet | Batched(b: Batch) | Beating(hb: Jobs.Heartbeat)

  function SignOf(h: Handled, serial: Serial): Sign {
    match h.msg
    case Reported(b) => if h.extent == Redelivery.Cut(0) || b.serial != serial then Quiet else Batched(b)
    case Status(s, hb) => if h.extent == Redelivery.Cut(0) || s != serial then Quiet else Beating(hb)
    case Answered(_) => Quiet
  }

  function Heed(d: Device, sign: Sign): Device {
    match sign
    case Quiet => d
    case Batched(b) => Touched(d, b, TimeOf(b, 0))
    case Beating(hb) => Jobs.Beaten(d, hb, 0)
  }

  /** What a handling does to one device. */
  function DeviceStep(d: Option<Device>, h: Handled, serial: Serial): Option<Device> {
    if d.Some? then Some(Heed(d.value, SignOf(h, serial))) else None
  }

  lemma DeviceStepAt(p: Picture, h: Handled, serial: Serial)
    ensures Look(Step(p, h).snapshot.devices, serial) == DeviceStep(Look(p.snapshot.devices, serial), h, serial)
  {
    if h.msg.Reported? {
      DeviceAt(p.snapshot, Redelivery.Handling(h.msg.b, h.extent), serial);
    }
  }

  /** Batches and heartbeats overwrite each other in every column, and flip the status alike. */
  lemma SignsOverwrite(d: Device, sign: Sign, x: Sign)
    ensures Heed(Heed(d, sign), sign) == Heed(d, sign)
    ensures Heed(Heed(Heed(d, sign), x), sign) == Heed(Heed(d, x), sign)
  {
    match x
    case Quiet =>
    case Batched(_) =>
    case Beating(_) =>
  }

  lemma DeviceStepOverwrites(d: Option<Device>, f: Handled, x: Handled, g: Handled, serial: Serial)
    requires Redelivery.Supersedes(g, f)
    ensures DeviceStep(DeviceStep(d, f, serial), g, serial) == DeviceStep(d, g, serial)
    ensures DeviceStep(DeviceStep(DeviceStep(d, f, serial), x, serial), g, serial)
            == DeviceStep(DeviceStep(d, x, serial), g, serial)
  {
    assert SignOf(f, serial) == Quiet || SignOf(f, serial) == SignOf(g, serial);
    if d.Some? {
      SignsOverwrite(d.value, SignOf(g, serial), SignOf(x, serial));
    }
  }

  lemma DevicesObey(p: Picture, f: Handled, x: Handled, g: Handled)
    requires Redelivery.Supersedes(g, f)
    ensures Step(Step(p, f), g).snapshot.devices == Step(p, g).snapshot.devices
    ensures Step(Step(Step(p, f), x), g).snapshot.devices == Step(Step(p, x), g).snapshot.devices
  {
    var fg, g1 := Step(Step(p, f), g).snapshot.devices, Step(p, g).snapshot.devices;
    var fxg, xg := Step(Step(Step(p, f), x), g).snapshot.devices, Step(Step(p, x), g).snapshot.devices;
    forall serial ensures Look(fg, serial) == Look(g1, serial) && Look(fxg, serial) == Look(xg, serial) {
      DeviceStepAt(p, f, serial);
      DeviceStepAt(p, x, serial);
      DeviceStepAt(p, g, serial);
      DeviceStepAt(Step(p, f), g, serial);
      DeviceStepAt(Step(p, f), x, serial);
      DeviceStepAt(Step(p, x), g, serial);
      DeviceStepAt(Step(Step(p, f), x), g, serial);
      DeviceStepOverwrites(Look(p.snapshot.devices, serial), f, x, g, serial);
    }
    SameMaps(fg, g1);
    SameMaps(fxg, xg);
  }

  /** The same known devices, sensors and samples. */
  predicate SameRest(a: Snapshot, b: Snapshot) {
    a.devices.Keys == b.devices.Keys && a.sensors == b.sensors && a.samples == b.samples
  }

  lemma StepKeepsSameRest(p: Picture, q: Picture, h: Handled)
    requires SameRest(p.snapshot, q.snapshot)
    ensures SameRest(Step(p, h).snapshot, Step(q, h).snapshot)
    ensures !h.msg.Reported? ==> SameRest(Step(p, h).snapshot, p.snapshot)
  {
  }

  lemma RestObeys(p: Picture, f: Handled, x: Handled, g: Handled)
    requires Redelivery.Supersedes(g, f)
    ensures SameRest(Step(Step(p, f), g).snapshot, Step(p, g).snapshot)
    ensures SameRest(Step(Step(Step(p, f), x), g).snapshot, Step(Step(p, x), g).snapshot)
  {
    if !f.msg.Reported? {
      StepKeepsSameRest(p, p, f);
      StepKeepsSameRest(Step(p, f), p, g);
      StepKeepsSameRest(Step(p, f), p, x);
      StepKeepsSameRest(Step(Step(p, f), x), Step(p, x), g);
    } else {
      ReportsObey(p, f, x, g);
    }
  }

  lemma ReportsObey(p: Picture, f: Handled, x: Handled, g: Handled)
    requires Redelivery.Supersedes(g, f) && f.msg.Reported?
    ensures SameRest(Step(Step(p, f), g).snapshot, Step(p, g).snapshot)
    ensures SameRest(Step(Step(Step(p, f), x), g).snapshot, Step(Step(p, x), g).snapshot)
  {
    var early, late := Redelivery.Handling(f.msg.b, f.extent), Redelivery.Handling(g.msg.b, g.extent);
    if x.msg.Reported? {
      AbsorbTwice(p.snapshot, early, Redelivery.Handling(x.msg.b, x.extent), late);
    } else {
      AbsorbTwice(p.snapshot, early, early, late);
      StepKeepsSameRest(p, p, x);
      StepKeepsSameRest(Step(p, f), Step(p, f), x);
      StepKeepsSameRest(Step(p, x), p, g);
      StepKeepsSameRest(Step(Step(p, f), x), Step(p, f), g);
    }
  }

  lemma CommandsObey(p: Picture, f: Handled, x: Handled, g: Handled)
    requires Redelivery.Supersedes(g, f)
    ensures Step(Step(p, f), g).commands == Step(p, g).commands
    ensures Step(Step(Step(p, f), x), g).commands == Step(Step(p, x), g).commands
  {
    if f.msg.Answered? {
      var early := Redelivery.Handling(f.msg.answer, f.extent);
      var late := Redelivery.Handling(g.msg.answer, g.extent);
      var between := if x.msg.Answered? then Redelivery.Handling(x.msg.answer, x.extent) else early;
      Commands.DeliverAgain(p.commands, early, late);
      Commands.DeliverTwice(p.commands, early, between, late);
    }
  }

  lemma StepObeys(p: Picture, f: Handled, x: Handled, g: Handled)
    requires Redelivery.Supersedes(g, f)
    ensures Step(Step(p, f), g) == Step(p, g)
    ensures Step(Step(Step(p, f), x), g) == Step(Step(p, x), g)
  {
    DevicesObey(p, f, x, g);
    RestObeys(p, f, x, g);
    CommandsObey(p, f, x, g);
  }

  /** The three handlers together obey the two-message law. */
  lemma BridgeOverwrites()
    ensures Redelivery.Overwriting(Step) && Redelivery.StartsBlank(Step)
  {
    forall p, f, g | Redelivery.Supersedes(g, f) ensures Step(Step(p, f), g) == Step(p, g) {
      StepObeys(p, f, f, g);
    }
    forall p, f, x, g | Redelivery.Supersedes(g, f) ensures Step(Step(Step(p, f), x), g) == Step(Step(p, x), g) {
      StepObeys(p, f, x, g);
    }
    forall p, m ensures Step(p, Redelivery.Handling(m, Redelivery.Cut(0))) == p {
    }
  }

  // ---- Without the times of handling ------------------------------------------------------

  function UnseenDevice(d: Device): Device {
    d.(lastSeen := None)
  }

  function TimelessSensor(s: Sensor): Sensor {
    s.(lastAt := None)
  }

  function TimelessSample(x: Sample): Sample {
    x.(time := 0)
  }

  function UnseenDevices(devices: map<Serial, Device>): map<Serial, Device> {
    map serial | serial in devices :: UnseenDevice(devices[serial])
  }

  function TimelessSensors(sensors: map<SensorId, Sensor>): map<SensorId, Sensor> {
    map id | id in sensors :: TimelessSensor(sensors[id])
  }

  function TimelessSamples(xs: set<Sample>): set<Sample> {
    set x | x in xs :: TimelessSample(x)
  }

  /** Without the times devices were last seen, which heartbeats stamp on their own. */
  function Unseen(p: Picture): Picture {
    p.(snapshot := p.snapshot.(devices := UnseenDevices(p.snapshot.devices)))
  }

  /** Without any time stamp of a device, a sensor or a sample, for batches that do not carry their time. */
  function Timeless(p: Picture): Picture {
    var s := p.snapshot;
    p.(snapshot := Snapshot(UnseenDevices(s.devices), TimelessSensors(s.sensors), TimelessSamples(s.samples)))
  }

  function UnseenOption(d: Option<Device>): Option<Device> {
    if d.Some? then Some(UnseenDevice(d.value)) else None
  }

  function TimelessOption(s: Option<Sensor>): Option<Sensor> {
    if s.Some? then Some(TimelessSensor(s.value)) else None
  }

  lemma UnseenAt(devices: map<Serial, Device>, serial: Serial)
    ensures Look(UnseenDevices(devices), serial) == UnseenOption(Look(devices, serial))
  {
  }

  lemma TimelessAt(sensors: map<SensorId, Sensor>, id: SensorId)
    ensures Look(TimelessSensors(sensors), id) == TimelessOption(Look(sensors, id))
  {
  }

  lemma SameKnown(a: map<Serial, Device>, b: map<Serial, Device>)
    requires UnseenDevices(a) == UnseenDevices(b)
    ensures a.Keys == b.Keys
  {
    assert UnseenDevices(a).Keys == a.Keys && UnseenDevices(b).Keys == b.Keys;
  }

  lemma ForgetTwice(p: Picture)
    ensures Unseen(Unseen(p)) == Unseen(p) && Timeless(Timeless(p)) == Timeless(p)
  {
    var s := p.snapshot;
    assert UnseenDevices(UnseenDevices(s.devices)) == UnseenDevices(s.devices);
    assert TimelessSensors(TimelessSensors(s.sensors)) == TimelessSensors(s.sensors);
    assert TimelessSamples(TimelessSamples(s.samples)) == TimelessSamples(s.samples);
  }

  lemma UnseenHeed(d: Device, e: Device, sign: Sign)
    requires UnseenDevice(d) == UnseenDevice(e)
    ensures UnseenDevice(Heed(d, sign)) == UnseenDevice(Heed(e, sign))
  {
  }

  /** Devices alike but for when they were last seen stay so. */
  lemma DevicesStayAlike(p: Picture, q: Picture, h: Handled)
    requires UnseenDevices(p.snapshot.devices) == UnseenDevices(q.snapshot.devices)
    ensures UnseenDevices(Step(p, h).snapshot.devices) == UnseenDevices(Step(q, h).snapshot.devices)
  {
    var x, y := Step(p, h).snapshot.devices, Step(q, h).snapshot.devices;
    forall serial ensures Look(UnseenDevices(x), serial) == Look(UnseenDevices(y), serial) {
      DeviceStepAt(p, h, serial);
      DeviceStepAt(q, h, serial);
      UnseenAt(p.snapshot.devices, serial);
      UnseenAt(q.snapshot.devices, serial);
      UnseenAt(x, serial);
      UnseenAt(y, serial);
      var d, e := Look(p.snapshot.devices, serial), Look(q.snapshot.devices, serial);
      if d.Some? && e.Some? {
        UnseenHeed(d.value, e.value, SignOf(h, serial));
      }
    }
    SameMaps(UnseenDevices(x), UnseenDevices(y));
  }

  lemma SameUnseen(p: Picture, q: Picture)
    requires UnseenDevices(p.snapshot.devices) == UnseenDevices(q.snapshot.devices)
    requires SameRest(p.snapshot, q.snapshot) && p.commands == q.commands
    ensures Unseen(p) == Unseen(q)
  {
  }

  lemma StepsCommands(p: Picture, q: Picture, h: Handled)
    requires p.commands == q.commands
    ensures Step(p, h).commands == Step(q, h).commands
  {
  }

  lemma UnseenClosed(p: Picture, h: Handled)
    ensures Unseen(Step(Unseen(p), h)) == Unseen(Step(p, h))
  {
    ForgetTwice(p);
    SameKnown(Unseen(p).snapshot.devices, p.snapshot.devices);
    DevicesStayAlike(Unseen(p), p, h);
    StepKeepsSameRest(Unseen(p), p, h);
    StepsCommands(Unseen(p), p, h);
    SameUnseen(Step(Unseen(p), h), Step(p, h));
  }

  /** The same handling at two times, of snapshots alike but for time stamps. */
  predicate AlikeBefore(
    s: Snapshot, t: Snapshot, f: Redelivery.Handling<Batch>, g: Redelivery.Handling<Batch>)
  {
    && s.devices.Keys == t.devices.Keys && TimelessSensors(s.sensors) == TimelessSensors(t.sensors)
    && TimelessSamples(s.samples) == TimelessSamples(t.samples)
    && f.extent == g.extent && f.msg.serial == g.msg.serial && f.msg.readings == g.msg.readings
  }

  lemma SameReach(s: Snapshot, t: Snapshot, f: Redelivery.Handling<Batch>, g: Redelivery.Handling<Batch>)
    requires AlikeBefore(s, t, f, g)
    ensures Stores(s.sensors, f.msg, f.extent) == Stores(t.sensors, g.msg, g.extent)
    ensures f.extent != Redelivery.Cut(0) ==> Reach(s.sensors, f.msg, f.extent) == Reach(t.sensors, g.msg, g.extent)
  {
    forall id ensures Retired(s.sensors, id) <==> Retired(t.sensors, id) {
      TimelessAt(s.sensors, id);
      TimelessAt(t.sensors, id);
    }
    SameAccepted(s.sensors, t.sensors, f.msg.serial, f.msg.readings);
  }

  lemma TimelessApply(touch: Touch, a: Option<Sensor>, b: Option<Sensor>, id: SensorId, at: Time, bt: Time)
    requires TimelessOption(a) == TimelessOption(b)
    ensures TimelessOption(Apply(touch, a, id, at)) == TimelessOption(Apply(touch, b, id, bt))
  {
  }

  lemma SensorsStayAlike(s: Snapshot, t: Snapshot, f: Redelivery.Handling<Batch>, g: Redelivery.Handling<Batch>)
    requires AlikeBefore(s, t, f, g)
    ensures TimelessSensors(Absorb(s, f).sensors) == TimelessSensors(Absorb(t, g).sensors)
  {
    var x, y := Absorb(s, f).sensors, Absorb(t, g).sensors;
    SameReach(s, t, f, g);
    forall id ensures Look(TimelessSensors(x), id) == Look(TimelessSensors(y), id) {
      AbsorbAt(s, f, id);
      AbsorbAt(t, g, id);
      TimelessAt(s.sensors, id);
      TimelessAt(t.sensors, id);
      TimelessAt(x, id);
      TimelessAt(y, id);
      TimelessApply(TouchBy(s, f, id), Look(s.sensors, id), Look(t.sensors, id), id, TimeOf(f.msg, 0),
                    TimeOf(g.msg, 0));
    }
    SameMaps(TimelessSensors(x), TimelessSensors(y));
  }

  lemma TimelessUnion(a: set<Sample>, b: set<Sample>)
    ensures TimelessSamples(a + b) == TimelessSamples(a) + TimelessSamples(b)
  {
  }

  /** Stored at another time a batch leaves the same samples but for the time. */
  lemma TimelessNew(b: Batch, c: Batch, bt: Time, ct: Time)
    requires b.serial == c.serial && b.readings == c.readings
    ensures TimelessSamples(NewSamples(b, bt)) <= TimelessSamples(NewSamples(c, ct))
  {
    var rows, others := RowsFor(b.serial, b.readings, bt, 0), RowsFor(c.serial, c.readings, ct, 0);
    forall y | y in TimelessSamples(NewSamples(b, bt)) ensures y in TimelessSamples(NewSamples(c, ct)) {
      var x :| x in NewSamples(b, bt) && TimelessSample(x) == y;
      var i :| 0 <= i < |rows| && SampleOf(rows[i]) == x;
      assert SampleOf(others[i]) in NewSamples(c, ct) && TimelessSample(SampleOf(others[i])) == y;
    }
  }

  lemma SamplesStayAlike(s: Snapshot, t: Snapshot, f: Redelivery.Handling<Batch>, g: Redelivery.Handling<Batch>)
    requires AlikeBefore(s, t, f, g)
    ensures TimelessSamples(Absorb(s, f).samples) == TimelessSamples(Absorb(t, g).samples)
  {
    SameReach(s, t, f, g);
    AddedIsStable(s, f, f);
    AddedIsStable(t, g, g);
    TimelessUnion(s.samples, Added(s, f));
    TimelessUnion(t.samples, Added(t, g));
    TimelessNew(f.msg, g.msg, TimeOf(f.msg, 0), TimeOf(g.msg, 0));
    TimelessNew(g.msg, f.msg, TimeOf(g.msg, 0), TimeOf(f.msg, 0));
  }

  lemma TimelessClosed(p: Picture, h: Handled)
    ensures Timeless(Step(Timeless(p), h)) == Timeless(Step(p, h))
  {
    var q := Timeless(p);
    ForgetTwice(p);
    SameKnown(q.snapshot.devices, p.snapshot.devices);
    DevicesStayAlike(q, p, h);
    if h.msg.Reported? {
      var f := Redelivery.Handling(h.msg.b, h.extent);
      SensorsStayAlike(q.snapshot, p.snapshot, f, f);
      SamplesStayAlike(q.snapshot, p.snapshot, f, f);
    }
  }

  // ---- Convergence ------------------------------------------------------------------------

  /** What the bridge writes: the telemetry store and the command rows. */
  datatype Bridge = Bridge(store: Store, rows: map<Commands.CommandId, Commands.Command>)

  function PictureOf(br: Bridge): Picture {
    Picture(SnapshotOf(br.store), Commands.TableProgress(br.rows))
  }

  /** One message handled at `now`, as far as the handling gets. */
  function Handle(br: Bridge, h: Handled, now: Time): Bridge {
    match h.msg
    case Reported(b) => br.(store := IngestTo(br.store, b, now, h.extent))
    case Status(serial, hb) => br.(store := br.store.(devices := Beat(br.store.devices, serial, hb, h.extent, now)))
    case Answered(answer) =>
      br.(rows := Commands.HandledTo(br.rows, Redelivery.Handling(answer, h.extent), now))
  }

  /** The message shows in itself when it was sent, as far as its handling stamps anything but last_seen. */
  predicate Dated(m: Message) {
    m.Reported? ==> m.b.time.Some?
  }

  lemma BeatAlike(
    devices: map<Serial, Device>, serial: Serial, hb: Jobs.Heartbeat, extent: Redelivery.Extent, now: Time)
    ensures UnseenDevices(Beat(devices, serial, hb, extent, now)) == UnseenDevices(Beat(devices, serial, hb, extent, 0))
  {
  }

  lemma DatedIsStep(br: Bridge, h: Handled, now: Time)
    requires Dated(h.msg)
    ensures Unseen(PictureOf(Handle(br, h, now))) == Unseen(Step(PictureOf(br), h))
  {
    match h.msg
    case Reported(b) => IngestIsAbsorb(br.store, Redelivery.Handling(b, h.extent), now);
    case Status(serial, hb) => BeatAlike(br.store.devices, serial, hb, h.extent, now);
    case Answered(answer) => Commands.HandledIsDelivered(br.rows, Redelivery.Handling(answer, h.extent), now);
  }

  /** An undated batch is handled as if it carried the moment of its handling. */
  lemma IngestStamps(store: Store, b: Batch, now: Time, extent: Redelivery.Extent)
    ensures IngestTo(store, b, now, extent) == IngestTo(store, b.(time := Some(TimeOf(b, now))), now, extent)
  {
  }

  lemma AnyIsStep(br: Bridge, h: Handled, now: Time)
    ensures Timeless(PictureOf(Handle(br, h, now))) == Timeless(Step(PictureOf(br), h))
  {
    match h.msg
    case Reported(b) =>
      var s := SnapshotOf(br.store);
      var f, g := Redelivery.Handling(b.(time := Some(TimeOf(b, now))), h.extent), Redelivery.Handling(b, h.extent);
      IngestStamps(br.store, b, now, h.extent);
      IngestIsAbsorb(br.store, f, now);
      SensorsStayAlike(s, s, f, g);
      SamplesStayAlike(s, s, f, g);
      assert UnseenDevices(Absorb(s, f).devices) == UnseenDevices(Absorb(s, g).devices);
    case Status(serial, hb) => BeatAlike(br.store.devices, serial, hb, h.extent, now);
    case Answered(answer) => Commands.HandledIsDelivered(br.rows, Redelivery.Handling(answer, h.extent), now);
  }

  function HandleEach(br: Bridge, hs: seq<Handled>, clock: Alerts.Clock, tick: nat): Bridge
    decreases |hs|
  {
    if hs == [] then br else HandleEach(Handle(br, hs[0], clock(tick)), hs[1..], clock, tick + 1)
  }

  lemma {:induction false} DatedIsFold(br: Bridge, hs: seq<Handled>, clock: Alerts.Clock, tick: nat)
    requires forall i :: 0 <= i < |hs| ==> Dated(hs[i].msg)
    ensures Unseen(PictureOf(HandleEach(br, hs, clock, tick)))
            == Redelivery.Fold(Redelivery.Viewed(Step, Unseen), Unseen(PictureOf(br)), hs)
    decreases |hs|
  {
    if hs != [] {
      DatedIsStep(br, hs[0], clock(tick));
      UnseenClosed(PictureOf(br), hs[0]);
      DatedIsFold(Handle(br, hs[0], clock(tick)), hs[1..], clock, tick + 1);
    }
  }

  lemma {:induction false} AnyIsFold(br: Bridge, hs: seq<Handled>, clock: Alerts.Clock, tick: nat)
    ensures Timeless(PictureOf(HandleEach(br, hs, clock, tick)))
            == Redelivery.Fold(Redelivery.Viewed(Step, Timeless), Timeless(PictureOf(br)), hs)
    decreases |hs|
  {
    if hs != [] {
      AnyIsStep(br, hs[0], clock(tick));
      TimelessClosed(PictureOf(br), hs[0]);
      AnyIsFold(Handle(br, hs[0], clock(tick)), hs[1..], clock, tick + 1);
    }
  }

  lemma ViewsObey()
    ensures Redelivery.Overwriting(Redelivery.Viewed(Step, Unseen))
    ensures Redelivery.Overwriting(Redelivery.Viewed(Step, Timeless))
  {
    BridgeOverwrites();
    forall p, h ensures Unseen(Step(Unseen(p), h)) == Unseen(Step(p, h)) {
      UnseenClosed(p, h);
    }
    forall p, h ensures Timeless(Step(Timeless(p), h)) == Timeless(Step(p, h)) {
      TimelessClosed(p, h);
    }
    Redelivery.ViewOverwrites(Step, Unseen);
    Redelivery.ViewOverwrites(Step, Timeless);
  }

  /**
   Main result for the whole bridge: whatever QoS 1 session delivers telemetry, heartbeats and
   command results together, whenever, and wherever handlings raise, as long as no final copy
   writes less than an earlier one, everything but the times devices were last seen ends as if each
   message had been handled once, in order, as far as its final copy was; the batches carry their
   time.
   */
  lemma DatedBridgeConverges(
    br: Bridge, published: seq<Message>, ws: seq<Redelivery.Wire>, clock: Alerts.Clock, onceClock: Alerts.Clock)
    requires Redelivery.Delivered(|published|, ws)
    requires forall i :: 0 <= i < |published| ==> Dated(published[i])
    ensures var arrived := Redelivery.Connect(|published|, ws).arrived;
            && Redelivery.Numbered(Redelivery.Packets(arrived), |published|)
            && (forall p: nat :: p < |published| ==> p in Redelivery.Packets(arrived))
            && Unseen(PictureOf(HandleEach(br, Redelivery.Arrivals(published, arrived), clock, 0)))
               == Unseen(PictureOf(HandleEach(br, Redelivery.Once(published, arrived), onceClock, 0)))
  {
    var arrived := Redelivery.Connect(|published|, ws).arrived;
    ViewsObey();
    Redelivery.AtLeastOnceIsExactlyOnce(Redelivery.Viewed(Step, Unseen), Unseen(PictureOf(br)), published, ws);
    DatedIsFold(br, Redelivery.Arrivals(published, arrived), clock, 0);
    DatedIsFold(br, Redelivery.Once(published, arrived), onceClock, 0);
  }

  /** And for any messages at all, everything but time stamps. */
  lemma BridgeConverges(
    br: Bridge, published: seq<Message>, ws: seq<Redelivery.Wire>, clock: Alerts.Clock, onceClock: Alerts.Clock)
    requires Redelivery.Delivered(|published|, ws)
    ensures var arrived := Redelivery.Connect(|published|, ws).arrived;
            && Redelivery.Numbered(Redelivery.Packets(arrived), |published|)
            && (forall p: nat :: p < |published| ==> p in Redelivery.Packets(arrived))
            && Timeless(PictureOf(HandleEach(br, Redelivery.Arrivals(published, arrived), clock, 0)))
               == Timeless(PictureOf(HandleEach(br, Redelivery.Once(published, arrived), onceClock, 0)))
  {
    var arrived := Redelivery.Connect(|published|, ws).arrived;
    ViewsObey();
    Redelivery.AtLeastOnceIsExactlyOnce(Redelivery.Viewed(Step, Timeless), Timeless(PictureOf(br)), published, ws);
    AnyIsFold(br, Redelivery.Arrivals(published, arrived), clock, 0);
    AnyIsFold(br, Redelivery.Once(published, arrived), onceClock, 0);
  }
}
