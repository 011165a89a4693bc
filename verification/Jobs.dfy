/** The background jobs over the fleet: the liveness watchdog and the battery/health backstop. */
module Jobs {
  import opened Options
  import opened Alerts
  import opened AlertService
  import opened Rules
  import opened Evaluation
  import opened Demands
  import T = Telemetry

  type Fleet = map<Serial, T.Device>

  ghost predicate DistinctSerials(order: seq<Serial>) {
    forall i, j :: 0 <= i < j < |order| ==> order[i] != order[j]
  }

  /** The answer of a query over all devices: each once, in the database's order. */
  ghost predicate Lists(order: seq<Serial>, devices: Fleet) {
    DistinctSerials(order) && forall s :: s in order <==> s in devices
  }

  lemma {:induction false} DistinctIsSet(order: seq<Serial>, all: set<Serial>)
    requires DistinctSerials(order) && forall s :: s in order <==> s in all
    ensures |order| == |all|
  {
    if order == [] {
      assert all == {};
    } else {
      var front, last := order[..|order| - 1], order[|order| - 1];
      assert order == front + [last];
      assert forall s :: s in front <==> s in all - {last};
      DistinctIsSet(front, all - {last});
    }
  }

  // ---- The watchdog -----------------------------------------------------------------------

  const OFFLINE_AFTER: Time := 120 * SECOND

  /** Believed alive but not seen since the cutoff; the comparison is never true of NULL. */
  predicate Stale(d: T.Device, cutoff: Time) {
    d.lastSeen.Some? && d.lastSeen.value < cutoff && (d.status.Online? || d.status.Degraded?)
  }

  function StaleOnes(order: seq<Serial>, devices: Fleet, cutoff: Time): (stale: seq<Serial>)
    requires forall s <- order :: s in devices
    ensures forall s :: s in stale <==> s in order && Stale(devices[s], cutoff)
  {
    if order == [] then []
    else
      var s := order[|order| - 1];
      StaleOnes(order[..|order| - 1], devices, cutoff) + if Stale(devices[s], cutoff) then [s] else []
  }

  lemma {:induction false} StaleAreDistinct(order: seq<Serial>, devices: Fleet, cutoff: Time)
    requires DistinctSerials(order) && forall s <- order :: s in devices
    ensures DistinctSerials(StaleOnes(order, devices, cutoff))
  {
    if order != [] {
      var front, last := order[..|order| - 1], order[|order| - 1];
      StaleAreDistinct(front, devices, cutoff);
      assert last !in front;
    }
  }

  /** The first active offline rule of the organisation for this device or for all devices. */
  function OfflineRule(rules: seq<Rule>, org: OrgId, serial: Serial): Option<Rule> {
    if rules == [] then None
    else
      var r := rules[0];
      if r.org == org && r.source.Offline? && r.active && (r.device == Some(serial) || r.device.None?) then Some(r)
      else OfflineRule(rules[1..], org, serial)
  }

  /** An active offline rule of the organisation, for this device or for all. */
  predicate WatchesOffline(r: Rule, org: OrgId, serial: Serial) {
    r.org == org && r.source == Offline && r.active && r.device in {None, Some(serial)}
  }

  ghost predicate FirstOffline(rules: seq<Rule>, org: OrgId, serial: Serial, j: nat) {
    && j < |rules| && WatchesOffline(rules[j], org, serial)
    && forall i :: 0 <= i < j ==> !WatchesOffline(rules[i], org, serial)
  }

  ghost predicate NoneWatches(rules: seq<Rule>, org: OrgId, serial: Serial) {
    forall j :: 0 <= j < |rules| ==> !WatchesOffline(rules[j], org, serial)
  }

  /** The rule that is taken is the first that qualifies. */
  lemma {:induction false} OfflineRuleIsFirst(rules: seq<Rule>, org: OrgId, serial: Serial)
    ensures match OfflineRule(rules, org, serial)
            case None => NoneWatches(rules, org, serial)
            case Some(r) => exists j: nat :: FirstOffline(rules, org, serial, j) && rules[j] == r
  {
    if rules != [] && !WatchesOffline(rules[0], org, serial) {
      var rest := rules[1..];
      assert rules == [rules[0]] + rest;
      OfflineRuleIsFirst(rest, org, serial);
      if OfflineRule(rest, org, serial).Some? {
        var j: nat :| FirstOffline(rest, org, serial, j) && rest[j] == OfflineRule(rest, org, serial).value;
        assert FirstOffline(rules, org, serial, j + 1);
      }
    } else if rules != [] {
      assert FirstOffline(rules, org, serial, 0);
    }
  }

  /** What a pass makes of a device. */
  function SweptDevice(d: T.Device, cutoff: Time): T.Device {
    if Stale(d, cutoff) then d.(status := T.Offline) else d
  }

  /** The alert for a silent device; without a rule it is critical, unconditional and not indexed. */
  function OfflineDemand(serial: Serial, d: T.Device, rules: seq<Rule>): Demand {
    var title, message := d.name + " is offline", "Device " + serial + " missed its heartbeat window.";
    match OfflineRule(rules, d.org, serial)
    case None =>
      Demand(Request(AlertKey(None, Some(serial)), d.org, None, Critical, title, message, None, None), [])
    case Some(r) =>
      Demand(Request(AlertKey(Some(r.id), Some(serial)), d.org, None, r.severity, title, message, None,
                     Some(r.cooldown)),
             r.channels)
  }

  function OfflineDemands(stale: seq<Serial>, devices: Fleet, rules: seq<Rule>): (ds: seq<Demand>)
    requires forall s <- stale :: s in devices
    ensures |ds| == |stale|
    ensures forall i :: 0 <= i < |ds| ==> ds[i] == OfflineDemand(stale[i], devices[stale[i]], rules)
  {
    seq(|stale|, i requires 0 <= i < |stale| => OfflineDemand(stale[i], devices[stale[i]], rules))
  }

  /** The raise for a silent device, column by column. */
  ghost predicate AsksForOffline(op: Op, serial: Serial, d: T.Device, rules: seq<Rule>, dir: Directory) {
    && op.DoRaise? && op.dir == dir && op.req.key.device == Some(serial) && op.req.org == d.org
    && op.req.sensor == None && op.req.value == None && op.req.title == d.name + " is offline"
    && op.req.message == "Device " + serial + " missed its heartbeat window."
    && (forall j: nat :: FirstOffline(rules, d.org, serial, j) ==>
          && op.req.key.rule == Some(rules[j].id) && op.req.severity == rules[j].severity
          && op.req.cooldown == Some(rules[j].cooldown) && op.chosen == rules[j].channels)
    && (NoneWatches(rules, d.org, serial) ==>
          op.req.key.rule == None && op.req.severity == Critical && op.req.cooldown == None && op.chosen == [])
  }

  lemma OfflineAsks(serial: Serial, d: T.Device, rules: seq<Rule>, dir: Directory)
    ensures var q := OfflineDemand(serial, d, rules);
            AsksForOffline(DoRaise(q.req, q.channels, dir), serial, d, rules, dir)
  {
    OfflineRuleIsFirst(rules, d.org, serial);
    if i: nat, j: nat :| FirstOffline(rules, d.org, serial, i) && FirstOffline(rules, d.org, serial, j) && i != j {
      assert false;
    }
  }

  /** A row opened for a silent device. */
  ghost predicate OfflineRow(a: Alert, fleet: Fleet, rules: seq<Rule>) {
    && a.key.device.Some? && a.key.device.value in fleet
    && var serial, d := a.key.device.value, fleet[a.key.device.value];
       && a.org == d.org && a.sensor == None && a.value == None && a.title == d.name + " is offline"
       && (forall j: nat :: FirstOffline(rules, d.org, serial, j) ==>
             a.key.rule == Some(rules[j].id) && a.severity == rules[j].severity)
       && (NoneWatches(rules, d.org, serial) ==> a.key.rule == None && a.severity == Critical)
  }

  /** One raise for each silent device, in order. */
  ghost predicate RaisesForAll(ops: seq<Op>, stale: seq<Serial>, fleet: Fleet, rules: seq<Rule>, dir: Directory)
    requires forall s <- stale :: s in fleet
  {
    && |ops| == |stale|
    && forall i :: 0 <= i < |ops| ==> AsksForOffline(ops[i], stale[i], fleet[stale[i]], rules, dir)
  }

  /** The pass is the serial run of such raises. */
  ghost predicate PassIsRun(
    clock: Clock, db: Db, after: Db, stale: seq<Serial>, fleet: Fleet, rules: seq<Rule>, dir: Directory)
    requires forall s <- stale :: s in fleet
  {
    exists ops: seq<Op> :: RaisesForAll(ops, stale, fleet, rules, dir) && after == Run(clock, db, ops)
  }

  lemma EachIsAskedFor(stale: seq<Serial>, fleet: Fleet, rules: seq<Rule>, dir: Directory)
    requires forall s <- stale :: s in fleet
    ensures RaisesForAll(RaiseOps(OfflineDemands(stale, fleet, rules), dir), stale, fleet, rules, dir)
  {
    var ops := RaiseOps(OfflineDemands(stale, fleet, rules), dir);
    forall i | 0 <= i < |stale| ensures AsksForOffline(ops[i], stale[i], fleet[stale[i]], rules, dir) {
      OfflineAsks(stale[i], fleet[stale[i]], rules, dir);
    }
  }

  lemma PassRuns(clock: Clock, db: Db, stale: seq<Serial>, fleet: Fleet, rules: seq<Rule>, dir: Directory)
    requires forall s <- stale :: s in fleet
    requires RaiseAll(clock, db, OfflineDemands(stale, fleet, rules), dir).1
    ensures var after := RaiseAll(clock, db, OfflineDemands(stale, fleet, rules), dir).0;
            PassIsRun(clock, db, after, stale, fleet, rules, dir)
  {
    EachIsAskedFor(stale, fleet, rules, dir);
    JobIsRun(clock, db, OfflineDemands(stale, fleet, rules), dir);
  }

  lemma MeetingRow(a: Alert, serial: Serial, fleet: Fleet, rules: seq<Rule>, dir: Directory)
    requires serial in fleet && Meets(a, OfflineDemand(serial, fleet[serial], rules))
    ensures OfflineRow(a, fleet, rules)
  {
    OfflineAsks(serial, fleet[serial], rules, dir);
  }

  /** What a pass adds is for the rules it is for, and the rows there were stay what they are about. */
  ghost predicate OpensForRules(before: seq<Alert>, after: seq<Alert>, fleet: Fleet, rules: seq<Rule>) {
    && KeepsColumns(before, after)
    && forall i :: |before| <= i < |after| ==> OfflineRow(after[i], fleet, rules)
  }

  lemma PassOpensForRules(clock: Clock, db: Db, stale: seq<Serial>, fleet: Fleet, rules: seq<Rule>, dir: Directory)
    requires DistinctSerials(stale) && forall s <- stale :: s in fleet
    ensures OpensForRules(db.rows, RaiseAll(clock, db, OfflineDemands(stale, fleet, rules), dir).0.rows, fleet, rules)
  {
    var ds := OfflineDemands(stale, fleet, rules);
    var after := RaiseAll(clock, db, ds, dir).0.rows;
    OfflineKeysAreDistinct(stale, fleet, rules);
    RaiseAllAdds(clock, db, ds, dir);
    forall i | |db.rows| <= i < |after| ensures OfflineRow(after[i], fleet, rules) {
      assert Demanded(after[i], ds);
      var j :| 0 <= j < |ds| && Meets(after[i], ds[j]);
      MeetingRow(after[i], stale[j], fleet, rules, dir);
    }
  }

  lemma OfflineKeysAreDistinct(stale: seq<Serial>, devices: Fleet, rules: seq<Rule>)
    requires DistinctSerials(stale) && forall s <- stale :: s in devices
    ensures DistinctKeys(OfflineDemands(stale, devices, rules))
  {
    var ds := OfflineDemands(stale, devices, rules);
    forall i, j | 0 <= i < j < |ds| ensures ds[i].req.key != ds[j].req.key {
      assert ds[i].req.key.device == Some(stale[i]) && ds[j].req.key.device == Some(stale[j]);
    }
  }

  /** The fleet with these devices marked offline. */
  function MarkedOffline(devices: Fleet, stale: seq<Serial>): Fleet {
    map s | s in devices :: if s in stale then devices[s].(status := T.Offline) else devices[s]
  }

  /** The key of demand i, and of none before it, has two live open rows to begin with. */
  ghost predicate FirstDuplicated(rows: seq<Alert>, ds: seq<Demand>, i: nat) {
    i < |ds| && Duplicated(rows, ds[i].req.key) && NoneDuplicated(rows, ds[..i])
  }

  lemma FirstFound(rows: seq<Alert>, ds: seq<Demand>, i: nat)
    requires i < |ds| && NoneDuplicated(rows, ds[..i]) && !NoneDuplicated(rows, ds[..i + 1])
    ensures FirstDuplicated(rows, ds, i) && !NoneDuplicated(rows, ds)
  {
    assert forall j :: 0 <= j < i ==> ds[..i][j] == ds[j];
    var j :| 0 <= j < i + 1 && Duplicated(rows, ds[..i + 1][j].req.key);
    assert Duplicated(rows, ds[j].req.key);
  }

  /** A job whose raise i is the first to fail: what is duplicated, and what the raises before it left. */
  lemma FailureShows(clock: Clock, db: Db, ds: seq<Demand>, dir: Directory, i: nat)
    requires DistinctKeys(ds) && i < |ds|
    requires RaiseAll(clock, db, ds[..i], dir).1 && !RaiseAll(clock, db, ds[..i + 1], dir).1
    ensures FirstDuplicated(db.rows, ds, i) && !NoneDuplicated(db.rows, ds)
    ensures var before := RaiseAll(clock, db, ds[..i], dir).0;
            && RaiseAll(clock, db, ds[..i + 1], dir).0 == before
            && AllSupplied(db.rows, before.rows, ds[..i]) && ClosesNothing(db.rows, before.rows)
  {
    RaiseAllSupplies(clock, db, ds[..i], dir);
    RaiseAllSupplies(clock, db, ds[..i + 1], dir);
    FirstFound(db.rows, ds, i);
    NextRaise(clock, db, ds, dir, i, RaiseAll(clock, db, ds[..i], dir).0);
    FailedRaiseIsNone(clock, RaiseAll(clock, db, ds[..i], dir).0, ds[i], dir);
  }

  lemma FailedRaiseIsNone(clock: Clock, db: Db, d: Demand, dir: Directory)
    ensures var (after, outcome) := Raise(clock, db, d.req, d.channels, dir); outcome.Failed? ==> after == db
  {
  }

  /** The stale device can be given its offline alert. */
  ghost predicate CanRaise(rows: seq<Alert>, s: Serial, d: T.Device, rules: seq<Rule>) {
    !Duplicated(rows, OfflineDemand(s, d, rules).req.key)
  }

  ghost predicate HasOfflineAlert(before: seq<Alert>, after: seq<Alert>, s: Serial, d: T.Device, rules: seq<Rule>) {
    Supplied(before, after, OfflineDemand(s, d, rules))
  }

  /** What a pass leaves whose raise for the i-th stale device failed. */
  ghost predicate FailedAt(before: Fleet, after: Fleet, rows: seq<Alert>, left: seq<Alert>, stale: seq<Serial>,
                           rules: seq<Rule>, i: nat)
    requires forall s <- stale :: s in before
  {
    && i < |stale| && after == MarkedOffline(before, stale[..i + 1])
    && !CanRaise(rows, stale[i], before[stale[i]], rules)
    && (forall j :: 0 <= j < i ==> HasOfflineAlert(rows, left, stale[j], before[stale[j]], rules))
    && ClosesNothing(rows, left)
  }

  lemma FailureLeaves(
    clock: Clock, db: Db, fleet: Fleet, stale: seq<Serial>, rules: seq<Rule>, dir: Directory, i: nat)
    requires DistinctSerials(stale) && i < |stale| && forall s <- stale :: s in fleet
    requires var ds := OfflineDemands(stale, fleet, rules);
             RaiseAll(clock, db, ds[..i], dir).1 && !RaiseAll(clock, db, ds[..i + 1], dir).1
    ensures !NoneDuplicated(db.rows, OfflineDemands(stale, fleet, rules))
    ensures var left := RaiseAll(clock, db, OfflineDemands(stale, fleet, rules)[..i + 1], dir).0.rows;
            FailedAt(fleet, MarkedOffline(fleet, stale[..i + 1]), db.rows, left, stale, rules, i)
  {
    var ds := OfflineDemands(stale, fleet, rules);
    OfflineKeysAreDistinct(stale, fleet, rules);
    FailureShows(clock, db, ds, dir, i);
    var left := RaiseAll(clock, db, ds[..i + 1], dir).0.rows;
    forall j | 0 <= j < i ensures HasOfflineAlert(db.rows, left, stale[j], fleet[stale[j]], rules) {
      assert Supplied(db.rows, left, ds[..i][j]);
    }
  }

  /** After i rounds the first i devices are offline and their raises made, none of which failed. */
  ghost predicate Marked(
    clock: Clock, db: Db, fleet: Fleet, stale: seq<Serial>, rules: seq<Rule>, dir: Directory, i: nat,
    devices: Fleet, now: Db)
    requires i <= |stale| && forall s <- stale :: s in fleet
  {
    && devices == MarkedOffline(fleet, stale[..i])
    && RaiseAll(clock, db, OfflineDemands(stale, fleet, rules)[..i], dir) == (now, true)
  }

  /** One more raise of a job. */
  lemma NextRaise(clock: Clock, db: Db, ds: seq<Demand>, dir: Directory, i: nat, now: Db)
    requires i < |ds| && RaiseAll(clock, db, ds[..i], dir) == (now, true)
    ensures var (after, outcome) := Raise(clock, now, ds[i].req, ds[i].channels, dir);
            RaiseAll(clock, db, ds[..i + 1], dir) == (after, !outcome.Failed?)
  {
    assert ds[..i + 1][..i] == ds[..i];
  }

  /** What the next round makes of that. */
  lemma MarkRound(
    clock: Clock, db: Db, fleet: Fleet, stale: seq<Serial>, rules: seq<Rule>, dir: Directory, i: nat,
    devices: Fleet, now: Db)
    requires DistinctSerials(stale) && i < |stale| && forall s <- stale :: s in fleet
    requires Marked(clock, db, fleet, stale, rules, dir, i, devices, now)
    ensures stale[i] in devices && devices[stale[i]] == fleet[stale[i]]
    ensures var (after, fine) := RaiseAll(clock, db, OfflineDemands(stale, fleet, rules)[..i + 1], dir);
            var marked := devices[stale[i] := devices[stale[i]].(status := T.Offline)];
            if !fine then
              !NoneDuplicated(db.rows, OfflineDemands(stale, fleet, rules))
              && FailedAt(fleet, marked, db.rows, after.rows, stale, rules, i)
            else Marked(clock, db, fleet, stale, rules, dir, i + 1, marked, after)
  {
    MarkOneMore(fleet, stale, i);
    if !RaiseAll(clock, db, OfflineDemands(stale, fleet, rules)[..i + 1], dir).1 {
      FailureLeaves(clock, db, fleet, stale, rules, dir, i);
    }
  }

  /** The loop over the stale devices; false if raising an alert failed, which ends it. */
  method MarkOffline(store: T.TelemetryStore, engine: AlertEngine, stale: seq<Serial>, rules: seq<Rule>, dir: Directory)
    returns (fine: bool)
    requires DistinctSerials(stale) && forall s <- stale :: s in store.devices
    modifies store`devices, engine
    ensures fine <==> NoneDuplicated(old(engine.rows), OfflineDemands(stale, old(store.devices), rules))
    ensures fine ==> store.devices == MarkedOffline(old(store.devices), stale)
    ensures fine ==> RaiseAll(engine.clock, old(engine.View()), OfflineDemands(stale, old(store.devices), rules), dir)
                     == (engine.View(), true)
    ensures !fine ==> exists i: nat ::
              FailedAt(old(store.devices), store.devices, old(engine.rows), engine.rows, stale, rules, i)
  {
    ghost var fleet, db, clock := store.devices, engine.View(), engine.clock;
    NothingMarked(fleet);
    for i := 0 to |stale|
      invariant Marked(clock, db, fleet, stale, rules, dir, i, store.devices, engine.View())
    {
      MarkRound(clock, db, fleet, stale, rules, dir, i, store.devices, engine.View());
      NextRaise(clock, db, OfflineDemands(stale, fleet, rules), dir, i, engine.View());
      var outcome := MarkOne(store, engine, stale[i], rules, dir);
      if outcome.Failed? {
        return false;
      }
    }
    AllMarked(clock, db, fleet, stale, rules, dir, store.devices, engine.View());
    return true;
  }

  lemma NothingMarked(fleet: Fleet)
    ensures MarkedOffline(fleet, []) == fleet
  {
  }

  lemma AllMarked(
    clock: Clock, db: Db, fleet: Fleet, stale: seq<Serial>, rules: seq<Rule>, dir: Directory, devices: Fleet, now: Db)
    requires DistinctSerials(stale) && forall s <- stale :: s in fleet
    requires Marked(clock, db, fleet, stale, rules, dir, |stale|, devices, now)
    ensures devices == MarkedOffline(fleet, stale)
    ensures RaiseAll(clock, db, OfflineDemands(stale, fleet, rules), dir) == (now, true)
    ensures NoneDuplicated(db.rows, OfflineDemands(stale, fleet, rules))
  {
    var ds := OfflineDemands(stale, fleet, rules);
    assert stale[..|stale|] == stale && ds[..|stale|] == ds;
    OfflineKeysAreDistinct(stale, fleet, rules);
    RaiseAllSupplies(clock, db, ds, dir);
  }

  /** The loop's body: save the status, then raise the offline alert. */
  method MarkOne(store: T.TelemetryStore, engine: AlertEngine, serial: Serial, rules: seq<Rule>, dir: Directory)
    returns (outcome: Outcome)
    requires serial in store.devices
    modifies store`devices, engine
    ensures store.devices == old(store.devices)[serial := old(store.devices)[serial].(status := T.Offline)]
    ensures var d := OfflineDemand(serial, old(store.devices)[serial], rules);
            (engine.View(), outcome) == Raise(engine.clock, old(engine.View()), d.req, d.channels, dir)
  {
    var device := store.devices[serial].(status := T.Offline);
    store.devices := store.devices[serial := device];
    var demand := OfflineDemand(serial, device, rules);
    outcome := engine.RaiseAlert(demand.req, demand.channels, dir);
  }

  lemma MarkOneMore(devices: Fleet, stale: seq<Serial>, i: nat)
    requires i < |stale| && DistinctSerials(stale) && forall s <- stale :: s in devices
    ensures var before := MarkedOffline(devices, stale[..i]);
            && before[stale[i]] == devices[stale[i]]
            && MarkedOffline(devices, stale[..i + 1]) == before[stale[i] := devices[stale[i]].(status := T.Offline)]
  {
    assert stale[i] !in stale[..i];
    assert stale[..i + 1] == stale[..i] + [stale[i]];
  }

  lemma RaiseOneMore(clock: Clock, db: Db, ds: seq<Demand>, d: Demand, dir: Directory)
    requires RaiseAll(clock, db, ds, dir).1
    ensures var (after, outcome) := Raise(clock, RaiseAll(clock, db, ds, dir).0, d.req, d.channels, dir);
            RaiseAll(clock, db, ds + [d], dir) == (after, !outcome.Failed?)
  {
    assert (ds + [d])[..|ds|] == ds;
  }

  lemma StaleListed(devices: Fleet, order: seq<Serial>, cutoff: Time)
    requires Lists(order, devices)
    ensures var stale := StaleOnes(order, devices, cutoff);
            && DistinctSerials(stale)
            && |stale| == |set s | s in devices && Stale(devices[s], cutoff)|
            && forall s :: s in stale <==> s in devices && Stale(devices[s], cutoff)
  {
    StaleAreDistinct(order, devices, cutoff);
    DistinctIsSet(StaleOnes(order, devices, cutoff), set s | s in devices && Stale(devices[s], cutoff));
  }

  lemma ListedCanRaise(devices: Fleet, stale: seq<Serial>, rules: seq<Rule>, rows: seq<Alert>)
    requires forall s <- stale :: s in devices
    ensures NoneDuplicated(rows, OfflineDemands(stale, devices, rules))
            <==> forall s :: s in stale ==> CanRaise(rows, s, devices[s], rules)
  {
    var ds := OfflineDemands(stale, devices, rules);
    if NoneDuplicated(rows, ds) {
      forall s | s in stale ensures CanRaise(rows, s, devices[s], rules) {
        var i :| 0 <= i < |stale| && stale[i] == s;
        assert !Duplicated(rows, ds[i].req.key);
      }
    }
    if forall s :: s in stale ==> CanRaise(rows, s, devices[s], rules) {
      forall i | 0 <= i < |ds| ensures !Duplicated(rows, ds[i].req.key) {
        assert CanRaise(rows, stale[i], devices[stale[i]], rules);
      }
    }
  }

  lemma ListedHaveAlerts(devices: Fleet, stale: seq<Serial>, rules: seq<Rule>, before: seq<Alert>, after: seq<Alert>)
    requires forall s <- stale :: s in devices
    requires AllSupplied(before, after, OfflineDemands(stale, devices, rules))
    ensures forall s :: s in stale ==> HasOfflineAlert(before, after, s, devices[s], rules)
  {
    var ds := OfflineDemands(stale, devices, rules);
    forall s | s in stale ensures HasOfflineAlert(before, after, s, devices[s], rules) {
      var i :| 0 <= i < |stale| && stale[i] == s;
      assert Supplied(before, after, ds[i]);
    }
  }

  /** What a pass leaves of the alerts: each silent device has its own, and all added are the rules'. */
  ghost predicate PassAlerts(
    clock: Clock, before: Db, after: Db, stale: seq<Serial>, fleet: Fleet, rules: seq<Rule>, dir: Directory)
    requires forall s <- stale :: s in fleet
  {
    && (forall s <- stale :: HasOfflineAlert(before.rows, after.rows, s, fleet[s], rules))
    && PassIsRun(clock, before, after, stale, fleet, rules, dir)
    && OpensForRules(before.rows, after.rows, fleet, rules)
  }

  lemma EachHasItsAlert(
    clock: Clock, db: Db, after: Db, stale: seq<Serial>, fleet: Fleet, rules: seq<Rule>, dir: Directory)
    requires DistinctSerials(stale) && forall s <- stale :: s in fleet
    requires RaiseAll(clock, db, OfflineDemands(stale, fleet, rules), dir) == (after, true)
    ensures PassAlerts(clock, db, after, stale, fleet, rules, dir)
  {
    OfflineKeysAreDistinct(stale, fleet, rules);
    RaiseAllSupplies(clock, db, OfflineDemands(stale, fleet, rules), dir);
    ListedHaveAlerts(fleet, stale, rules, db.rows, after.rows);
    PassRuns(clock, db, stale, fleet, rules, dir);
    PassOpensForRules(clock, db, stale, fleet, rules, dir);
  }

  /** What a pass leaves of the devices. */
  lemma PassDevices(fleet: Fleet, order: seq<Serial>, now: Time)
    requires Lists(order, fleet)
    ensures var cutoff := now - OFFLINE_AFTER;
            var after := MarkedOffline(fleet, StaleOnes(order, fleet, cutoff));
            && after.Keys == fleet.Keys
            && (forall s :: s in fleet ==> after[s] == SweptDevice(fleet[s], cutoff))
            && (forall s :: s in fleet ==>
                  var d := fleet[s];
                  after[s] == if d.status in {T.Online, T.Degraded} && d.lastSeen.Some?
                                 && d.lastSeen.value < now - 120_000_000
                              then d.(status := T.Offline) else d)
            && forall s :: s in after ==> !Stale(after[s], cutoff)
  {
  }

  /** A device marked offline is in no later pass. */
  lemma MarkedIsPassedOver(devices: Fleet, stale: seq<Serial>, order: seq<Serial>, cutoff: Time, s: Serial)
    requires Lists(order, MarkedOffline(devices, stale)) && s in stale
    ensures s !in StaleOnes(order, MarkedOffline(devices, stale), cutoff)
  {
  }

  /**
   One pass at `now`: exactly the stale devices go offline, each gets its alert unless a
   soft-deleted open row refuses it, and the count is theirs. There is no count if raising failed,
   exactly if some stale device has two live open offline alerts under one key; then the devices up
   to that one are offline, those before it have their alerts, and the rest are as before.
   */
  method DetectOfflineDevices(
    store: T.TelemetryStore, engine: AlertEngine, order: seq<Serial>, rules: seq<Rule>, dir: Directory, now: Time)
    returns (count: Option<nat>)
    requires Lists(order, store.devices)
    modifies store`devices, engine
    ensures var fleet, cutoff := old(store.devices), now - OFFLINE_AFTER;
            && (count.Some? <==>
                  forall s :: s in fleet && Stale(fleet[s], cutoff) ==> CanRaise(old(engine.rows), s, fleet[s], rules))
            && (count.Some? ==>
                  && count.value == |set s | s in fleet && Stale(fleet[s], cutoff)|
                  && store.devices.Keys == fleet.Keys
                  && (forall s :: s in fleet ==> store.devices[s] == SweptDevice(fleet[s], cutoff))
                  && (forall s :: s in fleet ==>
                        var d := fleet[s];
                        store.devices[s] == if d.status in {T.Online, T.Degraded} && d.lastSeen.Some?
                                               && d.lastSeen.value < now - 120_000_000
                                            then d.(status := T.Offline) else d)
                  && PassAlerts(engine.clock, old(engine.View()), engine.View(), StaleOnes(order, fleet, cutoff), fleet,
                                rules, dir)
                  && forall s :: s in store.devices ==> !Stale(store.devices[s], cutoff))
            && (count.None? ==> exists i: nat ::
                  FailedAt(fleet, store.devices, old(engine.rows), engine.rows, StaleOnes(order, fleet, cutoff), rules,
                           i))
  {
    var cutoff := now - OFFLINE_AFTER;
    var stale := StaleOnes(order, store.devices, cutoff);
    ghost var fleet, db := store.devices, engine.View();
    StaleListed(fleet, order, cutoff);
    ListedCanRaise(fleet, stale, rules, db.rows);
    var fine := MarkOffline(store, engine, stale, rules, dir);
    if !fine {
      return None;
    }
    PassDevices(fleet, order, now);
    EachHasItsAlert(engine.clock, db, engine.View(), stale, fleet, rules, dir);
    return Some(|stale|);
  }

  // ---- What else writes a device's liveness -----------------------------------------------

  /** A status heartbeat; `reported` is its status if it names one. */
  datatype Heartbeat = Heartbeat(
    reported: Option<T.DeviceStatus>, battery: Option<Option<real>>, signal: Option<Option<int>>,
    firmware: Option<string>, ip: Option<Option<string>>)

  function Beaten(d: T.Device, hb: Heartbeat, now: Time): T.Device {
    d.(lastSeen := Some(now),
       status := if hb.reported.Some? then hb.reported.value else T.Arrived(d.status),
       battery := if hb.battery.Some? then hb.battery.value else d.battery,
       signal := if hb.signal.Some? then hb.signal.value else d.signal,
       firmware := if hb.firmware.Some? then hb.firmware.value else d.firmware,
       ip := if hb.ip.Some? then hb.ip.value else d.ip)
  }

  method HandleStatus(store: T.TelemetryStore, serial: Serial, hb: Heartbeat, now: Time)
    modifies store`devices
    ensures store.devices == if serial in old(store.devices)
                             then old(store.devices)[serial := Beaten(old(store.devices)[serial], hb, now)]
                             else old(store.devices)
    ensures serial in old(store.devices) ==>
              var was := old(store.devices)[serial];
              store.devices[serial]
              == was.(lastSeen := Some(now),
                      status := if hb.reported != None then hb.reported.value
                                else if was.status in {T.Offline, T.Provisioning} then T.Online else was.status,
                      battery := if hb.battery == None then was.battery else hb.battery.value,
                      signal := if hb.signal == None then was.signal else hb.signal.value,
                      firmware := if hb.firmware == None then was.firmware else hb.firmware.value,
                      ip := if hb.ip == None then was.ip else hb.ip.value)
  {
    if serial !in store.devices {
      return;
    }
    var device := store.devices[serial].(lastSeen := Some(now));
    if hb.reported.Some? {
      device := device.(status := hb.reported.value);
    } else {
      device := MarkSeen(device, now);
    }
    if hb.battery.Some? {
      device := device.(battery := hb.battery.value);
    }
    if hb.signal.Some? {
      device := device.(signal := hb.signal.value);
    }
    if hb.firmware.Some? {
      device := device.(firmware := hb.firmware.value);
    }
    if hb.ip.Some? {
      device := device.(ip := hb.ip.value);
    }
    store.devices := store.devices[serial := device];
  }

  /** A second copy of a heartbeat leaves the device alone exactly if it is handled at the same instant. */
  lemma SecondBeatRestamps(d: T.Device, hb: Heartbeat, first: Time, second: Time)
    ensures Beaten(Beaten(d, hb, first), hb, second) == Beaten(d, hb, first) <==> first == second
    ensures Beaten(Beaten(d, hb, first), hb, second) == Beaten(d, hb, first).(lastSeen := Some(second))
  {
    assert Beaten(d, hb, first).lastSeen == Some(first);
    assert Beaten(Beaten(d, hb, first), hb, second).lastSeen == Some(second);
  }

  function MarkSeen(d: T.Device, now: Time): T.Device {
    d.(lastSeen := Some(now), status := T.Arrived(d.status))
  }

  datatype LifeEvent = Ingested(b: T.Batch, at: Time) | Beat(hb: Heartbeat, at: Time) | Swept(cutoff: Time)

  function Live(d: T.Device, e: LifeEvent): T.Device {
    match e
    case Ingested(b, at) => T.Touched(d, b, at)
    case Beat(hb, at) => Beaten(d, hb, at)
    case Swept(cutoff) => SweptDevice(d, cutoff)
  }

  function Lived(d: T.Device, es: seq<LifeEvent>): T.Device {
    if es == [] then d else Live(Lived(d, es[..|es| - 1]), es[|es| - 1])
  }

  /** A batch, and a heartbeat that names no status, brings a device online unless it is degraded or out of service. */
  lemma SignOfLifeStatus(d: T.Device, b: T.Batch, hb: Heartbeat, at: Time)
    requires hb.reported == None
    ensures Live(d, Ingested(b, at)).status == Live(d, Beat(hb, at)).status
    ensures d.status in {T.Offline, T.Provisioning, T.Online} ==> Live(d, Ingested(b, at)).status == T.Online
    ensures d.status !in {T.Offline, T.Provisioning, T.Online} ==> Live(d, Ingested(b, at)).status == d.status
  {
  }

  /** Event k puts the device offline: a sweep that finds it alive but silent, or a report. */
  predicate PutsOffline(d: T.Device, es: seq<LifeEvent>, k: nat) {
    k < |es|
    && match es[k]
       case Ingested(_, _) => false
       case Beat(hb, _) => hb.reported == Some(T.Offline)
       case Swept(cutoff) =>
         var now := Lived(d, es[..k]);
         now.status in {T.Online, T.Degraded} && now.lastSeen.Some? && now.lastSeen.value < cutoff
  }

  /** The device is heard of otherwise. */
  predicate BringsBack(e: LifeEvent) {
    match e
    case Ingested(_, _) => true
    case Beat(hb, _) => hb.reported != Some(T.Offline)
    case Swept(_) => false
  }

  /** Event k put the device offline and it has not been heard of otherwise since. */
  ghost predicate OfflineSince(d: T.Device, es: seq<LifeEvent>, k: nat) {
    PutsOffline(d, es, k) && forall j :: k < j < |es| ==> !BringsBack(es[j])
  }

  lemma OfflineSinceStep(d: T.Device, es: seq<LifeEvent>, k: nat)
    requires es != []
    ensures var n := |es| - 1;
            OfflineSince(d, es, k)
            <==> if k == n then PutsOffline(d, es, n) else OfflineSince(d, es[..n], k) && !BringsBack(es[n])
  {
    var n, front := |es| - 1, es[..|es| - 1];
    if k < n {
      assert front[..k] == es[..k];
      if OfflineSince(d, front, k) && !BringsBack(es[n]) {
        forall j | k < j < |es| ensures !BringsBack(es[j]) {
          if j < n { assert front[j] == es[j]; }
        }
      }
      if OfflineSince(d, es, k) {
        forall j | k < j < n ensures !BringsBack(front[j]) {
          assert front[j] == es[j];
        }
      }
    }
  }

  /**
   From provisioning, under any ingests, heartbeats and sweeps, a device is offline exactly if it was
   put offline, by a sweep that found it silent or by its own report, and not heard of since.
   */
  lemma {:induction false} OfflineIffSilent(d: T.Device, es: seq<LifeEvent>)
    requires d.status.Provisioning?
    ensures Lived(d, es).status == T.Offline <==> exists k: nat :: OfflineSince(d, es, k)
    decreases |es|
  {
    if es != [] {
      var n, front := |es| - 1, es[..|es| - 1];
      OfflineIffSilent(d, front);
      OfflineSinceStep(d, es, n);
      if k: nat :| OfflineSince(d, front, k) { OfflineSinceStep(d, es, k); }
      if k: nat :| OfflineSince(d, es, k) { OfflineSinceStep(d, es, k); }
    }
  }

  predicate OutOfService(st: T.DeviceStatus) {
    st.Maintenance? || st.Faulty? || st.Decommissioned?
  }

  /**
   From provisioning, whatever happens, a device believed alive has been seen: the NULL that the
   watchdog's filter would skip does not occur. It is not believed alive and silent after a sweep.
   */
  lemma {:induction false} AliveHasBeenSeen(d: T.Device, es: seq<LifeEvent>)
    requires d.status.Provisioning?
    ensures var now := Lived(d, es);
            && (now.status.Online? || now.status.Degraded? ==> now.lastSeen.Some?)
            && (now.lastSeen.None? ==> now.status.Provisioning?)
            && (es != [] && es[|es| - 1].Swept? && (now.status.Online? || now.status.Degraded?) ==>
                  now.lastSeen.value >= es[|es| - 1].cutoff)
    decreases |es|
  {
    if es != [] {
      AliveHasBeenSeen(d, es[..|es| - 1]);
    }
  }

  /** A device out of service got there, and leaves, by its last reported status only. */
  lemma {:induction false} OutOfServiceIsReported(d: T.Device, es: seq<LifeEvent>)
    requires d.status.Provisioning?
    ensures OutOfService(Lived(d, es).status) ==>
              exists k :: 0 <= k < |es| && ReportsLast(es, k) && es[k].hb.reported == Some(Lived(d, es).status)
    ensures forall k :: 0 <= k < |es| && ReportsLast(es, k) && OutOfService(es[k].hb.reported.value) ==>
              Lived(d, es).status == es[k].hb.reported.value
    decreases |es|
  {
    if es != [] {
      var n, front := |es| - 1, es[..|es| - 1];
      OutOfServiceIsReported(d, front);
      if es[n].Beat? && es[n].hb.reported.Some? {
        assert ReportsLast(es, n);
      } else {
        forall k | 0 <= k < n ensures ReportsLast(front, k) <==> ReportsLast(es, k) {
          assert forall j :: k < j < n ==> front[j] == es[j];
        }
        if OutOfService(Lived(d, es).status) {
          var k :| 0 <= k < n && ReportsLast(front, k) && front[k].hb.reported == Some(Lived(d, front).status);
          assert ReportsLast(es, k);
        }
      }
    }
  }

  /** Event k reports a status and no later event does. */
  predicate ReportsLast(es: seq<LifeEvent>, k: nat) {
    && k < |es| && es[k].Beat? && es[k].hb.reported.Some?
    && forall j :: k < j < |es| ==> !(es[j].Beat? && es[j].hb.reported.Some?)
  }

  // ---- The backstop -----------------------------------------------------------------------

  function LevelDemand(
    serial: Serial, d: T.Device, r: Rule, level: Option<real>, title: string, message: string): Demand
  {
    Demand(Request(KeyOf(r, serial), d.org, None, r.severity, title, message, level, Some(r.cooldown)), r.channels)
  }

  /** The raises of one list of rules for one device, whose level they are about. */
  function LevelDemands(
    serial: Serial, d: T.Device, rules: seq<Rule>, level: Option<real>, title: string, message: string): seq<Demand>
  {
    if rules == [] then []
    else
      var r := rules[|rules| - 1];
      LevelDemands(serial, d, rules[..|rules| - 1], level, title, message)
      + if r.org == d.org && Matches(r, level)
        then [LevelDemand(serial, d, r, level, title, message)] else []
  }

  function BatteryDemands(serial: Serial, d: T.Device, rules: seq<Rule>): seq<Demand> {
    LevelDemands(serial, d, rules, d.battery, d.name + " low battery", "Battery low.")
  }

  function HealthDemands(serial: Serial, d: T.Device, rules: seq<Rule>): seq<Demand> {
    LevelDemands(serial, d, rules, Some(d.health), d.name + " health degraded", "Health score low.")
  }

  function DeviceDemands(serial: Serial, d: T.Device, battery: seq<Rule>, health: seq<Rule>): seq<Demand> {
    BatteryDemands(serial, d, battery) + HealthDemands(serial, d, health)
  }

  function FleetDemands(order: seq<Serial>, devices: Fleet, battery: seq<Rule>, health: seq<Rule>): seq<Demand>
    requires forall s <- order :: s in devices
  {
    if order == [] then []
    else
      var s := order[|order| - 1];
      FleetDemands(order[..|order| - 1], devices, battery, health)
      + if devices[s].status.Decommissioned? then [] else DeviceDemands(s, devices[s], battery, health)
  }

  /** Raises for keys the index covers never fail, and leave the index in force. */
  lemma {:induction false} IndexedNeverFail(clock: Clock, db: Db, ds: seq<Demand>, dir: Directory)
    requires IndexHolds(db.rows) && forall i :: 0 <= i < |ds| ==> Indexed(ds[i].req.key)
    ensures RaiseAll(clock, db, ds, dir).1 && IndexHolds(RaiseAll(clock, db, ds, dir).0.rows)
    decreases |ds|
  {
    if ds != [] {
      var front, d := ds[..|ds| - 1], ds[|ds| - 1];
      IndexedNeverFail(clock, db, front, dir);
      RaiseKeepsIndex(clock, RaiseAll(clock, db, front, dir).0, d.req, d.channels, dir);
    }
  }

  lemma RaiseKeepsIndex(clock: Clock, db: Db, req: Request, chosen: seq<Channel>, dir: Directory)
    requires IndexHolds(db.rows) && Indexed(req.key)
    ensures var (after, outcome) := Raise(clock, db, req, chosen, dir);
            IndexHolds(after.rows) && !outcome.Failed?
  {
    assert OneOpen(db.rows, req.key);
    RaiseOutcome(clock, db, req, chosen, dir);
    var after := Raise(clock, db, req, chosen, dir).0;
    forall k | Indexed(k) ensures OneOpen(after.rows, k) {
      if k != req.key {
        ElsewhereKeeps(db.rows, after.rows, req.key, k);
      }
    }
  }

  lemma {:induction false} RaiseAllAppend(clock: Clock, db: Db, a: seq<Demand>, b: seq<Demand>, dir: Directory)
    requires RaiseAll(clock, db, a, dir).1
    ensures RaiseAll(clock, db, a + b, dir) == RaiseAll(clock, RaiseAll(clock, db, a, dir).0, b, dir)
    decreases |b|
  {
    if b == [] {
      assert a + b == a;
    } else {
      assert (a + b)[..|a + b| - 1] == a + b[..|b| - 1];
      RaiseAllAppend(clock, db, a, b[..|b| - 1], dir);
    }
  }

  /** The inner loop over one list of rules. */
  method RaiseLevel(
    engine: AlertEngine, serial: Serial, d: T.Device, rules: seq<Rule>, level: Option<real>, title: string,
    message: string, dir: Directory)
    returns (raised: nat)
    requires IndexHolds(engine.rows)
    modifies engine
    ensures IndexHolds(engine.rows)
    ensures var ds := LevelDemands(serial, d, rules, level, title, message);
            raised == |ds| && RaiseAll(engine.clock, old(engine.View()), ds, dir) == (engine.View(), true)
  {
    raised := 0;
    ghost var db, clock, ds := engine.View(), engine.clock, [];
    for i := 0 to |rules|
      invariant IndexHolds(engine.rows)
      invariant ds == LevelDemands(serial, d, rules[..i], level, title, message) && raised == |ds|
      invariant RaiseAll(clock, db, ds, dir) == (engine.View(), true)
    {
      var r := rules[i];
      LevelOneMore(serial, d, rules, i, level, title, message);
      if r.org != d.org {
        continue;
      }
      if level.Some? && Matches(r, level) {
        var demand := LevelDemand(serial, d, r, level, title, message);
        RaiseKeepsIndex(clock, engine.View(), demand.req, r.channels, dir);
        RaiseOneMore(clock, db, ds, demand, dir);
        var _ := engine.RaiseAlert(demand.req, demand.channels, dir);
        ds := ds + [demand];
        raised := raised + 1;
      }
    }
    assert rules[..|rules|] == rules;
  }

  /** The rules of both sources on one device. */
  method RaiseForDevice(
    engine: AlertEngine, serial: Serial, d: T.Device, battery: seq<Rule>, health: seq<Rule>, dir: Directory)
    returns (raised: nat)
    requires IndexHolds(engine.rows)
    modifies engine
    ensures IndexHolds(engine.rows)
    ensures var ds := DeviceDemands(serial, d, battery, health);
            raised == |ds| && RaiseAll(engine.clock, old(engine.View()), ds, dir) == (engine.View(), true)
  {
    ghost var db := engine.View();
    var n := RaiseLevel(engine, serial, d, battery, d.battery, d.name + " low battery", "Battery low.", dir);
    var m := RaiseLevel(engine, serial, d, health, Some(d.health), d.name + " health degraded", "Health score low.",
                        dir);
    RaiseAllAppend(engine.clock, db, BatteryDemands(serial, d, battery), HealthDemands(serial, d, health), dir);
    raised := n + m;
  }

  /** `battery` and `health` are the active rules of those sources, of every organisation. */
  method EvaluateThresholdAlerts(
    engine: AlertEngine, devices: Fleet, order: seq<Serial>, battery: seq<Rule>, health: seq<Rule>, dir: Directory)
    returns (raised: nat)
    requires Lists(order, devices) && IndexHolds(engine.rows)
    modifies engine
    ensures IndexHolds(engine.rows)
    ensures raised == CountAllPairs(order, devices, battery, health)
    ensures RaiseAll(engine.clock, old(engine.View()), FleetDemands(order, devices, battery, health), dir)
            == (engine.View(), true)
    ensures engine.View() == Run(engine.clock, old(engine.View()),
                                 RaiseOps(FleetDemands(order, devices, battery, health), dir))
  {
    raised := 0;
    ghost var db, clock, ds := engine.View(), engine.clock, [];
    for i := 0 to |order|
      invariant IndexHolds(engine.rows)
      invariant ds == FleetDemands(order[..i], devices, battery, health) && raised == |ds|
      invariant RaiseAll(clock, db, ds, dir) == (engine.View(), true)
    {
      var serial := order[i];
      var device := devices[serial];
      FleetOneMore(order, devices, battery, health, i);
      if device.status.Decommissioned? {
        continue;
      }
      ghost var more := DeviceDemands(serial, device, battery, health);
      var n := RaiseForDevice(engine, serial, device, battery, health, dir);
      RaiseAllAppend(clock, db, ds, more, dir);
      ds := ds + more;
      raised := raised + n;
    }
    assert order[..|order|] == order;
    BackstopCounts(order, devices, battery, health);
    JobIsRun(clock, db, ds, dir);
  }

  lemma LevelOneMore(
    serial: Serial, d: T.Device, rules: seq<Rule>, i: nat, level: Option<real>, title: string, message: string)
    requires i < |rules|
    ensures LevelDemands(serial, d, rules[..i + 1], level, title, message)
            == LevelDemands(serial, d, rules[..i], level, title, message)
               + if rules[i].org == d.org && Matches(rules[i], level)
                 then [LevelDemand(serial, d, rules[i], level, title, message)] else []
  {
    assert rules[..i + 1][..i] == rules[..i];
  }

  lemma FleetOneMore(order: seq<Serial>, devices: Fleet, battery: seq<Rule>, health: seq<Rule>, i: nat)
    requires i < |order| && forall s <- order :: s in devices
    ensures FleetDemands(order[..i + 1], devices, battery, health)
            == FleetDemands(order[..i], devices, battery, health)
               + if devices[order[i]].status.Decommissioned? then []
                 else DeviceDemands(order[i], devices[order[i]], battery, health)
  {
    assert order[..i + 1][..i] == order[..i];
  }

  /** The pair of a device in service and a rule of its organisation that its level meets. */
  predicate Pair(d: T.Device, r: Rule, level: Option<real>) {
    !d.status.Decommissioned? && r.org == d.org && Matches(r, level)
  }

  function CountPairs(d: T.Device, rules: seq<Rule>, level: Option<real>): nat {
    if rules == [] then 0
    else CountPairs(d, rules[..|rules| - 1], level) + if Pair(d, rules[|rules| - 1], level) then 1 else 0
  }

  function CountAllPairs(order: seq<Serial>, devices: Fleet, battery: seq<Rule>, health: seq<Rule>): nat
    requires forall s <- order :: s in devices
  {
    if order == [] then 0
    else
      var d := devices[order[|order| - 1]];
      CountAllPairs(order[..|order| - 1], devices, battery, health)
      + CountPairs(d, battery, d.battery) + CountPairs(d, health, Some(d.health))
  }

  lemma {:induction false} LevelCount(
    serial: Serial, d: T.Device, rules: seq<Rule>, level: Option<real>, title: string, message: string)
    ensures CountPairs(d, rules, level)
            == if d.status.Decommissioned? then 0 else |LevelDemands(serial, d, rules, level, title, message)|
  {
    if rules != [] {
      LevelCount(serial, d, rules[..|rules| - 1], level, title, message);
    }
  }

  /** The number the backstop returns is the number of matching pairs. */
  lemma {:induction false} BackstopCounts(order: seq<Serial>, devices: Fleet, battery: seq<Rule>, health: seq<Rule>)
    requires forall s <- order :: s in devices
    ensures |FleetDemands(order, devices, battery, health)| == CountAllPairs(order, devices, battery, health)
  {
    if order != [] {
      var s := order[|order| - 1];
      var d := devices[s];
      BackstopCounts(order[..|order| - 1], devices, battery, health);
      LevelCount(s, d, battery, d.battery, d.name + " low battery", "Battery low.");
      LevelCount(s, d, health, Some(d.health), d.name + " health degraded", "Health score low.");
    }
  }

  // ---- Distinct keys ----------------------------------------------------------------------

  /** The demand is for this device and one of the rules. */
  ghost predicate For(q: Demand, serial: Serial, rules: seq<Rule>) {
    q.req.key.device == Some(serial) && exists i :: 0 <= i < |rules| && q.req.key.rule == Some(rules[i].id)
  }

  lemma {:induction false} LevelKeys(
    serial: Serial, d: T.Device, rules: seq<Rule>, level: Option<real>, title: string, message: string)
    requires DistinctRules(rules)
    ensures var ds := LevelDemands(serial, d, rules, level, title, message);
            DistinctKeys(ds) && forall i :: 0 <= i < |ds| ==> For(ds[i], serial, rules)
  {
    if rules != [] {
      var front, r := rules[..|rules| - 1], rules[|rules| - 1];
      LevelKeys(serial, d, front, level, title, message);
      var ds := LevelDemands(serial, d, front, level, title, message);
      forall i | 0 <= i < |ds| ensures For(ds[i], serial, rules) && ds[i].req.key.rule != Some(r.id) {
        var j :| 0 <= j < |front| && ds[i].req.key.rule == Some(front[j].id);
        assert rules[j] == front[j];
      }
    }
  }

  lemma DeviceKeys(serial: Serial, d: T.Device, battery: seq<Rule>, health: seq<Rule>)
    requires DistinctRules(battery + health)
    ensures var ds := DeviceDemands(serial, d, battery, health);
            DistinctKeys(ds)
            && forall i :: 0 <= i < |ds| ==> ds[i].req.key.device == Some(serial) && Indexed(ds[i].req.key)
  {
    var rules := battery + health;
    assert DistinctRules(battery) by {
      assert forall i :: 0 <= i < |battery| ==> battery[i] == rules[i];
    }
    assert DistinctRules(health) by {
      assert forall i :: 0 <= i < |health| ==> health[i] == rules[|battery| + i];
    }
    LevelKeys(serial, d, battery, d.battery, d.name + " low battery", "Battery low.");
    LevelKeys(serial, d, health, Some(d.health), d.name + " health degraded", "Health score low.");
    var low, poor := BatteryDemands(serial, d, battery), HealthDemands(serial, d, health);
    forall i, j | 0 <= i < |low| && 0 <= j < |poor| ensures low[i].req.key != poor[j].req.key {
      var x :| 0 <= x < |battery| && low[i].req.key.rule == Some(battery[x].id);
      var y :| 0 <= y < |health| && poor[j].req.key.rule == Some(health[y].id);
      assert rules[x] == battery[x] && rules[|battery| + y] == health[y];
    }
  }

  lemma {:induction false} FleetKeys(order: seq<Serial>, devices: Fleet, battery: seq<Rule>, health: seq<Rule>)
    requires DistinctSerials(order) && DistinctRules(battery + health) && forall s <- order :: s in devices
    ensures var ds := FleetDemands(order, devices, battery, health);
            && DistinctKeys(ds)
            && forall i :: 0 <= i < |ds| ==>
                 Indexed(ds[i].req.key) && ds[i].req.key.device.value in order
  {
    if order != [] {
      var front, s := order[..|order| - 1], order[|order| - 1];
      assert s !in front && order == front + [s];
      FleetKeys(front, devices, battery, health);
      DeviceKeys(s, devices[s], battery, health);
    }
  }

  /**
   Main result: the backstop leaves every demand of a matching pair with a live open alert holding
   the current level, unless a soft-deleted open row refuses it; it closes nothing; and running it
   again on unchanged devices creates no alert.
   */
  lemma BackstopSupplies(
    clock: Clock, db: Db, order: seq<Serial>, devices: Fleet, battery: seq<Rule>, health: seq<Rule>, dir: Directory)
    requires Lists(order, devices) && DistinctRules(battery + health) && IndexHolds(db.rows)
    ensures var ds := FleetDemands(order, devices, battery, health);
            var after := RaiseAll(clock, db, ds, dir).0;
            && AllSupplied(db.rows, after.rows, ds) && ClosesNothing(db.rows, after.rows)
            && |RaiseAll(clock, after, ds, dir).0.rows| == |after.rows|
  {
    var ds := FleetDemands(order, devices, battery, health);
    FleetKeys(order, devices, battery, health);
    IndexedNeverFail(clock, db, ds, dir);
    RaiseAllSupplies(clock, db, ds, dir);
    SecondRunCreatesNothing(clock, db, ds, dir);
  }

  /** Every matching pair is one of the demands, with the device's current level. */
  lemma {:induction false} PairIsDemanded(
    serial: Serial, d: T.Device, rules: seq<Rule>, level: Option<real>, title: string, message: string, i: nat)
    returns (j: nat)
    requires i < |rules| && Pair(d, rules[i], level)
    ensures var ds := LevelDemands(serial, d, rules, level, title, message);
            j < |ds| && AsksFor(ds[j], serial, d, rules[i], level, title, message)
  {
    var front := rules[..|rules| - 1];
    if i < |front| {
      j := PairIsDemanded(serial, d, front, level, title, message, i);
    } else {
      j := |LevelDemands(serial, d, front, level, title, message)|;
    }
  }

  /** The raise of a device and a rule its level meets, column by column. */
  predicate AsksFor(
    q: Demand, serial: Serial, d: T.Device, r: Rule, level: Option<real>, title: string, message: string)
  {
    && Pair(d, r, level)
    && q.req.key.rule == Some(r.id) && q.req.key.device == Some(serial) && q.req.org == d.org
    && q.req.sensor == None && q.req.severity == r.severity && q.req.title == title && q.req.message == message
    && q.req.value == level && q.req.cooldown == Some(r.cooldown) && q.channels == r.channels
  }

  ghost predicate AsksForLevel(
    q: Demand, serial: Serial, d: T.Device, rules: seq<Rule>, level: Option<real>, title: string, message: string)
  {
    exists i :: 0 <= i < |rules| && AsksFor(q, serial, d, rules[i], level, title, message)
  }

  /** The raise is about a battery or a health rule the device meets. */
  ghost predicate AsksForPair(q: Demand, serial: Serial, d: T.Device, battery: seq<Rule>, health: seq<Rule>) {
    || AsksForLevel(q, serial, d, battery, d.battery, d.name + " low battery", "Battery low.")
    || AsksForLevel(q, serial, d, health, Some(d.health), d.name + " health degraded", "Health score low.")
  }

  lemma {:induction false} LevelAsks(
    serial: Serial, d: T.Device, rules: seq<Rule>, level: Option<real>, title: string, message: string)
    requires !d.status.Decommissioned?
    ensures forall q <- LevelDemands(serial, d, rules, level, title, message) ::
              AsksForLevel(q, serial, d, rules, level, title, message)
  {
    if rules != [] {
      var front := rules[..|rules| - 1];
      LevelAsks(serial, d, front, level, title, message);
      forall q | q in LevelDemands(serial, d, rules, level, title, message)
        ensures AsksForLevel(q, serial, d, rules, level, title, message)
      {
        if q in LevelDemands(serial, d, front, level, title, message) {
          var i :| 0 <= i < |front| && AsksFor(q, serial, d, front[i], level, title, message);
          assert AsksFor(q, serial, d, rules[i], level, title, message);
        } else {
          assert AsksFor(q, serial, d, rules[|front|], level, title, message);
        }
      }
    }
  }

  /** The device is one of the fleet in service, and the raise is about a rule it meets. */
  ghost predicate FromFleet(q: Demand, devices: Fleet, battery: seq<Rule>, health: seq<Rule>) {
    exists s :: s in devices && AsksForPair(q, s, devices[s], battery, health)
  }

  lemma {:induction false} FleetAsks(order: seq<Serial>, devices: Fleet, battery: seq<Rule>, health: seq<Rule>)
    requires forall s <- order :: s in devices
    ensures forall q <- FleetDemands(order, devices, battery, health) :: FromFleet(q, devices, battery, health)
  {
    if order != [] {
      var front, s := order[..|order| - 1], order[|order| - 1];
      var d := devices[s];
      FleetAsks(front, devices, battery, health);
      if !d.status.Decommissioned? {
        LevelAsks(s, d, battery, d.battery, d.name + " low battery", "Battery low.");
        LevelAsks(s, d, health, Some(d.health), d.name + " health degraded", "Health score low.");
        assert forall q <- DeviceDemands(s, d, battery, health) :: AsksForPair(q, s, d, battery, health);
      }
    }
  }

  /** A row asked for by a battery or a health rule some device of the fleet meets. */
  ghost predicate FleetRow(a: Alert, devices: Fleet, battery: seq<Rule>, health: seq<Rule>) {
    exists q: Demand :: Meets(a, q) && FromFleet(q, devices, battery, health)
  }

  /**
   Main result: every row the backstop adds bears the rule, device, organisation, severity, level and
   text of a pair that matches, and the rows there were keep theirs.
   */
  lemma BackstopAddsPairs(
    clock: Clock, db: Db, order: seq<Serial>, devices: Fleet, battery: seq<Rule>, health: seq<Rule>, dir: Directory)
    requires Lists(order, devices) && DistinctRules(battery + health)
    ensures var after := RaiseAll(clock, db, FleetDemands(order, devices, battery, health), dir).0.rows;
            && KeepsColumns(db.rows, after)
            && forall i :: |db.rows| <= i < |after| ==> FleetRow(after[i], devices, battery, health)
  {
    var ds := FleetDemands(order, devices, battery, health);
    var after := RaiseAll(clock, db, ds, dir).0.rows;
    FleetKeys(order, devices, battery, health);
    FleetAsks(order, devices, battery, health);
    RaiseAllAdds(clock, db, ds, dir);
    forall i | |db.rows| <= i < |after| ensures FleetRow(after[i], devices, battery, health) {
      assert Demanded(after[i], ds);
      var j :| 0 <= j < |ds| && Meets(after[i], ds[j]);
      assert ds[j] in ds;
    }
  }

  lemma {:induction false} FleetHolds(
    order: seq<Serial>, devices: Fleet, battery: seq<Rule>, health: seq<Rule>, at: nat, q: Demand)
    requires forall s <- order :: s in devices
    requires at < |order| && !devices[order[at]].status.Decommissioned?
    requires q in DeviceDemands(order[at], devices[order[at]], battery, health)
    ensures q in FleetDemands(order, devices, battery, health)
  {
    if at < |order| - 1 {
      FleetHolds(order[..|order| - 1], devices, battery, health, at, q);
    }
  }

  /** So each matching pair ends with an open alert at the device's level, or is refused. */
  lemma PairIsSupplied(
    clock: Clock, db: Db, order: seq<Serial>, devices: Fleet, battery: seq<Rule>, health: seq<Rule>, dir: Directory,
    serial: Serial, r: Rule)
    requires Lists(order, devices) && DistinctRules(battery + health) && IndexHolds(db.rows)
    requires serial in devices
    requires if r in battery then Pair(devices[serial], r, devices[serial].battery)
             else r in health && Pair(devices[serial], r, Some(devices[serial].health))
    ensures var after := RaiseAll(clock, db, FleetDemands(order, devices, battery, health), dir).0.rows;
            var level := if r in battery then devices[serial].battery else Some(devices[serial].health);
            && (HasLive(after, KeyOf(r, serial)) <==> !Refused(db.rows, KeyOf(r, serial)))
            && LiveHolds(after, KeyOf(r, serial), level)
  {
    var d := devices[serial];
    var ds := FleetDemands(order, devices, battery, health);
    BackstopSupplies(clock, db, order, devices, battery, health, dir);
    var at :| 0 <= at < |order| && order[at] == serial;
    var q: Demand;
    if r in battery {
      var i :| 0 <= i < |battery| && battery[i] == r;
      var j := PairIsDemanded(serial, d, battery, d.battery, d.name + " low battery", "Battery low.", i);
      q := BatteryDemands(serial, d, battery)[j];
    } else {
      var i :| 0 <= i < |health| && health[i] == r;
      var j := PairIsDemanded(serial, d, health, Some(d.health), d.name + " health degraded", "Health score low.", i);
      q := HealthDemands(serial, d, health)[j];
    }
    FleetHolds(order, devices, battery, health, at, q);
    var n :| 0 <= n < |ds| && ds[n] == q;
    assert Supplied(db.rows, RaiseAll(clock, db, ds, dir).0.rows, ds[n]);
  }
}
