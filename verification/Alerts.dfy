/**
 The alert table and the single statements the services issue against it. A row's id is its
 position: rows are only ever appended, and deleting one merely flags it.
 */
module Alerts {
  import opened Options

  /** Microseconds. */
  type Time = int
  const SECOND: Time := 1_000_000

  /** What the successive readings of the wall clock return. */
  type Clock = nat -> Time

  type OrgId = nat
  type UserId = nat
  type RuleId = nat
  type ChannelId = nat
  type Serial = string

  /** A sensor is identified by its device and its payload key, which are unique together. */
  datatype SensorId = SensorId(device: Serial, key: string)

  datatype Severity = Info | Warning | Critical | Emergency
  datatype AlertStatus = Open | Acknowledged | Resolved

  datatype AlertKey = AlertKey(rule: Option<RuleId>, device: Option<Serial>)

  /** SQL treats NULLs as distinct, so the partial unique index says nothing about a key with one. */
  predicate Indexed(k: AlertKey) {
    k.rule.Some? && k.device.Some?
  }

  datatype Alert = Alert(
    key: AlertKey, org: OrgId, sensor: Option<SensorId>, severity: Severity, title: string,
    message: string, value: Option<real>, status: AlertStatus, deleted: bool,
    acknowledgedBy: Option<UserId>, acknowledgedAt: Option<Time>,
    resolvedAt: Option<Time>, notifiedAt: Option<Time>)

  /** The arguments of one call that raises an alert; `cooldown` is the rule's, in seconds. */
  datatype Request = Request(
    key: AlertKey, org: OrgId, sensor: Option<SensorId>, severity: Severity, title: string,
    message: string, value: Option<real>, cooldown: Option<nat>)

  /** What raising an alert comes to; `Failed` is the error of a lookup that found several rows. */
  datatype Outcome = Returned(id: nat, created: bool) | NoAlert | Failed

  function NewAlert(req: Request): Alert {
    Alert(req.key, req.org, req.sensor, req.severity, req.title, req.message, req.value,
          Open, false, None, None, None, None)
  }

  predicate OpenFor(a: Alert, k: AlertKey) {
    a.key == k && a.status.Open?
  }

  /** What the default manager shows of it: soft-deleted rows are hidden. */
  predicate LiveOpen(a: Alert, k: AlertKey) {
    OpenFor(a, k) && !a.deleted
  }

  /** The newest live open row, as `filter(...).first()` finds it. */
  function FindLive(rows: seq<Alert>, k: AlertKey): (found: Option<nat>)
    ensures found.Some? ==> found.value < |rows| && LiveOpen(rows[found.value], k)
    ensures found.Some? ==> forall i :: found.value < i < |rows| ==> !LiveOpen(rows[i], k)
    ensures found.None? ==> forall i :: 0 <= i < |rows| ==> !LiveOpen(rows[i], k)
  {
    if rows == [] then None
    else if LiveOpen(rows[|rows| - 1], k) then Some(|rows| - 1)
    else FindLive(rows[..|rows| - 1], k)
  }

  datatype Lookup = Found(id: nat) | DoesNotExist | MultipleObjects

  /** `get(...)`: an error unless exactly one live open row has the key. */
  function Get(rows: seq<Alert>, k: AlertKey): (g: Lookup)
    ensures g.Found? ==> g.id < |rows| && LiveOpen(rows[g.id], k)
    ensures g.Found? ==> forall i :: 0 <= i < |rows| && i != g.id ==> !LiveOpen(rows[i], k)
    ensures g.DoesNotExist? <==> forall i :: 0 <= i < |rows| ==> !LiveOpen(rows[i], k)
    ensures g.MultipleObjects? ==>
              exists i, j :: 0 <= i < j < |rows| && LiveOpen(rows[i], k) && LiveOpen(rows[j], k)
  {
    match FindLive(rows, k)
    case None => DoesNotExist
    case Some(i) => if FindLive(rows[..i], k).Some? then MultipleObjects else Found(i)
  }

  /** Two live open rows: a lookup of the key fails. */
  ghost predicate Duplicated(rows: seq<Alert>, k: AlertKey) {
    exists i, j :: 0 <= i < j < |rows| && LiveOpen(rows[i], k) && LiveOpen(rows[j], k)
  }

  lemma DuplicatedFails(rows: seq<Alert>, k: AlertKey)
    ensures Duplicated(rows, k) <==> Get(rows, k).MultipleObjects?
  {
    if Duplicated(rows, k) {
      var i, j :| 0 <= i < j < |rows| && LiveOpen(rows[i], k) && LiveOpen(rows[j], k);
    }
  }

  /** The partial unique index rejects the insert; it counts soft-deleted rows too. */
  predicate Conflicts(rows: seq<Alert>, k: AlertKey) {
    Indexed(k) && exists i :: 0 <= i < |rows| && OpenFor(rows[i], k)
  }

  /** At most one open row for the key, soft-deleted rows included. */
  ghost predicate OneOpen(rows: seq<Alert>, k: AlertKey) {
    forall i, j :: 0 <= i < j < |rows| ==> !(OpenFor(rows[i], k) && OpenFor(rows[j], k))
  }

  /** What the index guarantees. */
  ghost predicate IndexHolds(rows: seq<Alert>) {
    forall k :: Indexed(k) ==> OneOpen(rows, k)
  }

  // ---- Updates. Each writes the columns named in its update_fields and no other. -----------

  function SetValue(rows: seq<Alert>, id: nat, value: Option<real>, message: string): seq<Alert>
    requires id < |rows|
  {
    rows[id := rows[id].(value := value, message := message)]
  }

  function SetNotified(rows: seq<Alert>, id: nat, at: Time): seq<Alert>
    requires id < |rows|
  {
    rows[id := rows[id].(notifiedAt := Some(at))]
  }

  function SetAcknowledged(rows: seq<Alert>, id: nat, user: UserId, at: Time): seq<Alert>
    requires id < |rows|
  {
    rows[id := rows[id].(status := Acknowledged, acknowledgedBy := Some(user), acknowledgedAt := Some(at))]
  }

  function SetResolved(rows: seq<Alert>, id: nat, at: Time): seq<Alert>
    requires id < |rows|
  {
    rows[id := rows[id].(status := Resolved, resolvedAt := Some(at))]
  }

  function SetDeleted(rows: seq<Alert>, id: nat, deleted: bool): seq<Alert>
    requires id < |rows|
  {
    rows[id := rows[id].(deleted := deleted)]
  }

  /** One bulk update over the live open rows of the key. */
  function ResolveLive(rows: seq<Alert>, k: AlertKey, at: Time): (after: seq<Alert>)
    ensures |after| == |rows|
    ensures forall i :: 0 <= i < |rows| ==>
              after[i] == if LiveOpen(rows[i], k) then rows[i].(status := Resolved, resolvedAt := Some(at)) else rows[i]
  {
    seq(|rows|, i requires 0 <= i < |rows| =>
      if LiveOpen(rows[i], k) then rows[i].(status := Resolved, resolvedAt := Some(at)) else rows[i])
  }

  /** The message a refresh writes: the caller's, or the one it read when it has none. */
  function MessageOr(message: string, seen: string): string {
    if message != "" then message else seen
  }

  /** Rules are the only source of a cooldown; an alert that was never notified has none to wait for. */
  predicate CooldownElapsed(notifiedAt: Option<Time>, cooldown: Option<nat>, now: Time) {
    notifiedAt.None? || cooldown.None? || now - notifiedAt.value >= cooldown.value * SECOND
  }
}
