/**
 The alert services run one at a time: raising with its notification fan-out, auto-resolving,
 acknowledging and resolving. `Db` is what they write; the class runs the same operations in
 place and its contracts tie each one to the function on `Db` that the theorems are about.
 */
module AlertService {
  import opened Options
  import opened Alerts

  datatype ChannelKind = InApp | Email | Webhook | Sms
  datatype Channel = Channel(id: ChannelId, org: OrgId, kind: ChannelKind, active: bool, minSeverity: Severity)
  datatype User = User(id: UserId, org: Option<OrgId>, active: bool, serviceAccount: bool)

  /** The live channels and the users at the time of a call. */
  datatype Directory = Directory(channels: seq<Channel>, users: seq<User>)

  datatype Notification = Notification(recipient: UserId, alert: nat, severity: Severity, title: string, body: string)
  datatype Delivery = Delivery(alert: nat, channel: ChannelId)

  /** One announcement of an alert, as the audit trail records it. */
  datatype Emission = Emission(alert: nat, time: Time)

  /** `ticks` counts the readings of the clock so far. */
  datatype Db = Db(
    rows: seq<Alert>, ticks: nat, inbox: seq<Notification>, outbox: seq<Delivery>, raised: seq<Emission>)

  function Rank(s: Severity): nat {
    match s
    case Info => 0
    case Warning => 1
    case Critical => 2
    case Emergency => 3
  }

  predicate Eligible(c: Channel, s: Severity) {
    Rank(s) >= Rank(c.minSeverity)
  }

  function DefaultChannels(channels: seq<Channel>, org: OrgId): seq<Channel> {
    if channels == [] then []
    else
      var c := channels[|channels| - 1];
      DefaultChannels(channels[..|channels| - 1], org)
      + if c.org == org && c.kind.InApp? && c.active then [c] else []
  }

  /** The channels of the caller or of the rule; failing those, the organisation's in-app channels. */
  function Targets(chosen: seq<Channel>, org: OrgId, dir: Directory): seq<Channel> {
    if chosen != [] then chosen else DefaultChannels(dir.channels, org)
  }

  predicate Receives(u: User, org: OrgId) {
    u.org == Some(org) && u.active && !u.serviceAccount
  }

  /** One notification per member of the organisation. */
  function Notes(a: Alert, id: nat, users: seq<User>): seq<Notification> {
    if users == [] then []
    else
      var u := users[|users| - 1];
      Notes(a, id, users[..|users| - 1])
      + if Receives(u, a.org) then [Notification(u.id, id, a.severity, a.title, a.message)] else []
  }

  function InAppNotes(a: Alert, id: nat, targets: seq<Channel>, users: seq<User>): seq<Notification> {
    if targets == [] then []
    else
      var c := targets[|targets| - 1];
      InAppNotes(a, id, targets[..|targets| - 1], users)
      + if Eligible(c, a.severity) && c.kind.InApp? then Notes(a, id, users) else []
  }

  function Deliveries(a: Alert, id: nat, targets: seq<Channel>): seq<Delivery> {
    if targets == [] then []
    else
      var c := targets[|targets| - 1];
      Deliveries(a, id, targets[..|targets| - 1])
      + if Eligible(c, a.severity) && !c.kind.InApp? then [Delivery(id, c.id)] else []
  }

  function Emit(clock: Clock, db: Db, id: nat, chosen: seq<Channel>, dir: Directory): Db
    requires id < |db.rows|
  {
    var a := db.rows[id];
    var targets := Targets(chosen, a.org, dir);
    Db(SetNotified(db.rows, id, clock(db.ticks)), db.ticks + 1,
       db.inbox + InAppNotes(a, id, targets, dir.users), db.outbox + Deliveries(a, id, targets),
       db.raised + [Emission(id, clock(db.ticks))])
  }

  function Raise(clock: Clock, db: Db, req: Request, chosen: seq<Channel>, dir: Directory): (Db, Outcome) {
    match Get(db.rows, req.key)
    case MultipleObjects => (db, Failed)
    case DoesNotExist =>
      if Conflicts(db.rows, req.key) then (db, NoAlert)
      else
        var id := |db.rows|;
        (Emit(clock, db.(rows := db.rows + [NewAlert(req)]), id, chosen, dir), Returned(id, true))
    case Found(id) =>
      var seen := db.rows[id];
      var refreshed := db.(rows := SetValue(db.rows, id, req.value, MessageOr(req.message, seen.message)));
      if seen.notifiedAt.None? || req.cooldown.None? then
        (Emit(clock, refreshed, id, chosen, dir), Returned(id, false))
      else if CooldownElapsed(seen.notifiedAt, req.cooldown, clock(db.ticks)) then
        (Emit(clock, refreshed.(ticks := db.ticks + 1), id, chosen, dir), Returned(id, false))
      else
        (refreshed.(ticks := db.ticks + 1), Returned(id, false))
  }

  /** A raise that finds a row rewrites its value and message, and its notification time if it announces it. */
  lemma RaiseRefreshes(clock: Clock, db: Db, req: Request, chosen: seq<Channel>, dir: Directory)
    requires Get(db.rows, req.key).Found?
    ensures var id, (after, outcome) := Get(db.rows, req.key).id, Raise(clock, db, req, chosen, dir);
            && |after.rows| == |db.rows| && outcome == Returned(id, false) && db.ticks <= after.ticks
            && (forall i :: 0 <= i < |db.rows| && i != id ==> after.rows[i] == db.rows[i])
            && after.rows[id]
               == db.rows[id].(value := req.value, notifiedAt := after.rows[id].notifiedAt,
                               message := if req.message == "" then db.rows[id].message else req.message)
            && if |after.raised| == |db.raised| then
                 after.raised == db.raised && after.rows[id].notifiedAt == db.rows[id].notifiedAt
               else
                 && db.ticks < after.ticks && after.rows[id].notifiedAt == Some(clock(after.ticks - 1))
                 && after.raised == db.raised + [Emission(id, clock(after.ticks - 1))]
  {
  }

  /** It announces the row exactly if that was never announced, has no cooldown to wait for, or has waited. */
  lemma RaiseWaits(clock: Clock, db: Db, req: Request, chosen: seq<Channel>, dir: Directory)
    requires Get(db.rows, req.key).Found?
    ensures var seen := db.rows[Get(db.rows, req.key).id];
            |Raise(clock, db, req, chosen, dir).0.raised| > |db.raised|
            <==> || seen.notifiedAt == None || req.cooldown == None
                 || clock(db.ticks) >= seen.notifiedAt.value + req.cooldown.value * 1_000_000
  {
  }

  /** A raise that finds no row inserts and announces one unless the index refuses it. */
  lemma RaiseInserts(clock: Clock, db: Db, req: Request, chosen: seq<Channel>, dir: Directory)
    requires Get(db.rows, req.key).DoesNotExist?
    ensures var (after, outcome) := Raise(clock, db, req, chosen, dir);
            if Conflicts(db.rows, req.key) then after == db && outcome == NoAlert
            else
              && |after.rows| == |db.rows| + 1 && after.rows[..|db.rows|] == db.rows
              && Inserted(after.rows[|db.rows|], req, Some(clock(db.ticks)))
              && outcome == Returned(|db.rows|, true) && after.ticks == db.ticks + 1
              && after.raised == db.raised + [Emission(|db.rows|, clock(db.ticks))]
  {
  }

  /** The row bears the columns of the call that inserted it and is as new. */
  predicate Inserted(a: Alert, req: Request, notifiedAt: Option<Time>) {
    && a.key == req.key && a.org == req.org && a.sensor == req.sensor && a.severity == req.severity
    && a.title == req.title && a.message == req.message && a.value == req.value
    && a.status == Open && !a.deleted && a.acknowledgedBy == None && a.acknowledgedAt == None
    && a.resolvedAt == None && a.notifiedAt == notifiedAt
  }

  function AutoResolve(clock: Clock, db: Db, k: AlertKey): Db {
    db.(rows := ResolveLive(db.rows, k, clock(db.ticks)), ticks := db.ticks + 1)
  }

  /** The API finds live rows only; for any other id it answers 404. */
  predicate Visible(rows: seq<Alert>, id: nat) {
    id < |rows| && !rows[id].deleted
  }

  function Acknowledge(clock: Clock, db: Db, id: nat, user: UserId): Db {
    if Visible(db.rows, id)
    then db.(rows := SetAcknowledged(db.rows, id, user, clock(db.ticks)), ticks := db.ticks + 1)
    else db
  }

  function Resolve(clock: Clock, db: Db, id: nat): Db {
    if Visible(db.rows, id)
    then db.(rows := SetResolved(db.rows, id, clock(db.ticks)), ticks := db.ticks + 1)
    else db
  }

  class AlertEngine {
    const clock: Clock
    var rows: seq<Alert>
    var ticks: nat
    var inbox: seq<Notification>
    var outbox: seq<Delivery>
    var raised: seq<Emission>

    function View(): Db
      reads this
    {
      Db(rows, ticks, inbox, outbox, raised)
    }

    constructor (clock: Clock, rows: seq<Alert>)
      ensures View() == Db(rows, 0, [], [], []) && this.clock == clock
    {
      this.clock := clock;
      this.rows := rows;
      ticks := 0;
      inbox, outbox, raised := [], [], [];
    }

    method Now() returns (t: Time)
      modifies this`ticks
      ensures t == clock(old(ticks)) && ticks == old(ticks) + 1
    {
      t := clock(ticks);
      ticks := ticks + 1;
    }

    method FanOut(id: nat, targets: seq<Channel>, users: seq<User>)
      requires id < |rows|
      modifies this`inbox, this`outbox
      ensures inbox == old(inbox) + InAppNotes(rows[id], id, targets, users)
      ensures outbox == old(outbox) + Deliveries(rows[id], id, targets)
      ensures forall n :: |old(inbox)| <= n < |inbox| ==> ForMember(inbox[n], rows[id], id, users)
      ensures forall n :: |old(outbox)| <= n < |outbox| ==> ForChannel(outbox[n], rows[id], id, targets)
    {
      var a := rows[id];
      for i := 0 to |targets|
        invariant inbox == old(inbox) + InAppNotes(a, id, targets[..i], users)
        invariant outbox == old(outbox) + Deliveries(a, id, targets[..i])
      {
        var channel := targets[i];
        assert targets[..i + 1][..i] == targets[..i];
        if Rank(a.severity) < Rank(channel.minSeverity) {
          continue;
        }
        if channel.kind.InApp? {
          var batch := [];
          for j := 0 to |users|
            invariant batch == Notes(a, id, users[..j])
          {
            assert users[..j + 1][..j] == users[..j];
            if Receives(users[j], a.org) {
              batch := batch + [Notification(users[j].id, id, a.severity, a.title, a.message)];
            }
          }
          assert users[..|users|] == users;
          inbox := inbox + batch;
        } else {
          outbox := outbox + [Delivery(id, channel.id)];
        }
      }
      assert targets[..|targets|] == targets;
      NotesAreForMembers(a, id, targets, users);
      DeliveriesAreForChannels(a, id, targets);
    }

    method EmitAlert(id: nat, chosen: seq<Channel>, dir: Directory)
      requires id < |rows|
      modifies this
      ensures View() == Emit(clock, old(View()), id, chosen, dir)
      ensures rows == old(rows)[id := old(rows)[id].(notifiedAt := Some(clock(old(ticks))))]
      ensures raised == old(raised) + [Emission(id, clock(old(ticks)))] && ticks == old(ticks) + 1
    {
      var now := Now();
      rows := SetNotified(rows, id, now);
      var targets := chosen;
      if targets == [] {
        for i := 0 to |dir.channels|
          invariant targets == DefaultChannels(dir.channels[..i], rows[id].org)
        {
          assert dir.channels[..i + 1][..i] == dir.channels[..i];
          var c := dir.channels[i];
          if c.org == rows[id].org && c.kind.InApp? && c.active {
            targets := targets + [c];
          }
        }
        assert dir.channels[..|dir.channels|] == dir.channels;
      }
      SameNotes(rows[id], old(rows[id]), id, targets, dir.users);
      FanOut(id, targets, dir.users);
      raised := raised + [Emission(id, now)];
    }

    /** get_or_create inside its transaction; `Failed` is the lookup's own error. */
    method GetOrCreate(req: Request) returns (found: Lookup, created: bool, rejected: bool)
      modifies this`rows
      ensures created <==> Get(old(rows), req.key).DoesNotExist? && !Conflicts(old(rows), req.key)
      ensures rejected <==> Get(old(rows), req.key).DoesNotExist? && Conflicts(old(rows), req.key)
      ensures rows == if created then old(rows) + [NewAlert(req)] else old(rows)
      ensures created ==> Inserted(rows[|old(rows)|], req, None)
      ensures found == if created then Found(|old(rows)|) else Get(old(rows), req.key)
    {
      created, rejected := false, false;
      found := Get(rows, req.key);
      if found.DoesNotExist? {
        if Conflicts(rows, req.key) {
          found := Get(rows, req.key);
          rejected := found.DoesNotExist?;
        } else {
          rows := rows + [NewAlert(req)];
          found, created := Found(|rows| - 1), true;
        }
      }
    }

    method RaiseAlert(req: Request, chosen: seq<Channel>, dir: Directory) returns (outcome: Outcome)
      modifies this
      ensures (View(), outcome) == Raise(clock, old(View()), req, chosen, dir)
    {
      var found, created, rejected := GetOrCreate(req);
      if found.MultipleObjects? {
        return Failed;
      }
      var alert := if found.Found? then Some(found.id) else None;
      if rejected {
        alert := FindLive(rows, req.key);
      }
      if alert.None? {
        return NoAlert;
      }
      var id := alert.value;
      if !created {
        var seen := rows[id];
        rows := SetValue(rows, id, req.value, MessageOr(req.message, seen.message));
        if seen.notifiedAt.Some? && req.cooldown.Some? {
          var now := Now();
          if !CooldownElapsed(seen.notifiedAt, req.cooldown, now) {
            return Returned(id, false);
          }
        }
      }
      EmitAlert(id, chosen, dir);
      return Returned(id, created);
    }

    method AutoResolveAlerts(k: AlertKey)
      modifies this
      ensures View() == AutoResolve(clock, old(View()), k)
      ensures |rows| == |old(rows)| && ticks == old(ticks) + 1
      ensures forall i :: 0 <= i < |rows| ==>
                var was := old(rows)[i];
                rows[i] == if was.key == k && was.status == Open && !was.deleted
                           then was.(status := Resolved, resolvedAt := Some(clock(old(ticks)))) else was
    {
      var now := Now();
      rows := ResolveLive(rows, k, now);
    }

    method AcknowledgeAlert(id: nat, user: UserId)
      modifies this
      ensures View() == Acknowledge(clock, old(View()), id, user)
      ensures id < |old(rows)| && !old(rows)[id].deleted ==>
                && ticks == old(ticks) + 1
                && rows == old(rows)[id := old(rows)[id].(status := Acknowledged, acknowledgedBy := Some(user),
                                                          acknowledgedAt := Some(clock(old(ticks))))]
      ensures id >= |old(rows)| || old(rows)[id].deleted ==> View() == old(View())
      ensures inbox == old(inbox) && outbox == old(outbox) && raised == old(raised)
    {
      if Visible(rows, id) {
        var now := Now();
        rows := SetAcknowledged(rows, id, user, now);
      }
    }

    method ResolveAlert(id: nat)
      modifies this
      ensures View() == Resolve(clock, old(View()), id)
      ensures id < |old(rows)| && !old(rows)[id].deleted ==>
                && ticks == old(ticks) + 1
                && rows == old(rows)[id := old(rows)[id].(status := Resolved, resolvedAt := Some(clock(old(ticks))))]
      ensures id >= |old(rows)| || old(rows)[id].deleted ==> View() == old(View())
      ensures inbox == old(inbox) && outbox == old(outbox) && raised == old(raised)
    {
      if Visible(rows, id) {
        var now := Now();
        rows := SetResolved(rows, id, now);
      }
    }
  }

  /** Stamping the notification time changes nothing that the fan-out looks at. */
  lemma {:induction false} SameNotes(a: Alert, b: Alert, id: nat, targets: seq<Channel>, users: seq<User>)
    requires a == b.(notifiedAt := a.notifiedAt)
    ensures InAppNotes(a, id, targets, users) == InAppNotes(b, id, targets, users)
    ensures Deliveries(a, id, targets) == Deliveries(b, id, targets)
    decreases |targets|
  {
    if targets != [] {
      SameBatch(a, b, id, users);
      SameNotes(a, b, id, targets[..|targets| - 1], users);
    }
  }

  lemma {:induction false} SameBatch(a: Alert, b: Alert, id: nat, users: seq<User>)
    requires a == b.(notifiedAt := a.notifiedAt)
    ensures Notes(a, id, users) == Notes(b, id, users)
  {
    if users != [] {
      SameBatch(a, b, id, users[..|users| - 1]);
    }
  }

  // ---- Whom an emission reaches -----------------------------------------------------------

  /** A channel takes alerts of its minimum severity and above. */
  predicate Admits(min: Severity, s: Severity) {
    match min
    case Info => true
    case Warning => s != Info
    case Critical => s == Critical || s == Emergency
    case Emergency => s == Emergency
  }

  /** The note tells an active, human member of the alert's organisation what the alert says. */
  ghost predicate ForMember(note: Notification, a: Alert, id: nat, users: seq<User>) {
    && note.alert == id && note.severity == a.severity && note.title == a.title && note.body == a.message
    && exists i :: 0 <= i < |users| && users[i].id == note.recipient && users[i].org == Some(a.org)
                   && users[i].active && !users[i].serviceAccount
  }

  /** The delivery is of the alert, to an external channel among the targets that admits it. */
  ghost predicate ForChannel(d: Delivery, a: Alert, id: nat, targets: seq<Channel>) {
    && d.alert == id
    && exists i :: 0 <= i < |targets| && targets[i].id == d.channel && targets[i].kind != InApp
                   && Admits(targets[i].minSeverity, a.severity)
  }

  lemma {:induction false} BatchIsForMembers(a: Alert, id: nat, users: seq<User>)
    ensures forall n :: 0 <= n < |Notes(a, id, users)| ==> ForMember(Notes(a, id, users)[n], a, id, users)
  {
    if users != [] {
      var front, u := users[..|users| - 1], users[|users| - 1];
      BatchIsForMembers(a, id, front);
      forall n | 0 <= n < |Notes(a, id, users)| ensures ForMember(Notes(a, id, users)[n], a, id, users) {
        if n < |Notes(a, id, front)| {
          var note := Notes(a, id, front)[n];
          assert ForMember(note, a, id, front);
          var i :| 0 <= i < |front| && front[i].id == note.recipient && front[i].org == Some(a.org)
                   && front[i].active && !front[i].serviceAccount;
          assert users[i] == front[i];
        } else {
          assert users[|users| - 1] == u;
        }
      }
    }
  }

  lemma {:induction false} NotesAreForMembers(a: Alert, id: nat, targets: seq<Channel>, users: seq<User>)
    ensures forall n :: 0 <= n < |InAppNotes(a, id, targets, users)| ==>
              ForMember(InAppNotes(a, id, targets, users)[n], a, id, users)
    decreases |targets|
  {
    if targets != [] {
      NotesAreForMembers(a, id, targets[..|targets| - 1], users);
      BatchIsForMembers(a, id, users);
    }
  }

  lemma {:induction false} DeliveriesAreForChannels(a: Alert, id: nat, targets: seq<Channel>)
    ensures forall n :: 0 <= n < |Deliveries(a, id, targets)| ==>
              ForChannel(Deliveries(a, id, targets)[n], a, id, targets)
  {
    if targets != [] {
      var front, c := targets[..|targets| - 1], targets[|targets| - 1];
      DeliveriesAreForChannels(a, id, front);
      forall n | 0 <= n < |Deliveries(a, id, targets)|
        ensures ForChannel(Deliveries(a, id, targets)[n], a, id, targets)
      {
        if n < |Deliveries(a, id, front)| {
          var d := Deliveries(a, id, front)[n];
          assert ForChannel(d, a, id, front);
          var i :| 0 <= i < |front| && front[i].id == d.channel && front[i].kind != InApp
                   && Admits(front[i].minSeverity, a.severity);
          assert targets[i] == front[i];
        } else {
          assert targets[|targets| - 1] == c;
        }
      }
    }
  }

  /**
   Without channels of its own an alert goes to all active in-app channels of its organisation, and
   to no other.
   */
  lemma {:induction false} DefaultTargets(channels: seq<Channel>, org: OrgId)
    ensures forall c :: c in DefaultChannels(channels, org)
                        <==> c in channels && c.org == org && c.kind == InApp && c.active
  {
    if channels != [] {
      DefaultTargets(channels[..|channels| - 1], org);
      assert channels == channels[..|channels| - 1] + [channels[|channels| - 1]];
    }
  }

  lemma TargetsAreOwn(chosen: seq<Channel>, org: OrgId, dir: Directory)
    ensures chosen != [] ==> Targets(chosen, org, dir) == chosen
    ensures chosen == [] ==>
              forall c :: c in Targets(chosen, org, dir)
                          <==> c in dir.channels && c.org == org && c.kind == InApp && c.active
  {
    DefaultTargets(dir.channels, org);
  }

  // ---- Serial runs ------------------------------------------------------------------------

  datatype Op =
    | DoRaise(req: Request, chosen: seq<Channel>, dir: Directory)
    | DoAutoResolve(k: AlertKey)
    | DoAcknowledge(id: nat, user: UserId)
    | DoResolve(id: nat)

  function Step(clock: Clock, db: Db, op: Op): Db {
    match op
    case DoRaise(req, chosen, dir) => Raise(clock, db, req, chosen, dir).0
    case DoAutoResolve(k) => AutoResolve(clock, db, k)
    case DoAcknowledge(id, user) => Acknowledge(clock, db, id, user)
    case DoResolve(id) => Resolve(clock, db, id)
  }

  function Run(clock: Clock, db: Db, ops: seq<Op>): Db {
    if ops == [] then db else Step(clock, Run(clock, db, ops[..|ops| - 1]), ops[|ops| - 1])
  }
}
