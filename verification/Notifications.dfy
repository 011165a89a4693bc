/** The fan-out loses no recipient, serves none twice, and reaches nobody outside the organisation. */
module Notifications {
  import opened Options
  import opened Alerts
  import opened AlertService

  function CountInApp(targets: seq<Channel>, s: Severity): nat {
    if targets == [] then 0
    else
      var c := targets[|targets| - 1];
      CountInApp(targets[..|targets| - 1], s) + if Admits(c.minSeverity, s) && c.kind == InApp then 1 else 0
  }

  function CountExternal(targets: seq<Channel>, s: Severity): nat {
    if targets == [] then 0
    else
      var c := targets[|targets| - 1];
      CountExternal(targets[..|targets| - 1], s) + if Admits(c.minSeverity, s) && c.kind != InApp then 1 else 0
  }

  /** The active, human members of the organisation. */
  function CountMembers(users: seq<User>, org: OrgId): nat {
    if users == [] then 0
    else
      var u := users[|users| - 1];
      CountMembers(users[..|users| - 1], org) + if u.org == Some(org) && u.active && !u.serviceAccount then 1 else 0
  }

  /** How many of the notifications are for this user and this alert. */
  function CountFor(notes: seq<Notification>, recipient: UserId, alert: nat): nat {
    if notes == [] then 0
    else
      var n := notes[|notes| - 1];
      CountFor(notes[..|notes| - 1], recipient, alert) + if n.recipient == recipient && n.alert == alert then 1 else 0
  }

  lemma {:induction false} CountForAppend(a: seq<Notification>, b: seq<Notification>, recipient: UserId, alert: nat)
    ensures CountFor(a + b, recipient, alert) == CountFor(a, recipient, alert) + CountFor(b, recipient, alert)
  {
    if b == [] {
      assert a + b == a;
    } else {
      assert (a + b)[..|a + b| - 1] == a + b[..|b| - 1];
      CountForAppend(a, b[..|b| - 1], recipient, alert);
    }
  }

  predicate Member(users: seq<User>, org: OrgId, u: UserId) {
    exists i :: 0 <= i < |users| && users[i].id == u && users[i].org == Some(org) && users[i].active
                && !users[i].serviceAccount
  }

  ghost predicate DistinctIds(users: seq<User>) {
    forall i, j :: 0 <= i < j < |users| ==> users[i].id != users[j].id
  }

  lemma MemberLast(users: seq<User>, org: OrgId, u: UserId)
    requires users != []
    ensures var last := users[|users| - 1];
            Member(users, org, u)
            <==> || Member(users[..|users| - 1], org, u)
                 || (last.id == u && last.org == Some(org) && last.active && !last.serviceAccount)
  {
    var front := users[..|users| - 1];
    assert forall i :: 0 <= i < |front| ==> front[i] == users[i];
  }

  lemma {:induction false} NoMemberTwice(users: seq<User>, org: OrgId, u: UserId)
    requires users != [] && DistinctIds(users) && Member(users[..|users| - 1], org, u)
    ensures users[|users| - 1].id != u
  {
    var front := users[..|users| - 1];
    var i :| 0 <= i < |front| && front[i].id == u;
    assert users[i] == front[i];
  }

  lemma {:induction false} BatchIsOnePerMember(a: Alert, id: nat, users: seq<User>, u: UserId)
    requires DistinctIds(users)
    ensures CountFor(Notes(a, id, users), u, id) == if Member(users, a.org, u) then 1 else 0
  {
    if users != [] {
      var front, last := users[..|users| - 1], users[|users| - 1];
      var more := if Receives(last, a.org) then [Notification(last.id, id, a.severity, a.title, a.message)] else [];
      BatchIsOnePerMember(a, id, front, u);
      CountForAppend(Notes(a, id, front), more, u, id);
      MemberLast(users, a.org, u);
      if Member(front, a.org, u) { NoMemberTwice(users, a.org, u); }
      assert CountFor(more, u, id) == if Receives(last, a.org) && last.id == u then 1 else 0;
    }
  }

  lemma {:induction false} BatchSize(a: Alert, id: nat, users: seq<User>)
    ensures |Notes(a, id, users)| == CountMembers(users, a.org)
  {
    if users != [] {
      BatchSize(a, id, users[..|users| - 1]);
    }
  }

  lemma OneMore(k: nat, m: nat)
    ensures (k + 1) * m == k * m + m
  {
  }

  lemma {:induction false} InAppShareOf(a: Alert, id: nat, targets: seq<Channel>, users: seq<User>)
    ensures |InAppNotes(a, id, targets, users)| == CountInApp(targets, a.severity) * CountMembers(users, a.org)
    decreases |targets|
  {
    if targets != [] {
      var front := targets[..|targets| - 1];
      InAppShareOf(a, id, front, users);
      BatchSize(a, id, users);
      OneMore(CountInApp(front, a.severity), CountMembers(users, a.org));
    }
  }

  lemma {:induction false} MemberShareOf(a: Alert, id: nat, targets: seq<Channel>, users: seq<User>, u: UserId)
    requires DistinctIds(users)
    ensures CountFor(InAppNotes(a, id, targets, users), u, id)
            == if Member(users, a.org, u) then CountInApp(targets, a.severity) else 0
    decreases |targets|
  {
    if targets != [] {
      var front, c := targets[..|targets| - 1], targets[|targets| - 1];
      MemberShareOf(a, id, front, users, u);
      if Eligible(c, a.severity) && c.kind.InApp? {
        var batch := Notes(a, id, users);
        assert CountFor(batch, u, id) == if Member(users, a.org, u) then 1 else 0 by {
          BatchIsOnePerMember(a, id, users, u);
        }
        assert InAppNotes(a, id, targets, users) == InAppNotes(a, id, front, users) + batch;
        CountForAppend(InAppNotes(a, id, front, users), batch, u, id);
      } else {
        assert InAppNotes(a, id, targets, users) == InAppNotes(a, id, front, users);
      }
    }
  }

  lemma {:induction false} ExternalShareOf(a: Alert, id: nat, targets: seq<Channel>)
    ensures |Deliveries(a, id, targets)| == CountExternal(targets, a.severity)
  {
    if targets != [] {
      ExternalShareOf(a, id, targets[..|targets| - 1]);
    }
  }

  /**
   One emission: each active, human member of the alert's organisation gets one notification per
   eligible in-app channel, nobody else gets any, and each eligible external channel gets one
   delivery.
   */
  lemma FanOutConserves(a: Alert, id: nat, targets: seq<Channel>, users: seq<User>)
    requires DistinctIds(users)
    ensures |InAppNotes(a, id, targets, users)| == CountInApp(targets, a.severity) * CountMembers(users, a.org)
    ensures forall u :: CountFor(InAppNotes(a, id, targets, users), u, id)
                        == if exists i :: 0 <= i < |users| && users[i].id == u && users[i].org == Some(a.org)
                                          && users[i].active && !users[i].serviceAccount
                           then CountInApp(targets, a.severity) else 0
    ensures |Deliveries(a, id, targets)| == CountExternal(targets, a.severity)
  {
    forall u ensures CountFor(InAppNotes(a, id, targets, users), u, id)
                     == if Member(users, a.org, u) then CountInApp(targets, a.severity) else 0
    {
      MemberShareOf(a, id, targets, users, u);
    }
    InAppShareOf(a, id, targets, users);
    ExternalShareOf(a, id, targets);
  }

  lemma {:induction false} NotesAppend(a: Alert, id: nat, us: seq<User>, vs: seq<User>)
    ensures Notes(a, id, us + vs) == Notes(a, id, us) + Notes(a, id, vs)
  {
    if vs == [] {
      assert us + vs == us;
    } else {
      assert (us + vs)[..|us + vs| - 1] == us + vs[..|vs| - 1];
      NotesAppend(a, id, us, vs[..|vs| - 1]);
    }
  }

  /** Users of other organisations, inactive users and service accounts make no difference. */
  lemma {:induction false} OutsidersReceiveNothing(
    a: Alert, id: nat, targets: seq<Channel>, us: seq<User>, u: User, vs: seq<User>)
    requires u.org != Some(a.org) || !u.active || u.serviceAccount
    ensures InAppNotes(a, id, targets, us + [u] + vs) == InAppNotes(a, id, targets, us + vs)
    decreases |targets|
  {
    if targets != [] {
      OutsidersReceiveNothing(a, id, targets[..|targets| - 1], us, u, vs);
      NotesAppend(a, id, us + [u], vs);
      NotesAppend(a, id, us, [u]);
      NotesAppend(a, id, us, vs);
      assert Notes(a, id, [u]) == [];
    }
  }

  /** The alert that was announced between the two states, if one was. */
  function Announced(before: Db, after: Db): (id: Option<nat>)
    ensures id.Some? ==> id.value < |after.rows|
  {
    if |after.raised| > |before.raised| && after.raised[|before.raised|].alert < |after.rows|
    then Some(after.raised[|before.raised|].alert)
    else None
  }

  /** Where an announcement of alert `a` by this operation goes. */
  function TargetsOf(op: Op, a: Alert): seq<Channel> {
    if op.DoRaise? then Targets(op.chosen, a.org, op.dir) else []
  }

  function UsersOf(op: Op): seq<User> {
    if op.DoRaise? then op.dir.users else []
  }

  function InAppShare(before: Db, after: Db, op: Op): nat {
    match Announced(before, after)
    case None => 0
    case Some(id) =>
      var a := after.rows[id];
      CountInApp(TargetsOf(op, a), a.severity) * CountMembers(UsersOf(op), a.org)
  }

  function ExternalShare(before: Db, after: Db, op: Op): nat {
    match Announced(before, after)
    case None => 0
    case Some(id) =>
      var a := after.rows[id];
      CountExternal(TargetsOf(op, a), a.severity)
  }

  /** The state after an operation holds one more fan-out if the operation announced, else none. */
  ghost predicate AddsOneFanOut(before: Db, after: Db, op: Op) {
    match Announced(before, after)
    case None => after.inbox == before.inbox && after.outbox == before.outbox && after.raised == before.raised
    case Some(id) =>
      var a := after.rows[id];
      && op.DoRaise? && |after.raised| == |before.raised| + 1
      && after.inbox == before.inbox + InAppNotes(a, id, TargetsOf(op, a), UsersOf(op))
      && after.outbox == before.outbox + Deliveries(a, id, TargetsOf(op, a))
  }

  lemma RaiseAdds(clock: Clock, db: Db, op: Op)
    requires op.DoRaise?
    ensures AddsOneFanOut(db, Step(clock, db, op), op)
  {
    var (after, outcome) := Raise(clock, db, op.req, op.chosen, op.dir);
    if outcome.Returned? && |after.raised| > |db.raised| {
      var a := after.rows[outcome.id];
      SameNotes(a, a.(notifiedAt := if outcome.created then None else db.rows[outcome.id].notifiedAt), outcome.id,
                Targets(op.chosen, a.org, op.dir), op.dir.users);
    }
  }

  lemma StepAdds(clock: Clock, db: Db, op: Op)
    ensures AddsOneFanOut(db, Step(clock, db, op), op)
  {
    if op.DoRaise? {
      RaiseAdds(clock, db, op);
    }
  }

  function InAppTotal(clock: Clock, db: Db, ops: seq<Op>): nat {
    if ops == [] then 0
    else
      var front := ops[..|ops| - 1];
      InAppTotal(clock, db, front) + InAppShare(Run(clock, db, front), Run(clock, db, ops), ops[|ops| - 1])
  }

  function ExternalTotal(clock: Clock, db: Db, ops: seq<Op>): nat {
    if ops == [] then 0
    else
      var front := ops[..|ops| - 1];
      ExternalTotal(clock, db, front) + ExternalShare(Run(clock, db, front), Run(clock, db, ops), ops[|ops| - 1])
  }

  lemma FanOutSizes(before: Db, after: Db, op: Op)
    requires AddsOneFanOut(before, after, op)
    ensures |after.inbox| == |before.inbox| + InAppShare(before, after, op)
    ensures |after.outbox| == |before.outbox| + ExternalShare(before, after, op)
  {
    if Announced(before, after).Some? {
      var id := Announced(before, after).value;
      var a := after.rows[id];
      InAppShareOf(a, id, TargetsOf(op, a), UsersOf(op));
      ExternalShareOf(a, id, TargetsOf(op, a));
    }
  }

  /** Over any run the totals are the sums of the announcements' shares, nothing lost or added. */
  lemma {:induction false} TotalsConserve(clock: Clock, db: Db, ops: seq<Op>)
    ensures |Run(clock, db, ops).inbox| == |db.inbox| + InAppTotal(clock, db, ops)
    ensures |Run(clock, db, ops).outbox| == |db.outbox| + ExternalTotal(clock, db, ops)
    decreases |ops|
  {
    if ops != [] {
      var front, op := ops[..|ops| - 1], ops[|ops| - 1];
      TotalsConserve(clock, db, front);
      StepAdds(clock, Run(clock, db, front), op);
      FanOutSizes(Run(clock, db, front), Run(clock, db, ops), op);
    }
  }

  /**
   The notification is of the alert the operation announced, for a user, at i in its directory, who
   was an active, human member of the alert's organisation.
   */
  predicate Informs(before: Db, after: Db, op: Op, note: Notification, i: nat) {
    && op.DoRaise? && i < |op.dir.users| && Announced(before, after) == Some(note.alert)
    && var user := op.dir.users[i];
       && user.id == note.recipient && user.org == Some(after.rows[note.alert].org)
       && user.active && !user.serviceAccount
  }

  lemma AddedAreForMembers(before: Db, after: Db, op: Op, n: nat) returns (i: nat)
    requires AddsOneFanOut(before, after, op) && |before.inbox| <= n < |after.inbox|
    ensures Informs(before, after, op, after.inbox[n], i)
  {
    var id, note := Announced(before, after).value, after.inbox[n];
    var a := after.rows[id];
    NotesAreForMembers(a, id, TargetsOf(op, a), UsersOf(op));
    assert note == InAppNotes(a, id, TargetsOf(op, a), UsersOf(op))[n - |before.inbox|];
    i :| 0 <= i < |op.dir.users| && op.dir.users[i].id == note.recipient && op.dir.users[i].org == Some(a.org)
         && op.dir.users[i].active && !op.dir.users[i].serviceAccount;
  }

  lemma InboxGrows(clock: Clock, db: Db, op: Op)
    ensures db.inbox <= Step(clock, db, op).inbox
  {
    StepAdds(clock, db, op);
  }

  /** Every notification of a run was created by some operation k that announced its alert, for a member. */
  lemma {:induction false} RecipientsAreMembers(clock: Clock, db: Db, ops: seq<Op>, n: nat) returns (k: nat, i: nat)
    requires |db.inbox| <= n < |Run(clock, db, ops).inbox|
    ensures k < |ops|
    ensures Informs(Run(clock, db, ops[..k]), Run(clock, db, ops[..k + 1]), ops[k], Run(clock, db, ops).inbox[n], i)
    decreases |ops|
  {
    var front, op := ops[..|ops| - 1], ops[|ops| - 1];
    if n < |Run(clock, db, front).inbox| {
      k, i := RecipientsAreMembers(clock, db, front, n);
      assert front[..k] == ops[..k] && front[..k + 1] == ops[..k + 1];
      InboxGrows(clock, Run(clock, db, front), op);
    } else {
      k := |ops| - 1;
      assert ops[..k + 1] == ops;
      StepAdds(clock, Run(clock, db, front), op);
      i := AddedAreForMembers(Run(clock, db, front), Run(clock, db, ops), op, n);
    }
  }
}
