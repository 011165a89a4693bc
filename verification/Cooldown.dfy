/** The per-alert cooldown over whole serial runs. */
module Cooldown {
  import opened Options
  import opened Alerts
  import opened AlertService

  /** When an alert was announced, oldest first. */
  function Times(raised: seq<Emission>, id: nat): seq<Time> {
    if raised == [] then []
    else
      var e := raised[|raised| - 1];
      Times(raised[..|raised| - 1], id) + if e.alert == id then [e.time] else []
  }

  lemma TimesAppend(raised: seq<Emission>, e: Emission, id: nat)
    ensures Times(raised + [e], id) == Times(raised, id) + if e.alert == id then [e.time] else []
  {
    assert (raised + [e])[..|raised|] == raised;
  }

  ghost predicate Spaced(ts: seq<Time>, gap: Time) {
    forall i :: 0 < i < |ts| ==> ts[i] - ts[i - 1] >= gap
  }

  /** How many of the times fall between `from` and `to`. */
  function CountIn(ts: seq<Time>, from: Time, to: Time): nat {
    if ts == [] then 0
    else CountIn(ts[..|ts| - 1], from, to) + if from <= ts[|ts| - 1] <= to then 1 else 0
  }

  /** The clock never goes back. */
  ghost predicate Forward(clock: Clock) {
    forall i, j :: i <= j ==> clock(i) <= clock(j)
  }

  /** The rule's cooldown is the same at every call of the run. */
  ghost predicate FixedCooldown(ops: seq<Op>, r: RuleId, seconds: nat) {
    forall i :: 0 <= i < |ops| && ops[i].DoRaise? && ops[i].req.key.rule == Some(r) ==>
      ops[i].req.cooldown == Some(seconds)
  }

  /** Row `id` was announced, last at its notification time, never within the gap. */
  ghost predicate Kept(db: Db, id: nat, r: RuleId, gap: Time)
    requires id < |db.rows|
  {
    var ts := Times(db.raised, id);
    && ts != [] && db.rows[id].notifiedAt == Some(ts[|ts| - 1])
    && (db.rows[id].key.rule == Some(r) ==> Spaced(ts, gap))
  }

  ghost predicate Logged(clock: Clock, db: Db, r: RuleId, gap: Time) {
    && (forall i :: 0 <= i < |db.raised| ==> db.raised[i].alert < |db.rows| && db.raised[i].time <= clock(db.ticks))
    && (forall id :: 0 <= id < |db.rows| ==> Kept(db, id, r, gap))
  }

  lemma {:induction false} NeverAnnounced(raised: seq<Emission>, id: nat)
    requires forall i :: 0 <= i < |raised| ==> raised[i].alert != id
    ensures Times(raised, id) == []
  {
    if raised != [] {
      NeverAnnounced(raised[..|raised| - 1], id);
    }
  }

  /** An operation that announces row `id` at `now`, once its last announcement is old enough. */
  lemma AnnounceKeeps(clock: Clock, db: Db, after: Db, id: nat, now: Time, r: RuleId, gap: Time)
    requires Forward(clock) && Logged(clock, db, r, gap)
    requires id < |after.rows| && |db.rows| <= |after.rows| && db.ticks < after.ticks
    requires |after.rows| > |db.rows| ==> id == |db.rows| == |after.rows| - 1
    requires after.raised == db.raised + [Emission(id, now)]
    requires forall i :: 0 <= i < |db.rows| ==> after.rows[i].key == db.rows[i].key
    requires forall i :: 0 <= i < |db.rows| && i != id ==> after.rows[i].notifiedAt == db.rows[i].notifiedAt
    requires after.rows[id].notifiedAt == Some(now) && now <= clock(after.ticks)
    requires id < |db.rows| && db.rows[id].key.rule == Some(r) ==>
               db.rows[id].notifiedAt.Some? && now - db.rows[id].notifiedAt.value >= gap
    ensures Logged(clock, after, r, gap)
  {
    forall i | 0 <= i < |after.rows| ensures Kept(after, i, r, gap) {
      TimesAppend(db.raised, Emission(id, now), i);
      if i < |db.rows| {
        assert Kept(db, i, r, gap);
      } else {
        NeverAnnounced(db.raised, i);
      }
    }
  }

  /** An operation that announces nothing and leaves keys and notification times alone. */
  lemma QuietKeeps(clock: Clock, db: Db, after: Db, r: RuleId, gap: Time)
    requires Forward(clock) && Logged(clock, db, r, gap)
    requires |after.rows| == |db.rows| && db.ticks <= after.ticks && after.raised == db.raised
    requires forall i :: 0 <= i < |db.rows| ==>
               after.rows[i].key == db.rows[i].key && after.rows[i].notifiedAt == db.rows[i].notifiedAt
    ensures Logged(clock, after, r, gap)
  {
    forall i | 0 <= i < |after.rows| ensures Kept(after, i, r, gap) {
      assert Kept(db, i, r, gap);
    }
  }

  lemma RaiseKeeps(clock: Clock, db: Db, req: Request, chosen: seq<Channel>, dir: Directory, r: RuleId, seconds: nat)
    requires Forward(clock) && Logged(clock, db, r, seconds * SECOND)
    requires req.key.rule == Some(r) ==> req.cooldown == Some(seconds)
    ensures Logged(clock, Raise(clock, db, req, chosen, dir).0, r, seconds * SECOND)
  {
    var after := Raise(clock, db, req, chosen, dir).0;
    match Get(db.rows, req.key)
    case MultipleObjects =>
    case DoesNotExist =>
      RaiseInserts(clock, db, req, chosen, dir);
      if !Conflicts(db.rows, req.key) {
        AnnounceKeeps(clock, db, after, |db.rows|, clock(db.ticks), r, seconds * SECOND);
      }
    case Found(id) =>
      assert Kept(db, id, r, seconds * SECOND);
      RaiseRefreshes(clock, db, req, chosen, dir);
      if |after.raised| == |db.raised| {
        QuietKeeps(clock, db, after, r, seconds * SECOND);
      } else {
        RaiseWaits(clock, db, req, chosen, dir);
        AnnounceKeeps(clock, db, after, id, clock(after.ticks - 1), r, seconds * SECOND);
      }
  }

  lemma StepKeeps(clock: Clock, db: Db, op: Op, r: RuleId, seconds: nat)
    requires Forward(clock) && Logged(clock, db, r, seconds * SECOND)
    requires op.DoRaise? && op.req.key.rule == Some(r) ==> op.req.cooldown == Some(seconds)
    ensures Logged(clock, Step(clock, db, op), r, seconds * SECOND)
  {
    if op.DoRaise? {
      RaiseKeeps(clock, db, op.req, op.chosen, op.dir, r, seconds);
    } else {
      QuietKeeps(clock, db, Step(clock, db, op), r, seconds * SECOND);
    }
  }

  const EMPTY := Db([], 0, [], [], [])

  /**
   Main result: in every serial run with a clock that never goes back, each alert was announced at
   least once, its notification time is its last announcement, and successive announcements of an
   alert of the rule are at least the rule's cooldown apart.
   */
  lemma {:induction false} CooldownHolds(clock: Clock, ops: seq<Op>, r: RuleId, seconds: nat)
    requires Forward(clock) && FixedCooldown(ops, r, seconds)
    ensures Logged(clock, Run(clock, EMPTY, ops), r, seconds * SECOND)
    decreases |ops|
  {
    if ops != [] {
      CooldownHolds(clock, ops[..|ops| - 1], r, seconds);
      StepKeeps(clock, Run(clock, EMPTY, ops[..|ops| - 1]), ops[|ops| - 1], r, seconds);
    }
  }

  /** Of spaced times, the last that falls in the window lies a gap per earlier one behind its start. */
  lemma {:induction false} CountedTimesSpread(ts: seq<Time>, gap: Time, from: Time, to: Time)
    requires Spaced(ts, gap) && gap >= 0
    ensures CountIn(ts, from, to) > 0 ==>
              && from + (CountIn(ts, from, to) - 1) * gap <= to
              && from + (CountIn(ts, from, to) - 1) * gap <= ts[|ts| - 1]
  {
    if ts != [] {
      var front, n := ts[..|ts| - 1], CountIn(ts[..|ts| - 1], from, to);
      CountedTimesSpread(front, gap, from, to);
      if n > 0 {
        assert ts[|ts| - 1] - ts[|ts| - 2] >= gap;
        assert n * gap == (n - 1) * gap + gap;
      }
    }
  }

  lemma QuotientBound(m: nat, gap: nat, width: nat)
    requires gap > 0 && m * gap <= width
    ensures m <= width / gap
  {
    var q := width / gap;
    assert width < (q + 1) * gap;
    assert q + 1 <= m ==> (q + 1) * gap <= m * gap;
  }

  lemma SpacedWindow(ts: seq<Time>, gap: nat, from: Time, width: nat)
    requires Spaced(ts, gap) && gap > 0
    ensures CountIn(ts, from, from + width) <= width / gap + 1
  {
    CountedTimesSpread(ts, gap, from, from + width);
    var n := CountIn(ts, from, from + width);
    if n > 0 {
      QuotientBound(n - 1, gap, width);
    }
  }

  /** Any window of the given width holds at most width / cooldown + 1 announcements of one alert. */
  lemma WindowBound(clock: Clock, ops: seq<Op>, r: RuleId, seconds: nat, id: nat, from: Time, width: nat)
    requires Forward(clock) && FixedCooldown(ops, r, seconds) && seconds > 0
    requires id < |Run(clock, EMPTY, ops).rows| && Run(clock, EMPTY, ops).rows[id].key.rule == Some(r)
    ensures CountIn(Times(Run(clock, EMPTY, ops).raised, id), from, from + width) <= width / (seconds * SECOND) + 1
  {
    CooldownHolds(clock, ops, r, seconds);
    assert Kept(Run(clock, EMPTY, ops), id, r, seconds * SECOND);
    SpacedWindow(Times(Run(clock, EMPTY, ops).raised, id), seconds * SECOND, from, width);
  }
}
