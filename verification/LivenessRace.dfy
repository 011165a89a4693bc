/**
 The writers of one device row at once. An ingest, a heartbeat and the watchdog each read the row
 and save it later; a save writes the columns of its operation, and of these only the status comes
 from the copy. So the status is what one writer can take from another.
 */
module LivenessRace {
  import opened Options
  import opened Alerts
  import opened Jobs
  import T = Telemetry

  /** A writer between reading the row and saving it. */
  datatype Writer = Writer(copy: T.Device, job: LifeEvent)

  datatype State = State(row: T.Device, writers: map<nat, Writer>)
  datatype Event = Read(w: nat, job: LifeEvent) | Save(w: nat)

  /** What saving the writer's copy makes of the row as it is now. */
  function Saved(row: T.Device, copy: T.Device, job: LifeEvent): T.Device {
    match job
    case Ingested(b, at) => T.Touched(row, b, at).(status := T.Touched(copy, b, at).status)
    case Beat(hb, at) => Beaten(row, hb, at).(status := Beaten(copy, hb, at).status)
    case Swept(_) => row.(status := T.Offline)
  }

  /** The watchdog only works on rows that its query finds stale. */
  predicate Takes(row: T.Device, job: LifeEvent) {
    job.Swept? ==> Stale(row, job.cutoff)
  }

  /** An event that is not possible in this state leaves it as it is. */
  function Step(s: State, e: Event): State {
    match e
    case Read(w, job) =>
      if w !in s.writers && Takes(s.row, job) then s.(writers := s.writers[w := Writer(s.row, job)]) else s
    case Save(w) =>
      if w in s.writers
      then State(Saved(s.row, s.writers[w].copy, s.writers[w].job), s.writers - {w})
      else s
  }

  function Run(d: T.Device, es: seq<Event>): State {
    if es == [] then State(d, map[]) else Step(Run(d, es[..|es| - 1]), es[|es| - 1])
  }

  /** What has been saved, in the order of the saves. */
  function History(d: T.Device, es: seq<Event>): seq<LifeEvent> {
    if es == [] then []
    else
      var s, e := Run(d, es[..|es| - 1]), es[|es| - 1];
      History(d, es[..|es| - 1]) + if e.Save? && e.w in s.writers then [s.writers[e.w].job] else []
  }

  // ---- One save ---------------------------------------------------------------------------

  /** A sign of life makes the same of both statuses. */
  predicate AlikeOnArrival(a: T.DeviceStatus, b: T.DeviceStatus) {
    a == b || (a in {T.Offline, T.Provisioning, T.Online} && b in {T.Offline, T.Provisioning, T.Online})
  }

  /** The copy serves as well as the row. */
  predicate Current(row: T.Device, copy: T.Device, job: LifeEvent) {
    match job
    case Ingested(_, _) => AlikeOnArrival(copy.status, row.status)
    case Beat(hb, _) => hb.reported.Some? || AlikeOnArrival(copy.status, row.status)
    case Swept(cutoff) =>
      row.status == T.Offline
      || (row.status in {T.Online, T.Degraded} && row.lastSeen.Some? && row.lastSeen.value < cutoff)
  }

  /** A save is the whole operation done now exactly if the copy serves as well as the row. */
  lemma SaveIsAtomicIffCurrent(row: T.Device, copy: T.Device, job: LifeEvent)
    ensures Saved(row, copy, job) == Live(row, job) <==> Current(row, copy, job)
    ensures Saved(row, copy, job) == Live(row, job).(status := Saved(row, copy, job).status)
  {
  }

  // ---- Runs -------------------------------------------------------------------------------

  /** Event k is a save. */
  predicate SavesAt(d: T.Device, es: seq<Event>, k: nat) {
    k < |es| && es[k].Save? && es[k].w in Run(d, es[..k]).writers
  }

  predicate CurrentAt(d: T.Device, es: seq<Event>, k: nat)
    requires SavesAt(d, es, k)
  {
    var s := Run(d, es[..k]);
    Current(s.row, s.writers[es[k].w].copy, s.writers[es[k].w].job)
  }

  /** Every save finds a row that its copy serves as well as. */
  ghost predicate AllCurrent(d: T.Device, es: seq<Event>) {
    forall k: nat :: SavesAt(d, es, k) ==> CurrentAt(d, es, k)
  }

  /** The row after n events is as if the operations saved so far had been done one at a time. */
  ghost predicate AtomicAt(d: T.Device, es: seq<Event>, n: nat) {
    n <= |es| ==> Run(d, es[..n]).row == Lived(d, History(d, es[..n]))
  }

  lemma OneMore(d: T.Device, es: seq<Event>, k: nat)
    requires k < |es|
    ensures Run(d, es[..k + 1]) == Step(Run(d, es[..k]), es[k])
    ensures var before, after := History(d, es[..k]), History(d, es[..k + 1]);
            if SavesAt(d, es, k) then
              var job := Run(d, es[..k]).writers[es[k].w].job;
              after == before + [job] && Lived(d, after) == Live(Lived(d, before), job)
            else after == before
  {
    assert es[..k + 1][..k] == es[..k];
    if SavesAt(d, es, k) {
      var before, job := History(d, es[..k]), Run(d, es[..k]).writers[es[k].w].job;
      assert (before + [job])[..|before|] == before;
    }
  }

  /** From a moment at which the row is so, it is so after the next event exactly if that is no bad save. */
  lemma StaysAtomicIffCurrent(d: T.Device, es: seq<Event>, k: nat)
    requires k < |es| && AtomicAt(d, es, k)
    ensures AtomicAt(d, es, k + 1) <==> (SavesAt(d, es, k) ==> CurrentAt(d, es, k))
  {
    OneMore(d, es, k);
    if SavesAt(d, es, k) {
      var s := Run(d, es[..k]);
      SaveIsAtomicIffCurrent(s.row, s.writers[es[k].w].copy, s.writers[es[k].w].job);
    }
  }

  lemma {:induction false} CurrentMeansAtomic(d: T.Device, es: seq<Event>, n: nat)
    requires AllCurrent(d, es)
    ensures AtomicAt(d, es, n)
    decreases n
  {
    if 0 < n <= |es| {
      CurrentMeansAtomic(d, es, n - 1);
      StaysAtomicIffCurrent(d, es, n - 1);
    }
  }

  /**
   Main result: the row is at every moment what its operations done one at a time, in the order of
   their saves, would make of it exactly if every save was made from a copy as good as the row.
   */
  lemma AtomicIffCurrent(d: T.Device, es: seq<Event>)
    ensures (forall n: nat :: AtomicAt(d, es, n)) <==> AllCurrent(d, es)
  {
    if AllCurrent(d, es) {
      forall n: nat ensures AtomicAt(d, es, n) {
        CurrentMeansAtomic(d, es, n);
      }
    }
    if forall n: nat :: AtomicAt(d, es, n) {
      forall k: nat | SavesAt(d, es, k) ensures CurrentAt(d, es, k) {
        assert AtomicAt(d, es, k) && AtomicAt(d, es, k + 1);
        StaysAtomicIffCurrent(d, es, k);
      }
    }
  }

  /** In every interleaving all other columns are as if the operations had been done one at a time. */
  lemma {:induction false} OnlyStatusIsLost(d: T.Device, es: seq<Event>)
    ensures var row, atomic := Run(d, es).row, Lived(d, History(d, es));
            row == atomic.(status := row.status)
    decreases |es|
  {
    if es != [] {
      var n := |es| - 1;
      OnlyStatusIsLost(d, es[..n]);
      assert es[..n + 1] == es;
      OneMore(d, es, n);
      var s := Run(d, es[..n]);
      if SavesAt(d, es, n) {
        SaveIsAtomicIffCurrent(s.row, s.writers[es[n].w].copy, s.writers[es[n].w].job);
        LiveIgnoresStatus(s.row, Lived(d, History(d, es[..n])), s.writers[es[n].w].job);
      }
    }
  }

  lemma LiveIgnoresStatus(a: T.Device, b: T.Device, job: LifeEvent)
    requires a == b.(status := a.status)
    ensures Live(a, job) == Live(b, job).(status := Live(a, job).status)
  {
  }

  // ---- Writers that do not overlap --------------------------------------------------------

  /** No writer saves while another is between its read and its save. */
  ghost predicate NoOverlap(d: T.Device, es: seq<Event>) {
    forall k: nat :: SavesAt(d, es, k) ==> Run(d, es[..k]).writers.Keys == {es[k].w}
  }

  /** Then every copy is the row as it still is. */
  lemma {:induction false} CopiesAreRow(d: T.Device, es: seq<Event>, n: nat)
    requires NoOverlap(d, es) && n <= |es|
    ensures var s := Run(d, es[..n]);
            forall w :: w in s.writers ==> s.writers[w].copy == s.row && Takes(s.row, s.writers[w].job)
    decreases n
  {
    if n > 0 {
      CopiesAreRow(d, es, n - 1);
      OneMore(d, es, n - 1);
      if SavesAt(d, es, n - 1) {
        assert Run(d, es[..n]).writers.Keys == {};
      }
    }
  }

  /** Writers that do not overlap are as good as atomic operations. */
  lemma NoOverlapIsAtomic(d: T.Device, es: seq<Event>)
    requires NoOverlap(d, es)
    ensures AllCurrent(d, es) && Run(d, es).row == Lived(d, History(d, es))
  {
    forall k: nat | SavesAt(d, es, k) ensures CurrentAt(d, es, k) {
      CopiesAreRow(d, es, k);
    }
    CurrentMeansAtomic(d, es, |es|);
    assert es[..|es|] == es;
  }

  // ---- What holds, and what is lost, when they do -----------------------------------------

  ghost predicate SeenIfAlive(d: T.Device) {
    && (d.status.Online? || d.status.Degraded? ==> d.lastSeen.Some?)
    && (d.lastSeen.None? ==> d.status.Provisioning?)
  }

  /** In every interleaving from provisioning a device believed alive has been seen. */
  lemma {:induction false} AliveHasBeenSeenInRaces(d: T.Device, es: seq<Event>)
    requires d.status.Provisioning?
    ensures var s := Run(d, es);
            && SeenIfAlive(s.row)
            && forall w :: w in s.writers ==>
                 SeenIfAlive(s.writers[w].copy) && (s.writers[w].copy.lastSeen.Some? ==> s.row.lastSeen.Some?)
                 && Takes(s.writers[w].copy, s.writers[w].job)
    decreases |es|
  {
    if es != [] {
      AliveHasBeenSeenInRaces(d, es[..|es| - 1]);
    }
  }

  /** Some saved heartbeat reported the status. */
  ghost predicate Reported(done: seq<LifeEvent>, st: T.DeviceStatus) {
    exists k :: 0 <= k < |done| && done[k].Beat? && done[k].hb.reported == Some(st)
  }

  lemma ReportedStays(done: seq<LifeEvent>, job: LifeEvent, st: T.DeviceStatus)
    requires Reported(done, st) || (job.Beat? && job.hb.reported == Some(st))
    ensures Reported(done + [job], st)
  {
    if k :| 0 <= k < |done| && done[k].Beat? && done[k].hb.reported == Some(st) {
      assert (done + [job])[k] == done[k];
    } else {
      assert (done + [job])[|done|] == job;
    }
  }

  /** An out-of-service status, in the row or in a copy, was reported. */
  ghost predicate Accounted(s: State, done: seq<LifeEvent>) {
    && (OutOfService(s.row.status) ==> Reported(done, s.row.status))
    && forall w :: w in s.writers && OutOfService(s.writers[w].copy.status) ==> Reported(done, s.writers[w].copy.status)
  }

  lemma SaveAccounted(s: State, w: nat, done: seq<LifeEvent>)
    requires Accounted(s, done) && w in s.writers
    ensures Accounted(Step(s, Save(w)), done + [s.writers[w].job])
  {
    var t, copy, job := Step(s, Save(w)), s.writers[w].copy, s.writers[w].job;
    assert t.row.status in {copy.status, T.Online, T.Offline} || (job.Beat? && job.hb.reported == Some(t.row.status));
    if OutOfService(t.row.status) {
      ReportedStays(done, job, t.row.status);
    }
    forall v | v in t.writers && OutOfService(t.writers[v].copy.status)
      ensures Reported(done + [job], t.writers[v].copy.status)
    {
      assert t.writers[v] == s.writers[v];
      ReportedStays(done, job, t.writers[v].copy.status);
    }
  }

  /** In every interleaving an out-of-service status in the row or in a copy is one that was reported. */
  lemma {:induction false} OutOfServiceWasReported(d: T.Device, es: seq<Event>, n: nat)
    requires d.status.Provisioning? && n <= |es|
    ensures Accounted(Run(d, es[..n]), History(d, es[..n]))
    decreases n
  {
    if n > 0 {
      OutOfServiceWasReported(d, es, n - 1);
      OneMore(d, es, n - 1);
      if SavesAt(d, es, n - 1) {
        SaveAccounted(Run(d, es[..n - 1]), es[n - 1].w, History(d, es[..n - 1]));
      }
    }
  }

  /** And where every save was made from a current copy it is the last one reported. */
  lemma OutOfServiceIsLastReport(d: T.Device, es: seq<Event>)
    requires d.status.Provisioning? && AllCurrent(d, es)
    ensures var st, done := Run(d, es).row.status, History(d, es);
            && (OutOfService(st) ==>
                  exists k :: 0 <= k < |done| && ReportsLast(done, k) && done[k].hb.reported == Some(st))
            && forall k :: 0 <= k < |done| && ReportsLast(done, k) && OutOfService(done[k].hb.reported.value) ==>
                 st == done[k].hb.reported.value
  {
    CurrentMeansAtomic(d, es, |es|);
    assert es[..|es|] == es;
    OutOfServiceIsReported(d, History(d, es));
  }

  /** The run so far, and one more event. */
  lemma Then(d: T.Device, es: seq<Event>, e: Event)
    ensures Run(d, es + [e]) == Step(Run(d, es), e)
    ensures var writers := Run(d, es).writers;
            History(d, es + [e])
            == if e.Save? && e.w in writers then History(d, es) + [writers[e.w].job] else History(d, es)
  {
    assert (es + [e])[..|es|] == es;
  }

  lemma LivedThen(d: T.Device, es: seq<LifeEvent>, e: LifeEvent)
    ensures Lived(d, es + [e]) == Live(Lived(d, es), e)
  {
    assert (es + [e])[..|es|] == es;
  }

  /** Two writers read, and the second to read is the first to save. */
  function Crossed(first: LifeEvent, second: LifeEvent): seq<Event> {
    [Read(0, first)] + [Read(1, second)] + [Save(1)] + [Save(0)]
  }

  lemma BothRead(d: T.Device, first: LifeEvent, second: LifeEvent)
    requires Takes(d, first) && Takes(d, second)
    ensures var es := [Read(0, first)] + [Read(1, second)];
            Run(d, es) == State(d, map[0 := Writer(d, first), 1 := Writer(d, second)]) && History(d, es) == []
  {
    Then(d, [], Read(0, first));
    assert [] + [Read(0, first)] == [Read(0, first)];
    Then(d, [Read(0, first)], Read(1, second));
  }

  lemma CrossedRun(d: T.Device, first: LifeEvent, second: LifeEvent)
    requires Takes(d, first) && Takes(d, second)
    ensures var es := Crossed(first, second);
            && Run(d, es).row == Saved(Saved(d, d, second), d, first)
            && History(d, es) == [second, first] && Lived(d, History(d, es)) == Live(Live(d, second), first)
  {
    var es := [Read(0, first)] + [Read(1, second)];
    BothRead(d, first, second);
    Then(d, es, Save(1));
    Then(d, es + [Save(1)], Save(0));
    LivedThen(d, [], second);
    LivedThen(d, [second], first);
    assert [] + [second] == [second] && [second] + [first] == [second, first];
  }

  /** An ingest that read the row before a heartbeat reported maintenance puts the device back online. */
  lemma ReportedStatusIsLost(d: T.Device, b: T.Batch, hb: Heartbeat, at: Time)
    requires d.status.Online? && hb.reported == Some(T.Maintenance)
    ensures var es := Crossed(Ingested(b, at), Beat(hb, at));
            && Run(d, es).row.status == T.Online && !AllCurrent(d, es)
            && Lived(d, History(d, es)).status == T.Maintenance
  {
    CrossedRun(d, Ingested(b, at), Beat(hb, at));
    CrossedIsNotAtomic(d, Ingested(b, at), Beat(hb, at));
  }

  /** A device seen after the watchdog's query is put offline all the same. */
  lemma SeenDeviceGoesOffline(d: T.Device, b: T.Batch, cutoff: Time, at: Time)
    requires Stale(d, cutoff) && cutoff <= at
    ensures var es := Crossed(Swept(cutoff), Ingested(b, at));
            && Run(d, es).row.status == T.Offline && Run(d, es).row.lastSeen == Some(at) && !AllCurrent(d, es)
            && Lived(d, History(d, es)).status == d.status
  {
    CrossedRun(d, Swept(cutoff), Ingested(b, at));
    CrossedIsNotAtomic(d, Swept(cutoff), Ingested(b, at));
  }

  lemma CrossedIsNotAtomic(d: T.Device, first: LifeEvent, second: LifeEvent)
    requires Takes(d, first) && Takes(d, second)
    requires Saved(Saved(d, d, second), d, first) != Live(Live(d, second), first)
    ensures !AllCurrent(d, Crossed(first, second))
  {
    var es := Crossed(first, second);
    CrossedRun(d, first, second);
    assert es[..4] == es;
    if AllCurrent(d, es) { CurrentMeansAtomic(d, es, 4); }
  }
}
