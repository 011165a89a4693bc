/**
 Which schedules keep a rule's cooldown whatever the clock shows: exactly those that do not overlap
 when every reading of the clock is a whole cooldown later than the one before. An overlap under any
 clock can be driven into two announcements at one instant; and an overlap under any clock is one
 under that generous clock, because the clock decides nothing but who announces.
 */
module CooldownSchedules {
  import opened Options
  import opened Alerts
  import opened AlertRace
  import opened Cooldown
  import opened RaceCooldown
  import opened GenerousClock

  // ---- An overlap breaks the cooldown -----------------------------------------------------

  /** The clock, stopped at its reading number `at`. */
  function Freeze(clock: Clock, at: nat): Clock {
    (i: nat) => if i < at then clock(i) else clock(at)
  }

  lemma StepAgrees(a: Clock, b: Clock, s: State, e: Event)
    requires s.ticks < Step(a, s, e).ticks ==> a(s.ticks) == b(s.ticks)
    ensures Step(a, s, e) == Step(b, s, e)
  {
  }

  lemma StepOnlyAdds(clock: Clock, s: State, e: Event)
    ensures s.ticks <= Step(clock, s, e).ticks && |s.rows| <= |Step(clock, s, e).rows|
    ensures s.emissions <= Step(clock, s, e).emissions
    ensures forall i :: 0 <= i < |s.rows| ==> Step(clock, s, e).rows[i].key == s.rows[i].key
  {
  }

  /** Clocks that agree on the readings made drive the same run. */
  lemma {:induction false} RunAgrees(a: Clock, b: Clock, es: seq<Event>)
    requires forall i: nat :: i < Run(a, [], es).ticks ==> a(i) == b(i)
    ensures Run(a, [], es) == Run(b, [], es)
    decreases |es|
  {
    if es != [] {
      var front, e := es[..|es| - 1], es[|es| - 1];
      StepOnlyAdds(a, Run(a, [], front), e);
      RunAgrees(a, b, front);
      StepAgrees(a, b, Run(a, [], front), e);
    }
  }

  lemma {:induction false} RunOnlyAdds(clock: Clock, es: seq<Event>, k: nat)
    requires k <= |es|
    ensures var s, t := Before(clock, [], es, k), Run(clock, [], es);
            && s.ticks <= t.ticks && |s.rows| <= |t.rows| && s.emissions <= t.emissions
            && forall i :: 0 <= i < |s.rows| ==> t.rows[i].key == s.rows[i].key
    decreases |es|
  {
    assert es[..|es|] == es;
    if k < |es| {
      BeforeInPrefix(clock, [], es, |es| - 1, k);
      RunOnlyAdds(clock, es[..|es| - 1], k);
      StepOnlyAdds(clock, Run(clock, [], es[..|es| - 1]), es[|es| - 1]);
    }
  }

  lemma {:induction false} FirstOvertaking(clock: Clock, es: seq<Event>, c: CallId, id: nat)
    returns (i: nat, d: CallId)
    requires Overtaken(clock, es, c, id)
    ensures Overtakes(clock, es, i, c, d, id) && !Overtaken(clock, es[..i], c, id)
    decreases |es|
  {
    i, d :| Overtakes(clock, es, i, c, d, id);
    if Overtaken(clock, es[..i], c, id) {
      var k, f := FirstOvertaking(clock, es[..i], c, id);
      EventsOfPrefix(clock, es, i, k);
      assert es[..i][..k] == es[..k];
      i, d := k, f;
    }
  }

  /** What the call has read lets it announce at `now`. */
  predicate Ready(at: Point, gap: Time, now: Time) {
    match at
    case Refreshing(_, seen) => Over(seen.notifiedAt, gap, now)
    case Deciding(_, seen) => Over(seen.notifiedAt, gap, now)
    case Emitting(_, _) => true
    case _ => false
  }

  /** A ready call moves alike in two runs, as long as the first takes it on to an announcement. */
  lemma ReadyStep(a: Clock, b: Clock, s: State, t: State, c: CallId, seconds: nat)
    requires c in s.calls && c in t.calls && s.calls[c] == t.calls[c]
    requires s.calls[c].req.cooldown == Some(seconds)
    requires Ready(t.calls[c].at, seconds * SECOND, b(t.ticks))
    requires Held(s.calls[c].at).value < |s.rows| && Held(s.calls[c].at).value < |t.rows|
    requires !Statement(a, s, c).calls[c].at.Done?
    ensures Statement(a, s, c).calls[c] == Statement(b, t, c).calls[c]
    ensures Ready(Statement(b, t, c).calls[c].at, seconds * SECOND, b(t.ticks))
  {
  }

  /** Call c is at the same point of its own row in both states, ready to announce at `now`. */
  predicate BothReady(s: State, t: State, c: CallId, r: RuleId, gap: Time, now: Time) {
    && IsCall(t, c, r) && HoldsOwn(s, c) && HoldsOwn(t, c)
    && s.calls[c] == t.calls[c] && Ready(t.calls[c].at, gap, now)
  }

  lemma StepStaysReady(a: Clock, b: Clock, s: State, t: State, e: Event, c: CallId, r: RuleId, seconds: nat)
    requires BothReady(s, t, c, r, seconds * SECOND, b(t.ticks)) && s.calls[c].req.cooldown == Some(seconds)
    requires c in Step(a, s, e).calls && !Step(a, s, e).calls[c].at.Done?
    ensures BothReady(Step(a, s, e), Step(b, t, e), c, r, seconds * SECOND, b(t.ticks))
  {
    if e == Advance(c) {
      ReadyStep(a, b, s, t, c, seconds);
    } else {
      StepKeepsCalls(a, s, e, c);
      StepKeepsCalls(b, t, e, c);
    }
    StepStaysOwn(a, s, e, c);
    StepStaysOwn(b, t, e, c);
  }

  lemma StepStaysOwn(clock: Clock, s: State, e: Event, c: CallId)
    requires HoldsOwn(s, c)
    ensures HoldsOwn(Step(clock, s, e), c) && Step(clock, s, e).calls[c].req == s.calls[c].req
  {
    StepKeepsHeld(clock, s, e, c);
    StepOnlyAdds(clock, s, e);
  }

  /** From the overtaking on, stopping the clock there leaves the overtaken call on its way. */
  lemma {:induction false} StaysReady(clock: Clock, es: seq<Event>, i: nat, k: nat, c: CallId, r: RuleId, seconds: nat)
    requires OneCooldown(es, r, seconds) && i < k <= |es|
    requires var s, t := Before(clock, [], es, i), Before(clock, [], es, i + 1);
             && t.ticks == s.ticks + 1 && BothReady(t, t, c, r, seconds * SECOND, clock(s.ticks))
    requires c in Before(clock, [], es, k).calls && !Before(clock, [], es, k).calls[c].at.Done?
    ensures var at := Before(clock, [], es, i).ticks;
            && at < Before(Freeze(clock, at), [], es, k).ticks
            && BothReady(Before(clock, [], es, k), Before(Freeze(clock, at), [], es, k), c, r, seconds * SECOND,
                         clock(at))
    decreases k
  {
    var at := Before(clock, [], es, i).ticks;
    var frozen := Freeze(clock, at);
    if k == i + 1 {
      RunAgrees(clock, frozen, es[..k]);
    } else {
      var s, t, e := Before(clock, [], es, k - 1), Before(frozen, [], es, k - 1), es[k - 1];
      assert es[..k][..k - 1] == es[..k - 1];
      StaysUnderWay(clock, es, i + 1, k, c);
      StaysReady(clock, es, i, k - 1, c, r, seconds);
      CallsCarryCooldown(clock, es[..k - 1], r, seconds);
      assert IsCall(s, c, r);
      StepStaysReady(clock, frozen, s, t, e, c, r, seconds);
      StepOnlyAdds(frozen, t, e);
    }
  }

  /** A call that has not returned had not before. */
  lemma StaysUnderWay(clock: Clock, es: seq<Event>, i: nat, k: nat, c: CallId)
    requires i < k <= |es| && c in Before(clock, [], es, i).calls
    requires c in Before(clock, [], es, k).calls && !Before(clock, [], es, k).calls[c].at.Done?
    ensures c in Before(clock, [], es, k - 1).calls && !Before(clock, [], es, k - 1).calls[c].at.Done?
  {
    assert es[..k][..k - 1] == es[..k - 1] && es[..k - 1][..i] == es[..i];
    KeepsRequest(clock, [], es[..k - 1], i, c);
    var s := Before(clock, [], es, k - 1);
    if s.calls[c].at.Done? {
      StepKeepsCalls(clock, s, es[k - 1], c);
    }
  }

  lemma {:induction false} AnnounceMore(made: seq<Emission>, more: seq<Emission>, id: nat)
    ensures Announcements(made + more, id) == Announcements(made, id) + Announcements(more, id)
  {
    if more == [] {
      NeverMade(more, id);
      assert made + more == made;
    } else {
      var n := |more| - 1;
      assert made + more == (made + more[..n]) + [more[n]] && more == more[..n] + [more[n]];
      AnnounceMore(made, more[..n], id);
      AnnounceOneMore(made + more[..n], more[n], id);
      AnnounceOneMore(more[..n], more[n], id);
    }
  }

  /** Later announcements are appended. */
  lemma LaterAnnouncements(made: seq<Emission>, later: seq<Emission>, id: nat)
    requires made <= later
    ensures Announcements(made, id) <= Announcements(later, id)
  {
    AnnounceMore(made, later[|made|..], id);
    assert made + later[|made|..] == later;
  }

  lemma {:induction false} SpacedApart(ts: seq<Time>, gap: Time, p: nat, q: nat)
    requires Spaced(ts, gap) && gap > 0 && p < q < |ts|
    ensures ts[p] < ts[q]
    decreases q
  {
    if p < q - 1 { SpacedApart(ts, gap, p, q - 1); }
    assert ts[q] - ts[q - 1] >= gap;
  }

  /** Two announcements of a row at one instant are not spaced. */
  lemma TwiceAtOnce(made: seq<Emission>, later: seq<Emission>, all: seq<Emission>, id: nat, now: Time, gap: Time)
    requires gap > 0 && made <= later <= all
    requires |Announcements(made, id)| < |Announcements(later, id)|
    requires var ts := Announcements(made, id); ts != [] && ts[|ts| - 1] == now
    requires var ts := Announcements(later, id); ts[|ts| - 1] == now
    ensures !Spaced(Announcements(all, id), gap)
  {
    LaterAnnouncements(made, later, id);
    LaterAnnouncements(later, all, id);
    var first, last, ts := Announcements(made, id), Announcements(later, id), Announcements(all, id);
    if Spaced(ts, gap) {
      assert ts[|first| - 1] == first[|first| - 1] && ts[|last| - 1] == last[|last| - 1];
      SpacedApart(ts, gap, |first| - 1, |last| - 1);
    }
  }

  lemma EmissionsGrow(clock: Clock, es: seq<Event>, i: nat, k: nat)
    requires i <= k <= |es|
    ensures Before(clock, [], es, i).emissions <= Before(clock, [], es, k).emissions
  {
    BeforeInPrefix(clock, [], es, k, i);
    RunOnlyAdds(clock, es[..k], i);
  }

  /** When the first overlap begins, the overtaken call too has read a row whose cooldown is over. */
  lemma OvertakenWasReady(clock: Clock, es: seq<Event>, i: nat, j: nat, c: CallId, d: CallId, id: nat, r: RuleId,
                          seconds: nat)
    requires Forward(clock) && OneCooldown(es, r, seconds)
    requires OverlapAt(clock, es, i, j, c, d, id, r)
    requires !Overlaps(clock, es[..j], r) && !Overtaken(clock, es[..i], c, id)
    ensures var s := Before(clock, [], es, i);
            && IsCall(s, c, r) && HoldsOwn(s, c) && IsRow(s, id, r)
            && Ready(s.calls[c].at, seconds * SECOND, clock(s.ticks))
  {
    var s := Before(clock, [], es, i);
    assert es[..j][..i] == es[..i];
    NoOverlapInPrefix(clock, es[..j], i, r);
    KeptWithoutOverlap(clock, es[..i], r, seconds);
    RunOnlyAdds(clock, es[..j], i);
    assert Holds(s, d, id);
    HeldRowIsOwn(clock, es[..i], c, id);
    HeldRowIsOwn(clock, es[..i], d, id);
    if k, f :| Overtakes(clock, es[..i], k, d, f, id) {
      EventsOfPrefix(clock, es, i, k);
      EventsOfPrefix(clock, es, j, k);
      EventsOfPrefix(clock, es, j, i);
      assert OverlapAt(clock, es[..j], k, i, d, f, id, r);
    }
    assert IsCall(s, c, r) && IsCall(s, d, r);
    assert Fresh(clock, s, c, seconds * SECOND) && Fresh(clock, s, d, seconds * SECOND);
  }

  /** The step that announces a row for call c, at the time read. */
  lemma EmitsAnnounces(clock: Clock, es: seq<Event>, k: nat, c: CallId, id: nat)
    requires Emits(clock, es, k, c, id)
    ensures var s, t := Before(clock, [], es, k), Before(clock, [], es, k + 1);
            && t.ticks == s.ticks + 1 && s.emissions <= t.emissions
            && Announcements(t.emissions, id) == Announcements(s.emissions, id) + [clock(s.ticks)]
            && forall d :: d != c && d in s.calls ==> d in t.calls && t.calls[d] == s.calls[d]
  {
    var s, t := Before(clock, [], es, k), Before(clock, [], es, k + 1);
    assert es[..k + 1][..k] == es[..k];
    TimeEffect(clock, s, es[k]);
    AnnounceOneMore(s.emissions, t.emissions[|s.emissions|], id);
    forall d | d != c && d in s.calls ensures d in t.calls && t.calls[d] == s.calls[d] {
      StepKeepsCalls(clock, s, es[k], d);
    }
  }

  /** Until the overtaking both clocks drive the same run. */
  lemma SameUntilOvertaken(clock: Clock, es: seq<Event>, i: nat, d: CallId, id: nat)
    requires Emits(clock, es, i, d, id)
    ensures var frozen := Freeze(clock, Before(clock, [], es, i).ticks);
            Before(frozen, [], es, i + 1) == Before(clock, [], es, i + 1)
  {
    EmitsAnnounces(clock, es, i, d, id);
    RunAgrees(clock, Freeze(clock, Before(clock, [], es, i).ticks), es[..i + 1]);
  }

  /** From there the overtaken call announces the row again at once. */
  lemma AnnouncesAtOnce(clock: Clock, es: seq<Event>, i: nat, j: nat, c: CallId, d: CallId, id: nat, r: RuleId,
                        seconds: nat)
    requires OneCooldown(es, r, seconds) && OverlapAt(clock, es, i, j, c, d, id, r)
    requires var s := Before(clock, [], es, i);
             IsCall(s, c, r) && HoldsOwn(s, c) && Ready(s.calls[c].at, seconds * SECOND, clock(s.ticks))
    ensures var frozen := Freeze(clock, Before(clock, [], es, i).ticks);
            && Emits(frozen, es, j, c, id) && IsRow(Before(frozen, [], es, j), id, r)
            && frozen(Before(frozen, [], es, j).ticks) == clock(Before(clock, [], es, i).ticks)
  {
    EmitsAnnounces(clock, es, i, d, id);
    assert es[..i + 1][..i] == es[..i];
    StepOnlyAdds(clock, Before(clock, [], es, i), es[i]);
    StaysReady(clock, es, i, j, c, r, seconds);
  }

  lemma FirstOverlapBreaks(clock: Clock, es: seq<Event>, i: nat, j: nat, c: CallId, d: CallId, id: nat, r: RuleId,
                           seconds: nat)
    requires Forward(clock) && OneCooldown(es, r, seconds) && seconds > 0
    requires OverlapAt(clock, es, i, j, c, d, id, r)
    requires !Overlaps(clock, es[..j], r) && !Overtaken(clock, es[..i], c, id)
    ensures !AllSpaced(Run(Freeze(clock, Before(clock, [], es, i).ticks), [], es), r, seconds * SECOND)
  {
    var frozen := Freeze(clock, Before(clock, [], es, i).ticks);
    OvertakenWasReady(clock, es, i, j, c, d, id, r, seconds);
    SameUntilOvertaken(clock, es, i, d, id);
    AnnouncesAtOnce(clock, es, i, j, c, d, id, r, seconds);
    EmitsAnnounces(clock, es, i, d, id);
    EmitsAnnounces(frozen, es, j, c, id);
    AnnouncedTwice(frozen, es, i, j, id, r, seconds * SECOND);
  }

  lemma RowStays(clock: Clock, es: seq<Event>, j: nat, id: nat, r: RuleId)
    requires j <= |es| && IsRow(Before(clock, [], es, j), id, r)
    ensures IsRow(Run(clock, [], es), id, r)
  {
    RunOnlyAdds(clock, es, j);
  }

  /** The last announcement in `made` and the one that ends `later` come at one instant. */
  lemma TwiceAmong(
    made: seq<Emission>, before: seq<Emission>, later: seq<Emission>, all: seq<Emission>, id: nat, gap: Time)
    requires gap > 0 && made <= before <= later <= all && Announcements(made, id) != []
    requires var first := Announcements(made, id);
             Announcements(later, id) == Announcements(before, id) + [first[|first| - 1]]
    ensures !Spaced(Announcements(all, id), gap)
  {
    LaterAnnouncements(made, before, id);
    var first := Announcements(made, id);
    TwiceAtOnce(made, later, all, id, first[|first| - 1], gap);
  }

  lemma SpacedIfAllSpaced(s: State, id: nat, r: RuleId, gap: Time)
    requires AllSpaced(s, r, gap) && IsRow(s, id, r)
    ensures Spaced(Announcements(s.emissions, id), gap)
  {
  }

  lemma AnnouncedTwice(clock: Clock, es: seq<Event>, i: nat, j: nat, id: nat, r: RuleId, gap: Time)
    requires i < j < |es| && gap > 0
    requires IsRow(Before(clock, [], es, j), id, r)
    requires var first := Announcements(Before(clock, [], es, i + 1).emissions, id);
             var before := Announcements(Before(clock, [], es, j).emissions, id);
             && first != []
             && Announcements(Before(clock, [], es, j + 1).emissions, id) == before + [first[|first| - 1]]
    ensures !AllSpaced(Run(clock, [], es), r, gap)
  {
    assert es[..|es|] == es;
    EmissionsGrow(clock, es, i + 1, j);
    EmissionsGrow(clock, es, j, j + 1);
    EmissionsGrow(clock, es, j + 1, |es|);
    RowStays(clock, es, j, id, r);
    TwiceAmong(Before(clock, [], es, i + 1).emissions, Before(clock, [], es, j).emissions,
               Before(clock, [], es, j + 1).emissions, Before(clock, [], es, |es|).emissions, id, gap);
    if AllSpaced(Run(clock, [], es), r, gap) {
      SpacedIfAllSpaced(Run(clock, [], es), id, r, gap);
    }
  }

  lemma OverlapInPrefix(clock: Clock, es: seq<Event>, n: nat, i: nat, j: nat, c: CallId, d: CallId, id: nat, r: RuleId)
    requires i < j < n <= |es|
    ensures OverlapAt(clock, es[..n], i, j, c, d, id, r) == OverlapAt(clock, es, i, j, c, d, id, r)
    ensures Overtakes(clock, es[..n], i, c, d, id) == Overtakes(clock, es, i, c, d, id)
  {
    EventsOfPrefix(clock, es, n, i);
    EventsOfPrefix(clock, es, n, j);
  }

  /** Of the overlaps that end at j or before, one that ends first. */
  lemma {:induction false} FirstEnding(
    clock: Clock, es: seq<Event>, i: nat, j: nat, c: CallId, d: CallId, id: nat, r: RuleId)
    returns (i1: nat, j1: nat, c1: CallId, d1: CallId, id1: nat)
    requires j < |es| && OverlapAt(clock, es, i, j, c, d, id, r)
    ensures j1 < |es| && OverlapAt(clock, es, i1, j1, c1, d1, id1, r) && !Overlaps(clock, es[..j1], r)
    decreases j
  {
    if i0: nat, k: nat, c0: CallId, d0: CallId, id0: nat :| OverlapAt(clock, es[..j], i0, k, c0, d0, id0, r) {
      OverlapInPrefix(clock, es, j, i0, k, c0, d0, id0, r);
      i1, j1, c1, d1, id1 := FirstEnding(clock, es, i0, k, c0, d0, id0, r);
    } else {
      i1, j1, c1, d1, id1 := i, j, c, d, id;
    }
  }

  lemma OvertakesInPrefix(clock: Clock, es: seq<Event>, n: nat, i: nat, c: CallId, d: CallId, id: nat)
    requires i < n <= |es|
    ensures Overtakes(clock, es[..n], i, c, d, id) == Overtakes(clock, es, i, c, d, id)
  {
    EventsOfPrefix(clock, es, n, i);
  }

  /** And of its kind the one that begins first. */
  lemma FirstBeginning(clock: Clock, es: seq<Event>, i: nat, j: nat, c: CallId, d: CallId, id: nat, r: RuleId)
    returns (i1: nat, d1: CallId)
    requires j < |es| && OverlapAt(clock, es, i, j, c, d, id, r)
    ensures OverlapAt(clock, es, i1, j, c, d1, id, r) && !Overtaken(clock, es[..i1], c, id)
  {
    OvertakesInPrefix(clock, es, j, i, c, d, id);
    i1, d1 := FirstOvertaking(clock, es[..j], c, id);
    OvertakesInPrefix(clock, es, j, i1, c, d1, id);
    assert es[..j][..i1] == es[..i1];
  }

  /** Whatever the clock, a schedule that overlaps under it breaks the cooldown under some clock. */
  lemma OverlapBreaks(clock: Clock, es: seq<Event>, r: RuleId, seconds: nat) returns (breaking: Clock)
    requires Forward(clock) && OneCooldown(es, r, seconds) && seconds > 0 && Overlaps(clock, es, r)
    ensures Forward(breaking) && !AllSpaced(Run(breaking, [], es), r, seconds * SECOND)
  {
    var i0: nat, j0: nat, c0: CallId, d0: CallId, id0: nat :| OverlapAt(clock, es, i0, j0, c0, d0, id0, r);
    var i1, j, c, d1, id := FirstEnding(clock, es, i0, j0, c0, d0, id0, r);
    var i, d := FirstBeginning(clock, es, i1, j, c, d1, id, r);
    FirstOverlapBreaks(clock, es, i, j, c, d, id, r, seconds);
    breaking := Freeze(clock, Before(clock, [], es, i).ticks);
  }

  // ---- The schedules that keep the cooldown -----------------------------------------------

  /** Whatever the clock shows, as long as it never goes back, announcements are the cooldown apart. */
  ghost predicate KeepsCooldown(es: seq<Event>, r: RuleId, seconds: nat) {
    forall clock: Clock :: Forward(clock) ==> AllSpaced(Run(clock, [], es), r, seconds * SECOND)
  }

  /** Announcements follow the clock. */
  ghost predicate InOrder(clock: Clock, s: State) {
    && (forall i :: 0 <= i < |s.emissions| ==> s.emissions[i].time <= clock(s.ticks))
    && (forall i, j :: 0 <= i < j < |s.emissions| ==> s.emissions[i].time <= s.emissions[j].time)
  }

  lemma {:induction false} RunInOrder(clock: Clock, es: seq<Event>)
    requires Forward(clock)
    ensures InOrder(clock, Run(clock, [], es))
    decreases |es|
  {
    if es != [] {
      RunInOrder(clock, es[..|es| - 1]);
      TimeEffect(clock, Run(clock, [], es[..|es| - 1]), es[|es| - 1]);
    }
  }

  lemma {:induction false} OrderedAreSpaced(made: seq<Emission>, id: nat)
    requires forall i, j :: 0 <= i < j < |made| ==> made[i].time <= made[j].time
    ensures Spaced(Announcements(made, id), 0)
    ensures forall i :: 0 <= i < |Announcements(made, id)| ==> Announcements(made, id)[i] <= made[|made| - 1].time
  {
    if made == [] {
      NeverMade(made, id);
    } else {
      var n := |made| - 1;
      OrderedAreSpaced(made[..n], id);
      assert made == made[..n] + [made[n]];
      AnnounceOneMore(made[..n], made[n], id);
    }
  }

  /** The schedules that keep a rule's cooldown are those without an overlap under the generous clock. */
  lemma KeepsCooldownIffNoOverlap(es: seq<Event>, r: RuleId, seconds: nat)
    requires OneCooldown(es, r, seconds)
    ensures KeepsCooldown(es, r, seconds) <==> seconds == 0 || !Overlaps(Generous(seconds), es, r)
  {
    if seconds == 0 {
      forall clock: Clock | Forward(clock) ensures AllSpaced(Run(clock, [], es), r, 0) {
        RunInOrder(clock, es);
        forall id: nat | IsRow(Run(clock, [], es), id, r)
          ensures Spaced(Announcements(Run(clock, [], es).emissions, id), 0)
        {
          OrderedAreSpaced(Run(clock, [], es).emissions, id);
        }
      }
    } else if Overlaps(Generous(seconds), es, r) {
      GenerousIsForward(seconds);
      var breaking := OverlapBreaks(Generous(seconds), es, r, seconds);
    } else {
      forall clock: Clock | Forward(clock) ensures AllSpaced(Run(clock, [], es), r, seconds * SECOND) {
        if Overlaps(clock, es, r) {
          OverlapsUnderGenerous(clock, es, r, seconds);
        }
        SpacedWithoutOverlap(clock, es, r, seconds);
      }
    }
  }

  /** Call 0 inserts the row; call 1 finds it and announces it; then call 0 announces it. */
  function CreatorIsLate(req: Request): seq<Event> {
    [Begin(0, req)] + [Advance(0)] + [Advance(0)] + [Begin(1, req)] + [Advance(1)] + [Advance(1)] + [Advance(1)]
    + [Advance(1)] + [Advance(0)]
  }

  lemma CreatorInserts(clock: Clock, req: Request)
    ensures Run(clock, [], [Begin(0, req)] + [Advance(0)] + [Advance(0)] + [Begin(1, req)] + [Advance(1)])
            == State([NewAlert(req)], 0,
                     map[0 := Call(req, Emitting(0, true)), 1 := Call(req, Refreshing(0, NewAlert(req)))], [])
  {
    var es: seq<Event> := [];
    Then(clock, [], es, Begin(0, req));
    es := es + [Begin(0, req)];
    Then(clock, [], es, Advance(0));
    es := es + [Advance(0)];
    Then(clock, [], es, Advance(0));
    es := es + [Advance(0)];
    assert Run(clock, [], es) == State([NewAlert(req)], 0, map[0 := Call(req, Emitting(0, true))], []);
    Then(clock, [], es, Begin(1, req));
    es := es + [Begin(1, req)];
    Then(clock, [], es, Advance(1));
  }

  /** The other call has found the row, refreshed it, and compared nothing. */
  lemma OtherIsReady(clock: Clock, req: Request)
    ensures var s := Run(clock, [], [Begin(0, req)] + [Advance(0)] + [Advance(0)] + [Begin(1, req)] + [Advance(1)]
                                    + [Advance(1)] + [Advance(1)]);
            && |s.rows| == 1 && s.rows[0].key == req.key && s.ticks == 0 && s.emissions == []
            && s.calls == map[0 := Call(req, Emitting(0, true)), 1 := Call(req, Emitting(0, false))]
  {
    var es := [Begin(0, req)] + [Advance(0)] + [Advance(0)] + [Begin(1, req)] + [Advance(1)];
    CreatorInserts(clock, req);
    Then(clock, [], es, Advance(1));
    Then(clock, [], es + [Advance(1)], Advance(1));
  }

  lemma OtherAnnounces(clock: Clock, req: Request)
    ensures var s := Run(clock, [], [Begin(0, req)] + [Advance(0)] + [Advance(0)] + [Begin(1, req)] + [Advance(1)]
                                    + [Advance(1)] + [Advance(1)] + [Advance(1)]);
            && |s.rows| == 1 && s.rows[0].key == req.key && s.ticks == 1
            && s.emissions == [Emission(1, 0, false, clock(0))]
            && 0 in s.calls && s.calls[0] == Call(req, Emitting(0, true))
  {
    OtherIsReady(clock, req);
    Then(clock, [], [Begin(0, req)] + [Advance(0)] + [Advance(0)] + [Begin(1, req)] + [Advance(1)] + [Advance(1)]
                    + [Advance(1)], Advance(1));
  }

  /** The creator never compares and the other reads a row not yet announced: two announcements under any clock. */
  lemma CreatorDoesNotWait(clock: Clock, req: Request)
    ensures var s := Run(clock, [], CreatorIsLate(req));
            && |s.rows| == 1 && s.rows[0].key == req.key
            && s.emissions == [Emission(1, 0, false, clock(0)), Emission(0, 0, true, clock(1))]
  {
    OtherAnnounces(clock, req);
    Then(clock, [], [Begin(0, req)] + [Advance(0)] + [Advance(0)] + [Begin(1, req)] + [Advance(1)] + [Advance(1)]
                    + [Advance(1)] + [Advance(1)], Advance(0));
  }

  /** So this schedule breaks every cooldown there is. */
  lemma CreatorBreaksCooldown(req: Request, r: RuleId, seconds: nat)
    requires req.key.rule == Some(r) && seconds > 0
    ensures !KeepsCooldown(CreatorIsLate(req), r, seconds)
  {
    var still: Clock := _ => 0;
    CreatorDoesNotWait(still, req);
    var s := Run(still, [], CreatorIsLate(req));
    AnnounceOneMore([], Emission(1, 0, false, 0), 0);
    AnnounceOneMore([] + [Emission(1, 0, false, 0)], Emission(0, 0, true, 0), 0);
    assert s.emissions == [] + [Emission(1, 0, false, 0)] + [Emission(0, 0, true, 0)];
    var ts := Announcements(s.emissions, 0);
    assert ts == [0, 0] && ts[1] - ts[0] < seconds * SECOND;
    assert IsRow(s, 0, r);
  }
}
