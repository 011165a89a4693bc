/**
 At-least-once delivery. The bridge subscribes at QoS 1 with a durable session, so a message may
 reach its handler several times, and what a handler raises is logged and swallowed, so a handling
 may stop after any of its writes. This module says which handlers do not notice: those for which
 an early copy of a message changes nothing once the message is handled again, at least as far,
 later. Whether a handler is one of them is decided by looking at two messages only.
 */
module Redelivery {

  /** How far a handling got: to its end, or through its first few writes, where it raised. */
  datatype Extent = Whole | Cut(writes: nat)

  predicate Within(a: Extent, b: Extent) {
    b.Whole? || (a.Cut? && a.writes <= b.writes)
  }

  datatype Handling<+M> = Handling(msg: M, extent: Extent)

  /** A later handling g of the message of f that got at least as far. */
  predicate Supersedes<M(==)>(g: Handling<M>, f: Handling<M>) {
    g.msg == f.msg && Within(f.extent, g.extent)
  }

  /** One handling after the other. */
  function Fold<S, M>(step: (S, Handling<M>) -> S, s: S, hs: seq<Handling<M>>): S {
    if hs == [] then s else Fold(step, step(s, hs[0]), hs[1..])
  }

  lemma {:induction false} FoldAppend<S, M>(step: (S, Handling<M>) -> S, s: S, a: seq<Handling<M>>, b: seq<Handling<M>>)
    ensures Fold(step, s, a + b) == Fold(step, Fold(step, s, a), b)
  {
    if a == [] {
      assert a + b == b;
    } else {
      assert (a + b)[1..] == a[1..] + b;
      FoldAppend(step, step(s, a[0]), a[1..], b);
    }
  }

  lemma FoldStep<S, M>(step: (S, Handling<M>) -> S, s: S, h: Handling<M>, hs: seq<Handling<M>>)
    ensures Fold(step, s, [h] + hs) == Fold(step, step(s, h), hs)
  {
    assert ([h] + hs)[1..] == hs;
  }

  /** The two-message law: an earlier f is invisible after a g that supersedes it, whatever x came in between. */
  ghost predicate Overwriting<S(!new), M(!new)>(step: (S, Handling<M>) -> S) {
    && (forall s, f, g :: Supersedes(g, f) ==> step(step(s, f), g) == step(s, g))
    && (forall s, f, x, g :: Supersedes(g, f) ==> step(step(step(s, f), x), g) == step(step(s, x), g))
  }

  /** The two-message law is enough for any number of messages in between. */
  lemma {:induction false} EarlyCopyIsInvisible<S(!new), M(!new)>(
    step: (S, Handling<M>) -> S, s: S, f: Handling<M>, g: Handling<M>, xs: seq<Handling<M>>)
    requires Overwriting(step) && Supersedes(g, f)
    ensures step(Fold(step, step(s, f), xs), g) == step(Fold(step, s, xs), g)
    decreases |xs|
  {
    if xs != [] {
      var x, rest := xs[0], xs[1..];
      calc {
        step(Fold(step, step(s, f), xs), g);
        step(Fold(step, step(step(s, f), x), rest), g);
        { EarlyCopyIsInvisible(step, step(step(s, f), x), g, g, rest); }
        step(Fold(step, step(step(step(s, f), x), g), rest), g);
        step(Fold(step, step(step(s, x), g), rest), g);
        { EarlyCopyIsInvisible(step, step(s, x), g, g, rest); }
        step(Fold(step, step(s, x), rest), g);
      }
    }
  }

  /** A handling may be dropped if one that supersedes it comes later. */
  lemma CopyBeforeAnother<S(!new), M(!new)>(
    step: (S, Handling<M>) -> S, s: S, f: Handling<M>, hs: seq<Handling<M>>, i: nat)
    requires Overwriting(step) && i < |hs| && Supersedes(hs[i], f)
    ensures Fold(step, step(s, f), hs) == Fold(step, s, hs)
  {
    var before, g, after := hs[..i], hs[i], hs[i + 1..];
    assert hs == before + ([g] + after);
    FoldAppend(step, step(s, f), before, [g] + after);
    FoldAppend(step, s, before, [g] + after);
    FoldStep(step, Fold(step, step(s, f), before), g, after);
    FoldStep(step, Fold(step, s, before), g, after);
    EarlyCopyIsInvisible(step, s, f, g, before);
  }

  // ---- Arrivals and their final copies ----------------------------------------------------

  /** One arrival of a packet, and how far its handling got. */
  datatype Delivery = Delivery(packet: nat, extent: Extent)

  function Packets(ds: seq<Delivery>): (packets: seq<nat>)
    ensures |packets| == |ds| && forall i :: 0 <= i < |ds| ==> packets[i] == ds[i].packet
  {
    seq(|ds|, i requires 0 <= i < |ds| => ds[i].packet)
  }

  /** The packets carry numbers below n. */
  predicate Numbered(packets: seq<nat>, n: nat) {
    forall i :: 0 <= i < |packets| ==> packets[i] < n
  }

  /** What the handler does when these deliveries arrive, in this order. */
  function Arrivals<M>(published: seq<M>, ds: seq<Delivery>): (hs: seq<Handling<M>>)
    requires Numbered(Packets(ds), |published|)
    ensures |hs| == |ds|
    ensures forall i :: 0 <= i < |ds| ==> hs[i] == Handling(published[ds[i].packet], ds[i].extent)
  {
    seq(|ds|, i requires 0 <= i < |ds| => Handling(published[Packets(ds)[i]], ds[i].extent))
  }

  /** The arrivals with every copy but the final one struck out. */
  function KeepLast(packets: seq<nat>): (kept: seq<nat>)
    ensures forall i :: 0 <= i < |kept| ==> kept[i] in packets
    ensures forall p <- packets :: p in kept
  {
    if packets == [] then []
    else if packets[0] in packets[1..] then KeepLast(packets[1..])
    else [packets[0]] + KeepLast(packets[1..])
  }

  /** Where packet p arrives for the last time. */
  function LastArrival(packets: seq<nat>, p: nat): (i: nat)
    requires p in packets
    ensures i < |packets| && packets[i] == p
    ensures forall j :: i < j < |packets| ==> packets[j] != p
  {
    if packets[|packets| - 1] == p then |packets| - 1 else LastArrival(packets[..|packets| - 1], p)
  }

  /** Every one of the first n packets arrives, and their final copies arrive in publish order. */
  ghost predicate FinalCopiesInOrder(packets: seq<nat>, n: nat) {
    && (forall p: nat :: p < n ==> p in packets)
    && (forall p: nat, q: nat :: p < q < n ==> LastArrival(packets, p) < LastArrival(packets, q))
  }

  ghost predicate ArrivalOrder(packets: seq<nat>, kept: seq<nat>)
    requires forall i :: 0 <= i < |kept| ==> kept[i] in packets
  {
    forall a, b :: 0 <= a < b < |kept| ==> LastArrival(packets, kept[a]) < LastArrival(packets, kept[b])
  }

  lemma {:induction false} ShiftedArrival(packets: seq<nat>, p: nat)
    requires packets != [] && p in packets[1..]
    ensures p in packets && LastArrival(packets, p) == LastArrival(packets[1..], p) + 1
  {
    var i := LastArrival(packets[1..], p);
    assert packets[i + 1] == p;
    assert forall j :: i + 1 < j < |packets| ==> packets[j] == packets[1..][j - 1];
  }

  lemma {:induction false} KeptInArrivalOrder(packets: seq<nat>)
    ensures ArrivalOrder(packets, KeepLast(packets))
    decreases |packets|
  {
    if packets != [] {
      var rest, kept := packets[1..], KeepLast(packets[1..]);
      KeptInArrivalOrder(rest);
      forall a | 0 <= a < |kept| ensures LastArrival(packets, kept[a]) == LastArrival(rest, kept[a]) + 1 {
        ShiftedArrival(packets, kept[a]);
      }
      if packets[0] !in rest {
        assert LastArrival(packets, packets[0]) == 0;
        assert KeepLast(packets) == [packets[0]] + kept;
      }
    }
  }

  /** The numbers of n packets in publish order. */
  function Counting(n: nat): seq<nat> {
    seq(n, i requires 0 <= i < n => i)
  }

  /** A strictly increasing sequence of exactly the numbers below n counts from 0 to n - 1. */
  lemma {:induction false} IncreasingIsCounting(kept: seq<nat>, n: nat)
    requires forall a, b :: 0 <= a < b < |kept| ==> kept[a] < kept[b]
    requires forall a :: 0 <= a < |kept| ==> kept[a] < n
    requires forall p: nat :: p < n ==> p in kept
    ensures kept == Counting(n)
    decreases n
  {
    if n == 0 {
      assert kept == [];
    } else {
      assert n - 1 in kept;
      var last := |kept| - 1;
      assert kept[last] == n - 1;
      forall p: nat | p < n - 1 ensures p in kept[..last] {
        assert p in kept;
        var at :| 0 <= at < |kept| && kept[at] == p;
        assert kept[..last][at] == p;
      }
      IncreasingIsCounting(kept[..last], n - 1);
      assert kept == kept[..last] + [n - 1];
    }
  }

  /** In-order final copies leave exactly the published sequence. */
  lemma {:induction false} InOrderKeepsAll(packets: seq<nat>, n: nat)
    requires FinalCopiesInOrder(packets, n)
    requires Numbered(packets, n)
    ensures KeepLast(packets) == Counting(n)
  {
    var kept := KeepLast(packets);
    KeptInArrivalOrder(packets);
    forall a | 0 <= a < |kept| ensures kept[a] < n {
      assert kept[a] in packets;
    }
    forall a, b | 0 <= a < b < |kept| ensures kept[a] < kept[b] {
      InOrder(packets, n, kept[a], kept[b]);
    }
    IncreasingIsCounting(kept, n);
  }

  lemma InOrder(packets: seq<nat>, n: nat, p: nat, q: nat)
    requires FinalCopiesInOrder(packets, n)
    requires p < n && q < n && LastArrival(packets, p) < LastArrival(packets, q)
    ensures p < q
  {
  }

  /** The final copy of each of these packets. */
  function Finals<M>(published: seq<M>, ds: seq<Delivery>, kept: seq<nat>): (hs: seq<Handling<M>>)
    requires Numbered(kept, |published|) && forall p <- kept :: p in Packets(ds)
    ensures |hs| == |kept|
    ensures forall i :: 0 <= i < |kept| ==>
              hs[i] == Handling(published[kept[i]], ds[LastArrival(Packets(ds), kept[i])].extent)
  {
    seq(|kept|, i requires 0 <= i < |kept| =>
      Handling(published[kept[i]], ds[LastArrival(Packets(ds), kept[i])].extent))
  }

  /** The packet of delivery i does not come again. */
  ghost predicate FinalAt(ds: seq<Delivery>, i: nat) {
    i < |ds| && forall k :: i < k < |ds| ==> ds[k].packet != ds[i].packet
  }

  /** No copy is handled further than the final copy of its packet. */
  ghost predicate FinalCopiesCover(ds: seq<Delivery>) {
    forall i: nat, j: nat :: i < j && FinalAt(ds, j) && ds[i].packet == ds[j].packet ==>
      Within(ds[i].extent, ds[j].extent)
  }

  lemma PacketsRest(ds: seq<Delivery>)
    requires ds != []
    ensures Packets(ds) == [ds[0].packet] + Packets(ds[1..]) && Packets(ds)[1..] == Packets(ds[1..])
  {
  }

  lemma FinalAtRest(ds: seq<Delivery>, i: nat)
    requires ds != []
    ensures FinalAt(ds[1..], i) <==> FinalAt(ds, i + 1)
  {
    if FinalAt(ds[1..], i) {
      assert forall k :: i + 1 < k < |ds| ==> ds[k] == ds[1..][k - 1];
    }
  }

  lemma CoverRest(ds: seq<Delivery>)
    requires ds != [] && FinalCopiesCover(ds)
    ensures FinalCopiesCover(ds[1..])
  {
    forall i: nat, j: nat | i < j && FinalAt(ds[1..], j) && ds[1..][i].packet == ds[1..][j].packet
      ensures Within(ds[1..][i].extent, ds[1..][j].extent)
    {
      FinalAtRest(ds, j);
      assert ds[i + 1] == ds[1..][i] && ds[j + 1] == ds[1..][j];
    }
  }

  lemma NumberedRest(packets: seq<nat>, n: nat)
    requires Numbered(packets, n)
    ensures Numbered(KeepLast(packets), n) && (packets != [] ==> Numbered(packets[1..], n))
  {
    forall i | 0 <= i < |KeepLast(packets)| ensures KeepLast(packets)[i] < n {
      assert KeepLast(packets)[i] in packets;
    }
  }

  /** The final copies after the first delivery are final copies. */
  lemma FinalsRest<M>(published: seq<M>, ds: seq<Delivery>, kept: seq<nat>)
    requires ds != [] && Numbered(kept, |published|) && forall p <- kept :: p in Packets(ds[1..])
    ensures forall p <- kept :: p in Packets(ds)
    ensures Finals(published, ds, kept) == Finals(published, ds[1..], kept)
  {
    assert Packets(ds)[1..] == Packets(ds[1..]);
    forall i | 0 <= i < |kept|
      ensures kept[i] in Packets(ds) && LastArrival(Packets(ds), kept[i]) == LastArrival(Packets(ds[1..]), kept[i]) + 1
    {
      ShiftedArrival(Packets(ds), kept[i]);
    }
  }

  lemma FinalsStep<M>(published: seq<M>, ds: seq<Delivery>)
    requires ds != [] && Numbered(Packets(ds), |published|) && Packets(ds)[0] !in Packets(ds)[1..]
    ensures Numbered(KeepLast(Packets(ds)), |published|) && Numbered(KeepLast(Packets(ds[1..])), |published|)
    ensures Finals(published, ds, KeepLast(Packets(ds)))
            == [Handling(published[ds[0].packet], ds[0].extent)]
               + Finals(published, ds[1..], KeepLast(Packets(ds[1..])))
  {
    var rest := ds[1..];
    assert Packets(ds)[1..] == Packets(rest);
    NumberedRest(Packets(ds), |published|);
    NumberedRest(Packets(rest), |published|);
    FinalsRest(published, ds, KeepLast(Packets(rest)));
    assert LastArrival(Packets(ds), Packets(ds)[0]) == 0;
    assert KeepLast(Packets(ds)) == [Packets(ds)[0]] + KeepLast(Packets(rest));
  }

  lemma LastIsFinal(ds: seq<Delivery>, p: nat) returns (i: nat)
    requires p in Packets(ds)
    ensures FinalAt(ds, i) && ds[i].packet == p
  {
    i := LastArrival(Packets(ds), p);
    assert forall k :: 0 <= k < |ds| ==> Packets(ds)[k] == ds[k].packet;
  }

  /** Where the packet of the first delivery comes for the last time. */
  lemma FinalOfFirst(ds: seq<Delivery>) returns (i: nat)
    requires ds != [] && FinalCopiesCover(ds) && ds[0].packet in Packets(ds[1..])
    ensures i < |ds[1..]| && ds[1..][i].packet == ds[0].packet && Within(ds[0].extent, ds[1..][i].extent)
  {
    i := LastIsFinal(ds[1..], ds[0].packet);
    FinalAtRest(ds, i);
    assert ds[i + 1] == ds[1..][i];
  }

  lemma FirstArrival<M>(published: seq<M>, ds: seq<Delivery>)
    requires ds != [] && Numbered(Packets(ds), |published|)
    ensures Numbered(Packets(ds[1..]), |published|)
    ensures Arrivals(published, ds)
            == [Handling(published[ds[0].packet], ds[0].extent)] + Arrivals(published, ds[1..])
  {
    assert Packets(ds)[1..] == Packets(ds[1..]);
  }

  /** A first delivery that comes again may be left out. */
  lemma DropFirst<S(!new), M(!new)>(step: (S, Handling<M>) -> S, s: S, published: seq<M>, ds: seq<Delivery>)
    requires Overwriting(step) && ds != []
    requires Numbered(Packets(ds), |published|) && Numbered(Packets(ds[1..]), |published|)
    requires FinalCopiesCover(ds) && ds[0].packet in Packets(ds[1..])
    ensures Fold(step, s, Arrivals(published, ds)) == Fold(step, s, Arrivals(published, ds[1..]))
  {
    var f, rest := Handling(published[ds[0].packet], ds[0].extent), Arrivals(published, ds[1..]);
    var i := FinalOfFirst(ds);
    FirstArrival(published, ds);
    FoldStep(step, s, f, rest);
    CopyBeforeAnother(step, s, f, rest, i);
  }

  lemma {:induction false} OnlyFinalCopiesMatter<S(!new), M(!new)>(
    step: (S, Handling<M>) -> S, s: S, published: seq<M>, ds: seq<Delivery>)
    requires Overwriting(step)
    requires Numbered(Packets(ds), |published|) && FinalCopiesCover(ds)
    ensures Numbered(KeepLast(Packets(ds)), |published|)
    ensures Fold(step, s, Arrivals(published, ds)) == Fold(step, s, Finals(published, ds, KeepLast(Packets(ds))))
    decreases |ds|
  {
    NumberedRest(Packets(ds), |published|);
    if ds == [] {
      assert Arrivals(published, ds) == Finals(published, ds, KeepLast(Packets(ds)));
    } else {
      var rest := ds[1..];
      PacketsRest(ds);
      CoverRest(ds);
      if ds[0].packet in Packets(rest) {
        DropFirst(step, s, published, ds);
        OnlyFinalCopiesMatter(step, s, published, rest);
        FinalsRest(published, ds, KeepLast(Packets(rest)));
      } else {
        KeepFirst(step, s, published, ds);
        OnlyFinalCopiesMatter(step, step(s, Handling(published[ds[0].packet], ds[0].extent)), published, rest);
      }
    }
  }

  /** A first delivery that does not come again is a final copy. */
  lemma KeepFirst<S, M>(step: (S, Handling<M>) -> S, s: S, published: seq<M>, ds: seq<Delivery>)
    requires ds != [] && Numbered(Packets(ds), |published|) && Packets(ds)[0] !in Packets(ds)[1..]
    ensures Numbered(Packets(ds[1..]), |published|)
    ensures Numbered(KeepLast(Packets(ds)), |published|) && Numbered(KeepLast(Packets(ds[1..])), |published|)
    ensures var f := Handling(published[ds[0].packet], ds[0].extent);
            && Fold(step, s, Arrivals(published, ds)) == Fold(step, step(s, f), Arrivals(published, ds[1..]))
            && Fold(step, s, Finals(published, ds, KeepLast(Packets(ds))))
               == Fold(step, step(s, f), Finals(published, ds[1..], KeepLast(Packets(ds[1..]))))
  {
    var f, rest := Handling(published[ds[0].packet], ds[0].extent), ds[1..];
    FirstArrival(published, ds);
    NumberedRest(Packets(ds), |published|);
    FinalsStep(published, ds);
    FoldStep(step, s, f, Arrivals(published, rest));
    FoldStep(step, s, f, Finals(published, rest, KeepLast(Packets(rest))));
  }

  /** Each message handled once, in publish order, as far as its final copy was. */
  function Once<M>(published: seq<M>, ds: seq<Delivery>): (hs: seq<Handling<M>>)
    requires forall p: nat :: p < |published| ==> p in Packets(ds)
    ensures |hs| == |published|
    ensures forall p :: 0 <= p < |published| ==>
              hs[p] == Handling(published[p], ds[LastArrival(Packets(ds), p)].extent)
  {
    Finals(published, ds, Counting(|published|))
  }

  /** In-order final copies, whatever else arrives in between, leave the state of exactly-once delivery. */
  lemma FinalCopiesSuffice<S(!new), M(!new)>(
    step: (S, Handling<M>) -> S, s: S, published: seq<M>, ds: seq<Delivery>)
    requires Overwriting(step)
    requires Numbered(Packets(ds), |published|) && FinalCopiesInOrder(Packets(ds), |published|) && FinalCopiesCover(ds)
    ensures Fold(step, s, Arrivals(published, ds)) == Fold(step, s, Once(published, ds))
  {
    InOrderKeepsAll(Packets(ds), |published|);
    OnlyFinalCopiesMatter(step, s, published, ds);
  }

  /**
   The broker's side of a QoS 1 subscription (section 4.6 of MQTT Version 3.1.1): packets go out
   in publish order, several may be unacknowledged at once, and after a reconnection everything
   not yet acknowledged goes out again, in order. A packet lost on a broken connection counts as
   not transmitted. Each transmission says how far the handler gets with it.
   */
  datatype Session = Session(acked: nat, next: nat, arrived: seq<Delivery>)
  datatype Wire = Transmit(extent: Extent) | Acknowledge | Reconnect

  const FRESH := Session(0, 0, [])

  function Link(n: nat, s: Session, w: Wire): Session {
    match w
    case Transmit(e) =>
      if s.next < n then s.(next := s.next + 1, arrived := s.arrived + [Delivery(s.next, e)]) else s
    case Acknowledge => if s.acked < s.next then s.(acked := s.acked + 1) else s
    case Reconnect => s.(next := s.acked)
  }

  function Connect(n: nat, ws: seq<Wire>): Session {
    if ws == [] then FRESH else Link(n, Connect(n, ws[..|ws| - 1]), ws[|ws| - 1])
  }

  /** One more packet that is next in publish order keeps the final copies in order. */
  lemma OrderGrows(packets: seq<nat>, next: nat)
    requires FinalCopiesInOrder(packets, next)
    ensures FinalCopiesInOrder(packets + [next], next + 1)
  {
    var more := packets + [next];
    assert more[|packets|] == next && more[..|more| - 1] == packets;
    forall p: nat | p <= next ensures p in more {
      if p < next { assert p in packets; }
    }
    forall p: nat, q: nat | p < q < next + 1 ensures LastArrival(more, p) < LastArrival(more, q) {
      assert p in packets && LastArrival(more, p) == LastArrival(packets, p);
      if q < next {
        assert LastArrival(more, q) == LastArrival(packets, q);
      }
    }
  }

  lemma OrderShrinks(packets: seq<nat>, n: nat, m: nat)
    requires FinalCopiesInOrder(packets, n) && m <= n
    ensures FinalCopiesInOrder(packets, m)
  {
  }

  /** In every run of the session the final copies of what went out are in publish order. */
  lemma {:induction false} SessionKeepsOrder(n: nat, ws: seq<Wire>)
    ensures var s := Connect(n, ws);
            && s.acked <= s.next <= n && FinalCopiesInOrder(Packets(s.arrived), s.next)
            && Numbered(Packets(s.arrived), n)
  {
    if ws != [] {
      SessionKeepsOrder(n, ws[..|ws| - 1]);
      var s, w := Connect(n, ws[..|ws| - 1]), ws[|ws| - 1];
      if w.Transmit? && s.next < n {
        OrderGrows(Packets(s.arrived), s.next);
        assert Packets(Connect(n, ws).arrived) == Packets(s.arrived) + [s.next];
      } else if w.Reconnect? {
        OrderShrinks(Packets(s.arrived), s.next, s.acked);
      }
    }
  }

  /** Every packet was acknowledged, and no copy was handled further than the final one. */
  ghost predicate Delivered(n: nat, ws: seq<Wire>) {
    Connect(n, ws).acked == n && FinalCopiesCover(Connect(n, ws).arrived)
  }

  /**
   Main result: a handler with the two-message law ends, after any run of the session in which
   every packet was acknowledged and no copy got further than the final one, exactly where
   handling each message once, as far as its final copy got, would have left it.
   */
  lemma AtLeastOnceIsExactlyOnce<S(!new), M(!new)>(
    step: (S, Handling<M>) -> S, s: S, published: seq<M>, ws: seq<Wire>)
    requires Overwriting(step) && Delivered(|published|, ws)
    ensures var arrived := Connect(|published|, ws).arrived;
            && Numbered(Packets(arrived), |published|)
            && (forall p: nat :: p < |published| ==> p in Packets(arrived))
            && Fold(step, s, Arrivals(published, arrived)) == Fold(step, s, Once(published, arrived))
  {
    SessionKeepsOrder(|published|, ws);
    FinalCopiesSuffice(step, s, published, Connect(|published|, ws).arrived);
  }

  // ---- Messages no copy of which is handled -----------------------------------------------

  /** A handling that raises before its first write writes nothing. */
  ghost predicate StartsBlank<S(!new), M(!new)>(step: (S, Handling<M>) -> S) {
    forall s, m :: step(s, Handling(m, Cut(0))) == s
  }

  /** The handlings that wrote something. */
  function Struck<M>(hs: seq<Handling<M>>): seq<Handling<M>> {
    if hs == [] then []
    else if hs[0].extent == Cut(0) then Struck(hs[1..])
    else [hs[0]] + Struck(hs[1..])
  }

  lemma {:induction false} StruckOut<S(!new), M(!new)>(step: (S, Handling<M>) -> S, s: S, hs: seq<Handling<M>>)
    requires StartsBlank(step)
    ensures Fold(step, s, hs) == Fold(step, s, Struck(hs))
    decreases |hs|
  {
    if hs != [] {
      StruckOut(step, step(s, hs[0]), hs[1..]);
      if hs[0].extent == Cut(0) {
        assert step(s, Handling(hs[0].msg, Cut(0))) == s;
      } else {
        FoldStep(step, s, hs[0], Struck(hs[1..]));
      }
    }
  }

  /** So a message that raises at every copy before writing is as if it had not been published. */
  lemma LostMessagesAreStruckOut<S(!new), M(!new)>(
    step: (S, Handling<M>) -> S, s: S, published: seq<M>, ws: seq<Wire>)
    requires Overwriting(step) && StartsBlank(step) && Delivered(|published|, ws)
    ensures var arrived := Connect(|published|, ws).arrived;
            && Numbered(Packets(arrived), |published|)
            && (forall p: nat :: p < |published| ==> p in Packets(arrived))
            && Fold(step, s, Arrivals(published, arrived)) == Fold(step, s, Struck(Once(published, arrived)))
  {
    AtLeastOnceIsExactlyOnce(step, s, published, ws);
    StruckOut(step, s, Once(published, Connect(|published|, ws).arrived));
  }

  // ---- Handlers seen through a view -------------------------------------------------------

  /** What the view hides of the state has no part in what it shows of the next one. */
  ghost predicate Closed<S(!new), M(!new)>(step: (S, Handling<M>) -> S, view: S -> S) {
    forall s, h :: view(step(view(s), h)) == view(step(s, h))
  }

  /** The handler as the view shows it. */
  function Viewed<S, M>(step: (S, Handling<M>) -> S, view: S -> S): (S, Handling<M>) -> S {
    (s, h) => view(step(s, h))
  }

  /** A handler with the law has it through every such view. */
  lemma ViewOverwrites<S(!new), M(!new)>(step: (S, Handling<M>) -> S, view: S -> S)
    requires Overwriting(step) && Closed(step, view)
    ensures Overwriting(Viewed(step, view))
  {
    var v := Viewed(step, view);
    forall s, f, g | Supersedes(g, f) ensures v(v(s, f), g) == v(s, g) {
      assert view(step(view(step(s, f)), g)) == view(step(step(s, f), g));
    }
    forall s, f, x, g | Supersedes(g, f) ensures v(v(v(s, f), x), g) == v(v(s, x), g) {
      assert view(step(view(step(s, x)), g)) == view(step(step(s, x), g));
      assert view(step(view(step(s, f)), x)) == view(step(step(s, f), x));
      assert view(step(view(step(step(s, f), x)), g)) == view(step(step(step(s, f), x), g));
    }
  }

  // ---- No weaker condition ----------------------------------------------------------------

  function Minus(s: seq<nat>, gone: set<nat>): seq<nat> {
    if s == [] then []
    else if s[|s| - 1] in gone then Minus(s[..|s| - 1], gone)
    else Minus(s[..|s| - 1], gone) + [s[|s| - 1]]
  }

  /** A handler that remembers in which order it last saw each message through. */
  function MoveToEnd(s: seq<nat>, h: Handling<nat>): seq<nat> {
    if h.extent.Whole? then Minus(s, {h.msg}) + [h.msg] else s
  }

  function Elements(ms: seq<nat>): set<nat> {
    set x | x in ms
  }

  lemma {:induction false} MinusAppend(s: seq<nat>, x: nat, gone: set<nat>)
    ensures Minus(s + [x], gone) == if x in gone then Minus(s, gone) else Minus(s, gone) + [x]
  {
    assert (s + [x])[..|s|] == s;
  }

  lemma {:induction false} MinusMinus(s: seq<nat>, a: set<nat>, b: set<nat>)
    ensures Minus(Minus(s, a), b) == Minus(s, a + b)
  {
    if s != [] {
      var front, last := s[..|s| - 1], s[|s| - 1];
      MinusMinus(front, a, b);
      if last !in a {
        MinusAppend(Minus(front, a), last, b);
      }
    }
  }

  lemma {:induction false} MinusNothing(s: seq<nat>)
    ensures Minus(s, {}) == s
  {
    if s != [] {
      MinusNothing(s[..|s| - 1]);
      assert s == s[..|s| - 1] + [s[|s| - 1]];
    }
  }

  lemma MovedAway(s: seq<nat>, x: nat, gone: set<nat>)
    ensures Minus(Minus(s, {x}) + [x], gone)
            == if x in gone then Minus(s, {x} + gone) else Minus(s, {x} + gone) + [x]
  {
    MinusAppend(Minus(s, {x}), x, gone);
    MinusMinus(s, {x}, gone);
  }

  lemma ElementsStep(m: nat, rest: seq<nat>)
    ensures Elements([m] + rest) == {m} + Elements(rest)
    ensures KeepLast([m] + rest) == if m in Elements(rest) then KeepLast(rest) else [m] + KeepLast(rest)
  {
    assert ([m] + rest)[1..] == rest;
  }

  lemma RegroupThree(a: seq<nat>, b: seq<nat>, c: seq<nat>)
    ensures a + b + c == a + (b + c)
  {
  }

  /** The messages seen through, in order. */
  function SeenThrough(hs: seq<Handling<nat>>): seq<nat> {
    if hs == [] then []
    else if hs[0].extent.Whole? then [hs[0].msg] + SeenThrough(hs[1..])
    else SeenThrough(hs[1..])
  }

  /** It keeps exactly the final copies seen through, in their order. */
  lemma {:induction false} RemembersFinalCopies(s: seq<nat>, hs: seq<Handling<nat>>)
    ensures Fold(MoveToEnd, s, hs) == Minus(s, Elements(SeenThrough(hs))) + KeepLast(SeenThrough(hs))
    decreases |hs|
  {
    if hs == [] {
      MinusNothing(s);
      assert Elements([]) == {} && s + [] == s;
    } else {
      var m, rest := hs[0].msg, SeenThrough(hs[1..]);
      RemembersFinalCopies(MoveToEnd(s, hs[0]), hs[1..]);
      if hs[0].extent.Whole? {
        MovedAway(s, m, Elements(rest));
        ElementsStep(m, rest);
        RegroupThree(Minus(s, {m} + Elements(rest)), [m], KeepLast(rest));
      }
    }
  }

  lemma RemembersFromNothing(hs: seq<Handling<nat>>)
    ensures Fold(MoveToEnd, [], hs) == KeepLast(SeenThrough(hs))
  {
    RemembersFinalCopies([], hs);
  }

  /** Seeing m at once again, or again after x, leaves what seeing it the second time leaves. */
  lemma MoveTwice(s: seq<nat>, f: Handling<nat>, g: Handling<nat>)
    requires Supersedes(g, f)
    ensures MoveToEnd(MoveToEnd(s, f), g) == MoveToEnd(s, g)
  {
    var m := f.msg;
    MovedAway(s, m, {m});
    assert {m} + {m} == {m};
  }

  lemma MoveAround(s: seq<nat>, m: nat, x: nat)
    ensures Minus(Minus(Minus(s, {m}) + [m], {x}) + [x], {m}) == Minus(Minus(s, {x}) + [x], {m})
  {
    MovedAway(s, x, {m});
    MovedAway(Minus(s, {m}) + [m], x, {m});
    MovedAway(s, m, {x} + {m});
    assert {m} + ({x} + {m}) == {x} + {m};
  }

  lemma MoveToEndOverwrites()
    ensures Overwriting(MoveToEnd)
  {
    forall s: seq<nat>, f: Handling<nat>, g: Handling<nat> | Supersedes(g, f)
      ensures MoveToEnd(MoveToEnd(s, f), g) == MoveToEnd(s, g)
    {
      MoveTwice(s, f, g);
    }
    forall s: seq<nat>, f: Handling<nat>, x: Handling<nat>, g: Handling<nat> | Supersedes(g, f)
      ensures MoveToEnd(MoveToEnd(MoveToEnd(s, f), x), g) == MoveToEnd(MoveToEnd(s, x), g)
    {
      MoveAround(s, f.msg, x.msg);
      MoveTwice(s, f, g);
    }
  }

  lemma {:induction false} DistinctAreKept(packets: seq<nat>)
    requires forall i, j :: 0 <= i < j < |packets| ==> packets[i] != packets[j]
    ensures KeepLast(packets) == packets
  {
    if packets != [] {
      DistinctAreKept(packets[1..]);
    }
  }

  /** Every message handled to its end, once, in publish order. */
  function AllThrough<M>(published: seq<M>): (hs: seq<Handling<M>>)
    ensures |hs| == |published| && forall i :: 0 <= i < |hs| ==> hs[i] == Handling(published[i], Whole)
  {
    seq(|published|, i requires 0 <= i < |published| => Handling(published[i], Whole))
  }

  lemma {:induction false} AllAreSeenThrough(ms: seq<nat>)
    ensures SeenThrough(AllThrough(ms)) == ms
  {
    if ms != [] {
      assert AllThrough(ms)[1..] == AllThrough(ms[1..]);
      AllAreSeenThrough(ms[1..]);
    }
  }

  /** Where every final copy is handled to its end, handling each message once means handling it to its end. */
  lemma WholeOnce<M>(published: seq<M>, ds: seq<Delivery>)
    requires forall p: nat :: p < |published| ==> p in Packets(ds) && ds[LastArrival(Packets(ds), p)].extent.Whole?
    ensures Once(published, ds) == AllThrough(published)
  {
  }

  /** The deliveries handled to their end. */
  function Completed(ds: seq<Delivery>): seq<Delivery> {
    if ds == [] then []
    else if ds[0].extent.Whole? then [ds[0]] + Completed(ds[1..])
    else Completed(ds[1..])
  }

  lemma {:induction false} CompletedAreWhole(ds: seq<Delivery>, n: nat)
    requires Numbered(Packets(ds), n)
    ensures Numbered(Packets(Completed(ds)), n)
    ensures forall i :: 0 <= i < |Completed(ds)| ==> Completed(ds)[i].extent.Whole?
  {
    if ds != [] {
      PacketsRest(ds);
      CompletedAreWhole(ds[1..], n);
    }
  }

  lemma {:induction false} CompletedArrivals<M>(published: seq<M>, ds: seq<Delivery>)
    requires Numbered(Packets(ds), |published|) && Numbered(Packets(Completed(ds)), |published|)
    requires forall i :: 0 <= i < |ds| ==> ds[i].extent.Whole? || ds[i].extent == Cut(0)
    ensures Struck(Arrivals(published, ds)) == Arrivals(published, Completed(ds))
  {
    if ds != [] {
      PacketsRest(ds);
      CompletedAreWhole(ds[1..], |published|);
      CompletedArrivals(published, ds[1..]);
      FirstArrival(published, ds);
      var done := Completed(ds);
      if ds[0].extent.Whole? {
        FirstArrival(published, done);
        assert done[1..] == Completed(ds[1..]);
      }
    }
  }

  lemma FinalsAreWhole<M>(published: seq<M>, ds: seq<Delivery>)
    requires forall i :: 0 <= i < |ds| ==> ds[i].extent.Whole?
    requires forall p <- Counting(|published|) :: p in Packets(ds)
    ensures Finals(published, ds, Counting(|published|)) == AllThrough(published)
  {
  }

  lemma OnlyCompletedMatter<S(!new), M(!new)>(
    step: (S, Handling<M>) -> S, s: S, published: seq<M>, ds: seq<Delivery>)
    requires StartsBlank(step) && Numbered(Packets(ds), |published|)
    requires forall i :: 0 <= i < |ds| ==> ds[i].extent.Whole? || ds[i].extent == Cut(0)
    ensures Numbered(Packets(Completed(ds)), |published|)
    ensures forall i :: 0 <= i < |Completed(ds)| ==> Completed(ds)[i].extent.Whole?
    ensures Fold(step, s, Arrivals(published, ds)) == Fold(step, s, Arrivals(published, Completed(ds)))
  {
    CompletedAreWhole(ds, |published|);
    CompletedArrivals(published, ds);
    StruckOut(step, s, Arrivals(published, ds));
  }

  lemma WholeCopiesSuffice<S(!new), M(!new)>(
    step: (S, Handling<M>) -> S, s: S, published: seq<M>, ds: seq<Delivery>)
    requires Overwriting(step) && Numbered(Packets(ds), |published|)
    requires forall i :: 0 <= i < |ds| ==> ds[i].extent.Whole?
    requires KeepLast(Packets(ds)) == Counting(|published|)
    ensures Fold(step, s, Arrivals(published, ds)) == Fold(step, s, AllThrough(published))
  {
    OnlyFinalCopiesMatter(step, s, published, ds);
    FinalsAreWhole(published, ds);
  }

  /**
   Where handlings write all or nothing, any handler with the law converges if the final copies
   among those handled are all packets in publish order.
   */
  lemma CompletedCopiesSuffice<S(!new), M(!new)>(
    step: (S, Handling<M>) -> S, s: S, published: seq<M>, ds: seq<Delivery>)
    requires Overwriting(step) && StartsBlank(step) && Numbered(Packets(ds), |published|)
    requires forall i :: 0 <= i < |ds| ==> ds[i].extent.Whole? || ds[i].extent == Cut(0)
    requires KeepLast(Packets(Completed(ds))) == Counting(|published|)
    ensures Fold(step, s, Arrivals(published, ds)) == Fold(step, s, AllThrough(published))
  {
    OnlyCompletedMatter(step, s, published, ds);
    WholeCopiesSuffice(step, s, published, Completed(ds));
  }

  lemma {:induction false} CompletedAreSeenThrough(n: nat, ds: seq<Delivery>)
    requires Numbered(Packets(ds), n)
    ensures SeenThrough(Arrivals(Counting(n), ds)) == Packets(Completed(ds))
  {
    if ds != [] {
      assert Packets(ds)[1..] == Packets(ds[1..]);
      assert Arrivals(Counting(n), ds)[1..] == Arrivals(Counting(n), ds[1..]);
      CompletedAreSeenThrough(n, ds[1..]);
      if ds[0].extent.Whole? {
        assert Packets([ds[0]] + Completed(ds[1..])) == [ds[0].packet] + Packets(Completed(ds[1..]));
      }
    }
  }

  /**
   And that order is no more than is needed: there is a handler with the law that converges on no
   other arrivals.
   */
  lemma OnlyPublishOrderConverges(ds: seq<Delivery>, n: nat)
    requires Numbered(Packets(ds), n)
    ensures Overwriting(MoveToEnd) && StartsBlank(MoveToEnd)
    ensures Fold(MoveToEnd, [], Arrivals(Counting(n), ds)) == Fold(MoveToEnd, [], AllThrough(Counting(n)))
            <==> KeepLast(Packets(Completed(ds))) == Counting(n)
  {
    MoveToEndOverwrites();
    RemembersFromNothing(Arrivals(Counting(n), ds));
    CompletedAreSeenThrough(n, ds);
    RemembersFromNothing(AllThrough(Counting(n)));
    AllAreSeenThrough(Counting(n));
    DistinctAreKept(Counting(n));
  }
}
