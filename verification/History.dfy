/**
 The alert table seen one key at a time and without its time stamps. Raising and auto-resolving
 act on the history of their own key as if it were the whole table, and leave the others alone.
 */
module History {
  import opened Options
  import opened Alerts
  import opened AlertService

  /** The rows of the key, oldest first. */
  function Of(rows: seq<Alert>, k: AlertKey): (h: seq<Alert>)
    ensures forall i :: 0 <= i < |h| ==> h[i].key == k
  {
    if rows == [] then []
    else Of(rows[..|rows| - 1], k) + if rows[|rows| - 1].key == k then [rows[|rows| - 1]] else []
  }

  lemma OfAppend(rows: seq<Alert>, a: Alert, k: AlertKey)
    ensures Of(rows + [a], k) == Of(rows, k) + if a.key == k then [a] else []
  {
    assert (rows + [a])[..|rows|] == rows;
  }

  /** Where row `id` stands in the history of its key. */
  function Place(rows: seq<Alert>, id: nat): nat
    requires id < |rows|
  {
    |Of(rows[..id], rows[id].key)|
  }

  lemma {:induction false} Placed(rows: seq<Alert>, id: nat)
    requires id < |rows|
    ensures var h := Of(rows, rows[id].key);
            Place(rows, id) < |h| && h[Place(rows, id)] == rows[id]
  {
    var front := rows[..|rows| - 1];
    if id < |front| {
      assert front[..id] == rows[..id];
      Placed(front, id);
    }
  }

  lemma {:induction false} PlaceGrows(rows: seq<Alert>, i: nat, j: nat)
    requires i < j < |rows| && rows[i].key == rows[j].key
    ensures Place(rows, i) < Place(rows, j)
  {
    assert rows[..j][..i] == rows[..i];
    Placed(rows[..j], i);
  }

  lemma {:induction false} FromHistory(rows: seq<Alert>, k: AlertKey, p: nat) returns (id: nat)
    requires p < |Of(rows, k)|
    ensures id < |rows| && rows[id] == Of(rows, k)[p] && Place(rows, id) == p
  {
    var front := rows[..|rows| - 1];
    if p < |Of(front, k)| {
      id := FromHistory(front, k, p);
      assert front[..id] == rows[..id];
    } else {
      id := |rows| - 1;
    }
  }

  /** Rewriting a row rewrites it in the history of its key only. */
  lemma {:induction false} Rewrite(rows: seq<Alert>, id: nat, a: Alert, k: AlertKey)
    requires id < |rows| && a.key == rows[id].key
    ensures Place(rows, id) < |Of(rows, a.key)|
    ensures Of(rows[id := a], k) == if a.key == k then Of(rows, k)[Place(rows, id) := a] else Of(rows, k)
  {
    Placed(rows, id);
    var n := |rows| - 1;
    var front := rows[..n];
    if id < n {
      assert rows[id := a][..n] == front[id := a] && front[..id] == rows[..id];
      Rewrite(front, id, a, k);
    } else {
      assert rows[id := a][..n] == front;
    }
  }

  // ---- Without time stamps ----------------------------------------------------------------

  function Timeless(a: Alert): Alert {
    a.(acknowledgedAt := None, resolvedAt := None, notifiedAt := None)
  }

  function AllTimeless(rows: seq<Alert>): (t: seq<Alert>)
    ensures |t| == |rows| && forall i :: 0 <= i < |rows| ==> t[i] == Timeless(rows[i])
  {
    seq(|rows|, i requires 0 <= i < |rows| => Timeless(rows[i]))
  }

  /** The history of the key without time stamps. */
  function Story(rows: seq<Alert>, k: AlertKey): seq<Alert> {
    Of(AllTimeless(rows), k)
  }

  /** Raising, as far as the timeless rows show it. */
  function Raised(rows: seq<Alert>, req: Request): seq<Alert> {
    match Get(rows, req.key)
    case MultipleObjects => rows
    case DoesNotExist => if Conflicts(rows, req.key) then rows else rows + [NewAlert(req)]
    case Found(id) => SetValue(rows, id, req.value, MessageOr(req.message, rows[id].message))
  }

  /** Auto-resolving, as far as the timeless rows show it. */
  function Closed(rows: seq<Alert>, k: AlertKey): (after: seq<Alert>)
    ensures |after| == |rows|
    ensures forall i :: 0 <= i < |rows| ==>
              after[i] == if LiveOpen(rows[i], k) then rows[i].(status := Resolved) else rows[i]
  {
    seq(|rows|, i requires 0 <= i < |rows| => if LiveOpen(rows[i], k) then rows[i].(status := Resolved) else rows[i])
  }

  lemma {:induction false} TimelessLookup(rows: seq<Alert>, k: AlertKey)
    ensures FindLive(AllTimeless(rows), k) == FindLive(rows, k)
    ensures Get(AllTimeless(rows), k) == Get(rows, k)
    ensures Conflicts(AllTimeless(rows), k) == Conflicts(rows, k)
  {
    TimelessFind(rows, k);
    match FindLive(rows, k) {
      case Some(i) =>
        assert AllTimeless(rows)[..i] == AllTimeless(rows[..i]);
        TimelessFind(rows[..i], k);
      case None =>
    }
    var t := AllTimeless(rows);
    assert forall i :: 0 <= i < |rows| ==> OpenFor(t[i], k) == OpenFor(rows[i], k);
  }

  lemma {:induction false} TimelessFind(rows: seq<Alert>, k: AlertKey)
    ensures FindLive(AllTimeless(rows), k) == FindLive(rows, k)
  {
    if rows != [] {
      assert AllTimeless(rows)[..|rows| - 1] == AllTimeless(rows[..|rows| - 1]);
      TimelessFind(rows[..|rows| - 1], k);
    }
  }

  lemma RaiseIsRaised(clock: Clock, db: Db, req: Request, chosen: seq<Channel>, dir: Directory)
    ensures AllTimeless(Raise(clock, db, req, chosen, dir).0.rows) == Raised(AllTimeless(db.rows), req)
  {
    var after, rows := Raise(clock, db, req, chosen, dir).0.rows, AllTimeless(db.rows);
    TimelessLookup(db.rows, req.key);
    match Get(db.rows, req.key)
    case MultipleObjects =>
    case DoesNotExist =>
      RaiseInserts(clock, db, req, chosen, dir);
      if !Conflicts(db.rows, req.key) {
        assert AllTimeless(after) == rows + [NewAlert(req)];
      }
    case Found(id) =>
      RaiseRefreshes(clock, db, req, chosen, dir);
      assert AllTimeless(after) == SetValue(rows, id, req.value, MessageOr(req.message, rows[id].message));
  }

  lemma AutoResolveIsClosed(clock: Clock, db: Db, k: AlertKey)
    ensures AllTimeless(AutoResolve(clock, db, k).rows) == Closed(AllTimeless(db.rows), k)
  {
    var after, expected := AllTimeless(AutoResolve(clock, db, k).rows), Closed(AllTimeless(db.rows), k);
    assert forall i :: 0 <= i < |after| ==> after[i] == expected[i];
  }

  // ---- One key at a time ------------------------------------------------------------------

  /** A live or open row shows in the history exactly if it is in the table. */
  lemma OpenInHistory(rows: seq<Alert>, k: AlertKey)
    ensures Conflicts(Of(rows, k), k) == Conflicts(rows, k)
    ensures Get(Of(rows, k), k).DoesNotExist? == Get(rows, k).DoesNotExist?
  {
    var h := Of(rows, k);
    forall i | 0 <= i < |rows| && OpenFor(rows[i], k) ensures exists p :: 0 <= p < |h| && h[p] == rows[i] {
      Placed(rows, i);
    }
    forall p | 0 <= p < |h| && OpenFor(h[p], k) ensures exists i :: 0 <= i < |rows| && rows[i] == h[p] {
      var i := FromHistory(rows, k, p);
    }
  }

  /** A second live row in the history is a second one in the table. */
  lemma SecondInHistory(rows: seq<Alert>, k: AlertKey)
    ensures Get(rows, k).MultipleObjects? ==> Get(Of(rows, k), k).MultipleObjects?
    ensures Get(rows, k).Found? ==> Get(Of(rows, k), k) == Found(Place(rows, Get(rows, k).id))
  {
    var h := Of(rows, k);
    match Get(rows, k)
    case MultipleObjects =>
      var i, j :| 0 <= i < j < |rows| && LiveOpen(rows[i], k) && LiveOpen(rows[j], k);
      Placed(rows, i);
      Placed(rows, j);
      PlaceGrows(rows, i, j);
      assert LiveOpen(h[Place(rows, i)], k) && LiveOpen(h[Place(rows, j)], k);
    case Found(id) =>
      Placed(rows, id);
      assert LiveOpen(h[Place(rows, id)], k);
      forall p | 0 <= p < |h| && LiveOpen(h[p], k) ensures p == Place(rows, id) {
        var i := FromHistory(rows, k, p);
        assert LiveOpen(rows[i], k);
      }
    case DoesNotExist =>
  }

  /** The lookups see the same in the key's history as in the whole table. */
  lemma LookupInHistory(rows: seq<Alert>, k: AlertKey)
    ensures var h := Of(rows, k);
            && Conflicts(h, k) == Conflicts(rows, k)
            && Get(h, k).DoesNotExist? == Get(rows, k).DoesNotExist?
            && Get(h, k).MultipleObjects? == Get(rows, k).MultipleObjects?
            && (Get(rows, k).Found? ==> Get(h, k) == Found(Place(rows, Get(rows, k).id)))
  {
    OpenInHistory(rows, k);
    SecondInHistory(rows, k);
  }

  lemma RaisedInHistory(rows: seq<Alert>, req: Request, k: AlertKey)
    ensures Of(Raised(rows, req), k) == if req.key == k then Raised(Of(rows, k), req) else Of(rows, k)
  {
    LookupInHistory(rows, req.key);
    match Get(rows, req.key)
    case MultipleObjects =>
    case DoesNotExist => OfAppend(rows, NewAlert(req), k);
    case Found(id) =>
      Placed(rows, id);
      Rewrite(rows, id, rows[id].(value := req.value, message := MessageOr(req.message, rows[id].message)), k);
  }

  lemma {:induction false} ClosedInHistory(rows: seq<Alert>, closing: AlertKey, k: AlertKey)
    ensures Of(Closed(rows, closing), k) == if closing == k then Closed(Of(rows, k), k) else Of(rows, k)
  {
    if rows != [] {
      var front := rows[..|rows| - 1];
      assert Closed(rows, closing)[..|rows| - 1] == Closed(front, closing);
      ClosedInHistory(front, closing, k);
      assert closing == k ==> Closed(Of(rows, k), k) == Of(Closed(rows, closing), k);
    } else {
      assert Closed(rows, closing) == [] && Closed(Of(rows, k), k) == [];
    }
  }

  /** A raise in the table is a raise in the story of its key, and nothing in the others. */
  lemma RaiseInStory(clock: Clock, db: Db, req: Request, chosen: seq<Channel>, dir: Directory, k: AlertKey)
    ensures Story(Raise(clock, db, req, chosen, dir).0.rows, k)
            == if req.key == k then Raised(Story(db.rows, k), req) else Story(db.rows, k)
  {
    RaiseIsRaised(clock, db, req, chosen, dir);
    RaisedInHistory(AllTimeless(db.rows), req, k);
  }

  lemma AutoResolveInStory(clock: Clock, db: Db, closing: AlertKey, k: AlertKey)
    ensures Story(AutoResolve(clock, db, closing).rows, k)
            == if closing == k then Closed(Story(db.rows, k), k) else Story(db.rows, k)
  {
    AutoResolveIsClosed(clock, db, closing);
    ClosedInHistory(AllTimeless(db.rows), closing, k);
  }
}
