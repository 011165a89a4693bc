/**
 Remote-control commands: the row a command is stored in, the operations that write it, and the
 interleavings of those writes. Command ids are the table's keys; the columns that never change
 after the insert (device, command, payload, issuer) are not shown.
 */
module Commands {
  import opened Options
  import Alerts
  import Redelivery

  type Time = Alerts.Time
  type CommandId = nat

  datatype CommandStatus = Queued | Sent | Acked | Completed | Failed | Expired

  datatype Command = Command(
    status: CommandStatus, result: Json, error: string,
    sentAt: Option<Time>, ackedAt: Option<Time>, completedAt: Option<Time>, expiresAt: Option<Time>)

  /** A device's answer; `word` is its status field in lower case, `error` is empty when absent. */
  datatype ResultMessage = ResultMessage(
    commandId: Option<CommandId>, word: string, result: Option<Json>, error: string)

  /** The statuses only a device's answer can give. */
  predicate FromDevice(st: CommandStatus) {
    st.Acked? || st.Completed? || st.Failed?
  }

  function StatusFor(word: string): (st: CommandStatus)
    ensures FromDevice(st)
  {
    if word in {"ok", "completed", "done"} then Completed
    else if word in {"error", "failed"} then Failed
    else Acked
  }

  /** A command after an answer of the given status was handled at `now`. */
  function Transition(cmd: Command, status: CommandStatus, result: Option<Json>, error: string, now: Time): Command {
    Command(
      status,
      if result.Some? then result.value else cmd.result,
      if error != "" then error else cmd.error,
      cmd.sentAt,
      if status.Acked? then Some(now) else cmd.ackedAt,
      if status.Completed? || status.Failed? then Some(now) else cmd.completedAt,
      cmd.expiresAt)
  }

  function Answer(cmd: Command, msg: ResultMessage, now: Time): Command {
    Transition(cmd, StatusFor(msg.word), msg.result, msg.error, now)
  }

  /** The table after one message; a message that names no stored command is dropped. */
  function Handled(rows: map<CommandId, Command>, msg: ResultMessage, now: Time): map<CommandId, Command> {
    if msg.commandId.Some? && msg.commandId.value in rows
    then rows[msg.commandId.value := Answer(rows[msg.commandId.value], msg, now)]
    else rows
  }

  /** Waiting for an answer with the deadline passed. */
  predicate Overdue(cmd: Command, now: Time) {
    && cmd.expiresAt.Some? && cmd.expiresAt.value < now
    && (cmd.status.Queued? || cmd.status.Sent?)
  }

  class CommandTable {
    var rows: map<CommandId, Command>

    constructor ()
      ensures rows == map[]
    {
      rows := map[];
    }

    /** `failure` is what publishing raised, if it raised. */
    method Dispatch(id: CommandId, now: Time, ttl: int, failure: Option<string>, sentAt: Time)
      requires id !in rows
      modifies this
      ensures id in rows && rows == old(rows)[id := rows[id]]
      ensures rows[id].expiresAt == Some(now + ttl)
      ensures rows[id].ackedAt == rows[id].completedAt == None && rows[id].result == "{}"
      ensures failure.None? ==> rows[id].status == Sent && rows[id].sentAt == Some(sentAt) && rows[id].error == ""
      ensures failure.Some? ==>
                rows[id].status == Queued && rows[id].sentAt == None
                && rows[id].error == "publish failed: " + failure.value
      ensures rows[id] == Run(now + ttl, match failure
                                         case None => [PublishReturns, SaveSent(sentAt)]
                                         case Some(text) => [PublishRaises(text)]).row
    {
      var cmd := Command(Queued, "{}", "", None, None, None, Some(now + ttl));
      rows := rows[id := cmd];
      match failure {
        case None =>
          cmd := cmd.(status := Sent, sentAt := Some(sentAt));
          rows := rows[id := rows[id].(status := cmd.status, sentAt := cmd.sentAt)];
          Undisturbed(now + ttl, sentAt, "");
        case Some(text) =>
          cmd := cmd.(error := "publish failed: " + text);
          rows := rows[id := rows[id].(error := cmd.error)];
          Undisturbed(now + ttl, sentAt, text);
      }
    }

    /** `copy` is the row as the caller read it; saving it writes every column. */
    method TransitionCommand(
      id: CommandId, copy: Command, status: CommandStatus, result: Option<Json>, error: string, now: Time)
      modifies this
      ensures rows == old(rows)[id := Transition(copy, status, result, error, now)]
      ensures var row := rows[id];
              && row.status == status && row.sentAt == copy.sentAt && row.expiresAt == copy.expiresAt
              && row.ackedAt == (if status == Acked then Some(now) else copy.ackedAt)
              && row.completedAt == (if status == Completed || status == Failed then Some(now) else copy.completedAt)
              && row.result == (if result == None then copy.result else result.value)
              && row.error == (if error == "" then copy.error else error)
    {
      var cmd := copy.(status := status);
      if status.Acked? {
        cmd := cmd.(ackedAt := Some(now));
      } else if status.Completed? || status.Failed? {
        cmd := cmd.(completedAt := Some(now));
      }
      if result.Some? {
        cmd := cmd.(result := result.value);
      }
      if error != "" {
        cmd := cmd.(error := error);
      }
      rows := rows[id := cmd];
    }

    method HandleResult(msg: ResultMessage, now: Time)
      modifies this
      ensures rows == Handled(old(rows), msg, now)
      ensures rows.Keys == old(rows).Keys
      ensures forall id <- rows :: msg.commandId != Some(id) ==> rows[id] == old(rows)[id]
      ensures forall id <- rows :: msg.commandId == Some(id) ==>
                var was, row := old(rows)[id], rows[id];
                && (msg.word in {"ok", "completed", "done"} ==>
                      row.status == Completed && row.completedAt == Some(now) && row.ackedAt == was.ackedAt)
                && (msg.word in {"error", "failed"} ==>
                      row.status == Failed && row.completedAt == Some(now) && row.ackedAt == was.ackedAt)
                && (msg.word !in {"ok", "completed", "done", "error", "failed"} ==>
                      row.status == Acked && row.ackedAt == Some(now) && row.completedAt == was.completedAt)
                && row.result == (if msg.result == None then was.result else msg.result.value)
                && row.error == (if msg.error == "" then was.error else msg.error)
                && row.sentAt == was.sentAt && row.expiresAt == was.expiresAt
    {
      if msg.commandId.None? || msg.commandId.value !in rows {
        return;
      }
      var id := msg.commandId.value;
      TransitionCommand(id, rows[id], StatusFor(msg.word), msg.result, msg.error, now);
    }

    method ExpireStale(now: Time) returns (expired: nat)
      modifies this
      ensures rows.Keys == old(rows).Keys
      ensures expired == |set id | id in old(rows) && Overdue(old(rows)[id], now)|
      ensures expired == |set id | id in old(rows) && old(rows)[id].status in {Queued, Sent}
                                   && old(rows)[id].expiresAt.Some? && old(rows)[id].expiresAt.value < now|
      ensures forall id :: id in rows ==>
                var was := old(rows)[id];
                rows[id] == if was.status in {Queued, Sent} && was.expiresAt.Some? && was.expiresAt.value < now
                            then was.(status := Expired) else was
    {
      var stale := set id | id in rows && Overdue(rows[id], now);
      assert stale == set id | id in rows && rows[id].status in {Queued, Sent}
                               && rows[id].expiresAt.Some? && rows[id].expiresAt.value < now;
      expired := |stale|;
      rows := map id | id in rows :: if id in stale then rows[id].(status := Expired) else rows[id];
    }
  }

  // ---- Redelivery -----------------------------------------------------------------------

  /** What of a command does not depend on when its messages were handled. */
  datatype Progress = Progress(
    status: CommandStatus, result: Json, error: string, sent: bool, acked: bool, completed: bool)

  function ProgressOf(cmd: Command): Progress {
    Progress(cmd.status, cmd.result, cmd.error, cmd.sentAt.Some?, cmd.ackedAt.Some?, cmd.completedAt.Some?)
  }

  function TableProgress(rows: map<CommandId, Command>): map<CommandId, Progress> {
    map id | id in rows :: ProgressOf(rows[id])
  }

  function Advance(p: Progress, msg: ResultMessage): Progress {
    var st := StatusFor(msg.word);
    Progress(st, if msg.result.Some? then msg.result.value else p.result,
             if msg.error != "" then msg.error else p.error,
             p.sent, p.acked || st.Acked?, p.completed || !st.Acked?)
  }

  /** One result, as the progress shows it: a single write, made unless the handling raised before it. */
  function Deliver(
    table: map<CommandId, Progress>, h: Redelivery.Handling<ResultMessage>): map<CommandId, Progress>
  {
    if h.extent != Redelivery.Cut(0) && h.msg.commandId.Some? && h.msg.commandId.value in table
    then table[h.msg.commandId.value := Advance(table[h.msg.commandId.value], h.msg)]
    else table
  }

  lemma DeliverOverwrites()
    ensures Redelivery.Overwriting(Deliver) && Redelivery.StartsBlank(Deliver)
  {
    forall s, f, g | Redelivery.Supersedes(g, f) ensures Deliver(Deliver(s, f), g) == Deliver(s, g) {
      DeliverAgain(s, f, g);
    }
    forall s, f, x, g | Redelivery.Supersedes(g, f)
      ensures Deliver(Deliver(Deliver(s, f), x), g) == Deliver(Deliver(s, x), g)
    {
      DeliverTwice(s, f, x, g);
    }
  }

  lemma DeliverAgain(
    s: map<CommandId, Progress>, f: Redelivery.Handling<ResultMessage>, g: Redelivery.Handling<ResultMessage>)
    requires Redelivery.Supersedes(g, f)
    ensures Deliver(Deliver(s, f), g) == Deliver(s, g)
  {
  }

  lemma DeliverTwice(
    s: map<CommandId, Progress>, f: Redelivery.Handling<ResultMessage>, x: Redelivery.Handling<ResultMessage>,
    g: Redelivery.Handling<ResultMessage>)
    requires Redelivery.Supersedes(g, f)
    ensures Deliver(Deliver(Deliver(s, f), x), g) == Deliver(Deliver(s, x), g)
  {
    var left, right := Deliver(Deliver(Deliver(s, f), x), g), Deliver(Deliver(s, x), g);
    assert left.Keys == s.Keys == right.Keys;
    forall id | id in s ensures left[id] == right[id] {
    }
  }

  /** The table after one handling, which may have raised before it wrote. */
  function HandledTo(
    rows: map<CommandId, Command>, h: Redelivery.Handling<ResultMessage>, now: Time): map<CommandId, Command>
  {
    if h.extent == Redelivery.Cut(0) then rows else Handled(rows, h.msg, now)
  }

  lemma HandledIsDelivered(rows: map<CommandId, Command>, h: Redelivery.Handling<ResultMessage>, now: Time)
    ensures TableProgress(HandledTo(rows, h, now)) == Deliver(TableProgress(rows), h)
  {
  }

  /** The handler over a sequence of messages, each handled at its own time. */
  function HandleAll(
    rows: map<CommandId, Command>, hs: seq<Redelivery.Handling<ResultMessage>>, times: seq<Time>)
    : map<CommandId, Command>
    requires |times| == |hs|
  {
    if hs == [] then rows else HandleAll(HandledTo(rows, hs[0], times[0]), hs[1..], times[1..])
  }

  lemma {:induction false} ProgressIgnoresTimes(
    rows: map<CommandId, Command>, hs: seq<Redelivery.Handling<ResultMessage>>, times: seq<Time>)
    requires |times| == |hs|
    ensures TableProgress(HandleAll(rows, hs, times)) == Redelivery.Fold(Deliver, TableProgress(rows), hs)
    decreases |hs|
  {
    if hs != [] {
      HandledIsDelivered(rows, hs[0], times[0]);
      ProgressIgnoresTimes(HandledTo(rows, hs[0], times[0]), hs[1..], times[1..]);
    }
  }

  /**
   Main result on redelivery: whatever QoS 1 session delivers the published results, whenever the
   copies are handled, and whichever handlings raise, as long as no final copy writes less than an
   earlier one, every command ends with the status, result, error and set of stamped times that
   handling each result once, in order, as its final copy was, gives it.
   */
  lemma ResultsConverge(
    rows: map<CommandId, Command>, published: seq<ResultMessage>, ws: seq<Redelivery.Wire>,
    times: seq<Time>, onceTimes: seq<Time>)
    requires Redelivery.Delivered(|published|, ws)
    requires |times| == |Redelivery.Connect(|published|, ws).arrived| && |onceTimes| == |published|
    ensures var arrived := Redelivery.Connect(|published|, ws).arrived;
            && Redelivery.Numbered(Redelivery.Packets(arrived), |published|)
            && (forall p: nat :: p < |published| ==> p in Redelivery.Packets(arrived))
            && TableProgress(HandleAll(rows, Redelivery.Arrivals(published, arrived), times))
               == TableProgress(HandleAll(rows, Redelivery.Once(published, arrived), onceTimes))
  {
    var arrived := Redelivery.Connect(|published|, ws).arrived;
    DeliverOverwrites();
    Redelivery.AtLeastOnceIsExactlyOnce(Deliver, TableProgress(rows), published, ws);
    ProgressIgnoresTimes(rows, Redelivery.Arrivals(published, arrived), times);
    ProgressIgnoresTimes(rows, Redelivery.Once(published, arrived), onceTimes);
  }

  /** The word of the last message that names the command and was written. */
  function LastWord(hs: seq<Redelivery.Handling<ResultMessage>>, id: CommandId): Option<string> {
    if hs == [] then None
    else if LastWord(hs[1..], id).Some? then LastWord(hs[1..], id)
    else if hs[0].msg.commandId == Some(id) && hs[0].extent != Redelivery.Cut(0) then Some(hs[0].msg.word)
    else None
  }

  /** The last answer wins, whatever it overwrites: a late ack replaces COMPLETED or EXPIRED. */
  lemma {:induction false} LastAnswerWins(
    rows: map<CommandId, Command>, hs: seq<Redelivery.Handling<ResultMessage>>, times: seq<Time>, id: CommandId)
    requires |times| == |hs| && id in rows
    ensures var after := HandleAll(rows, hs, times);
            id in after && match LastWord(hs, id)
                           case Some(word) =>
                             && (word in {"ok", "completed", "done"} ==> after[id].status == Completed)
                             && (word in {"error", "failed"} ==> after[id].status == Failed)
                             && (word !in {"ok", "completed", "done", "error", "failed"} ==> after[id].status == Acked)
                           case None => after[id] == rows[id]
    decreases |hs|
  {
    if hs != [] {
      LastAnswerWins(HandledTo(rows, hs[0], times[0]), hs[1..], times[1..], id);
    }
  }

  /**
   "Idempotent on command_id" is not true of the whole row: a second copy moves the time stamp,
   unless it is handled at the same instant or names no stored command.
   */
  lemma SecondCopyRestamps(rows: map<CommandId, Command>, msg: ResultMessage, first: Time, second: Time)
    ensures Handled(Handled(rows, msg, first), msg, second) == Handled(rows, msg, first)
            <==> first == second || msg.commandId.None? || msg.commandId.value !in rows
  {
    if msg.commandId.Some? && msg.commandId.value in rows {
      var id := msg.commandId.value;
      var once, twice := Handled(rows, msg, first)[id], Handled(Handled(rows, msg, first), msg, second)[id];
      assert once == twice <==> first == second;
      if first == second {
        assert Handled(Handled(rows, msg, first), msg, second) == Handled(rows, msg, first);
      }
    }
  }

  // ---- Dispatch, answers and expiry interleaved -------------------------------------------

  /** How far the dispatcher of this command has got. */
  datatype Dispatcher = Publishing | Published | Finished

  /** A bridge handler between reading the row and saving it. */
  datatype Handler = Handler(copy: Command, msg: ResultMessage)

  datatype State = State(row: Command, dispatcher: Dispatcher, handlers: map<nat, Handler>)

  /** One statement against the database, or the broker's reply to the publisher. */
  datatype Event =
    | PublishReturns
    | PublishRaises(text: string)
    | SaveSent(at: Time)
    | ReadRow(h: nat, msg: ResultMessage)
    | SaveResult(h: nat, at: Time)
    | Expire(at: Time)

  /** The state right after the insert. */
  function Inserted(expiresAt: Time): State {
    State(Command(Queued, "{}", "", None, None, None, Some(expiresAt)), Publishing, map[])
  }

  predicate MarksSent(s: State, e: Event) {
    e.SaveSent? && s.dispatcher.Published?
  }

  predicate SavesAnswer(s: State, e: Event) {
    e.SaveResult? && e.h in s.handlers
  }

  /** An event that is not possible in this state leaves it as it is. */
  function Step(s: State, e: Event): State {
    match e
    case PublishReturns => if s.dispatcher.Publishing? then s.(dispatcher := Published) else s
    case PublishRaises(text) =>
      if s.dispatcher.Publishing?
      then s.(dispatcher := Finished, row := s.row.(error := "publish failed: " + text))
      else s
    case SaveSent(at) =>
      if MarksSent(s, e) then s.(dispatcher := Finished, row := s.row.(status := Sent, sentAt := Some(at))) else s
    case ReadRow(h, msg) =>
      if h !in s.handlers then s.(handlers := s.handlers[h := Handler(s.row, msg)]) else s
    case SaveResult(h, at) =>
      if SavesAnswer(s, e)
      then s.(row := Answer(s.handlers[h].copy, s.handlers[h].msg, at), handlers := s.handlers - {h})
      else s
    case Expire(at) => if Overdue(s.row, at) then s.(row := s.row.(status := Expired)) else s
  }

  function Run(expiresAt: Time, es: seq<Event>): State {
    if es == [] then Inserted(expiresAt) else Step(Run(expiresAt, es[..|es| - 1]), es[|es| - 1])
  }

  /** What a dispatch that nothing interleaves with leaves. */
  lemma Undisturbed(expiresAt: Time, at: Time, text: string)
    ensures Run(expiresAt, [PublishReturns, SaveSent(at)]).row
            == Command(Sent, "{}", "", Some(at), None, None, Some(expiresAt))
    ensures Run(expiresAt, [PublishRaises(text)]).row
            == Command(Queued, "{}", "publish failed: " + text, None, None, None, Some(expiresAt))
  {
    var es, raises := [PublishReturns, SaveSent(at)], [PublishRaises(text)];
    assert es[..1][..0] == [] && raises[..0] == [];
    assert Run(expiresAt, es[..1]) == Step(Inserted(expiresAt), PublishReturns);
    assert Run(expiresAt, es) == Step(Run(expiresAt, es[..1]), SaveSent(at));
    assert Run(expiresAt, raises) == Step(Inserted(expiresAt), PublishRaises(text));
  }

  /** And an answer that nothing interleaves with is handled as the service handles it. */
  lemma UndisturbedAnswer(s: State, h: nat, msg: ResultMessage, at: Time, id: CommandId)
    requires h !in s.handlers && msg.commandId == Some(id)
    ensures map[id := Step(Step(s, ReadRow(h, msg)), SaveResult(h, at)).row] == Handled(map[id := s.row], msg, at)
  {
  }

  /** Event k of the run saves an answer. */
  predicate SavesAt(expiresAt: Time, es: seq<Event>, k: nat) {
    k < |es| && SavesAnswer(Run(expiresAt, es[..k]), es[k])
  }

  /** Event k of the run writes the SENT mark. */
  predicate MarksAt(expiresAt: Time, es: seq<Event>, k: nat) {
    k < |es| && MarksSent(Run(expiresAt, es[..k]), es[k])
  }

  /** Some answer has been saved. */
  ghost predicate Answered(expiresAt: Time, es: seq<Event>) {
    exists k :: SavesAt(expiresAt, es, k)
  }

  /** The SENT mark was written after some answer. */
  ghost predicate MarkedAfterAnswer(expiresAt: Time, es: seq<Event>) {
    exists k, j :: k < j && SavesAt(expiresAt, es, k) && MarksAt(expiresAt, es, j)
  }

  /** Event k saved an answer and no SENT mark was written behind it. */
  ghost predicate Stands(expiresAt: Time, es: seq<Event>, k: nat) {
    SavesAt(expiresAt, es, k) && forall j :: k < j ==> !MarksAt(expiresAt, es, j)
  }

  /** What an event before the last one does depends only on the events before it. */
  lemma SameInPrefix(expiresAt: Time, es: seq<Event>, k: nat)
    requires k + 1 < |es|
    ensures SavesAt(expiresAt, es[..|es| - 1], k) == SavesAt(expiresAt, es, k)
    ensures MarksAt(expiresAt, es[..|es| - 1], k) == MarksAt(expiresAt, es, k)
  {
    assert es[..|es| - 1][..k] == es[..k];
  }

  /** A handler holds the row as it was when it read it. */
  lemma {:induction false} CopyWasRead(expiresAt: Time, es: seq<Event>, h: nat) returns (i: nat)
    requires h in Run(expiresAt, es).handlers
    ensures i < |es| && es[i].ReadRow? && es[i].h == h
    ensures Run(expiresAt, es).handlers[h] == Handler(Run(expiresAt, es[..i]).row, es[i].msg)
    decreases |es|
  {
    var n, before := |es| - 1, es[..|es| - 1];
    if h in Run(expiresAt, before).handlers {
      i := CopyWasRead(expiresAt, before, h);
      assert before[..i] == es[..i];
    } else {
      i := n;
    }
  }

  /** A saved answer writes back every column as it was when its handler read the row, save those the answer sets. */
  lemma SaveWritesOldCopy(expiresAt: Time, es: seq<Event>, k: nat) returns (i: nat)
    requires SavesAt(expiresAt, es, k)
    ensures i < k && es[i].ReadRow? && es[i].h == es[k].h
    ensures Run(expiresAt, es[..k + 1]).row == Answer(Run(expiresAt, es[..i]).row, es[i].msg, es[k].at)
  {
    i := CopyWasRead(expiresAt, es[..k], es[k].h);
    assert es[..k][..i] == es[..i] && es[..k + 1][..k] == es[..k];
  }

  /** The answer that stands after one more event. */
  lemma StandsAfterStep(expiresAt: Time, es: seq<Event>, k: nat)
    requires es != []
    ensures var n := |es| - 1;
            Stands(expiresAt, es, k) <==>
            if k == n then SavesAt(expiresAt, es, n) else Stands(expiresAt, es[..n], k) && !MarksAt(expiresAt, es, n)
  {
    var n, before := |es| - 1, es[..|es| - 1];
    if k < n {
      SameInPrefix(expiresAt, es, k);
      forall j: nat | k < j < n ensures MarksAt(expiresAt, before, j) == MarksAt(expiresAt, es, j) {
        SameInPrefix(expiresAt, es, j);
      }
      if Stands(expiresAt, before, k) && !MarksAt(expiresAt, es, n) {
        forall j: nat | k < j ensures !MarksAt(expiresAt, es, j) {
        }
      }
    }
  }

  /**
   Main result on expiry, for every interleaving: the command shows a device status exactly when
   some answer was saved with no SENT mark written behind it. In particular such a status
   survives every later expiry.
   */
  lemma {:induction false} DeviceStatusIffAnswerStands(expiresAt: Time, es: seq<Event>)
    ensures FromDevice(Run(expiresAt, es).row.status) <==> exists k :: Stands(expiresAt, es, k)
    decreases |es|
  {
    if es != [] {
      var n, before := |es| - 1, es[..|es| - 1];
      DeviceStatusIffAnswerStands(expiresAt, before);
      StandsAfterStep(expiresAt, es, n);
      if SavesAt(expiresAt, es, n) {
        assert Stands(expiresAt, es, n);
      } else if k: nat :| Stands(expiresAt, before, k) {
        StandsAfterStep(expiresAt, es, k);
      }
      if k: nat :| Stands(expiresAt, es, k) {
        StandsAfterStep(expiresAt, es, k);
      }
    }
  }

  /** The word of the answer that event k saves. */
  function WordAt(expiresAt: Time, es: seq<Event>, k: nat): string
    requires SavesAt(expiresAt, es, k)
  {
    Run(expiresAt, es[..k]).handlers[es[k].h].msg.word
  }

  /** Event k saved the last answer, and no SENT mark was written behind it. */
  ghost predicate StandsLast(expiresAt: Time, es: seq<Event>, k: nat) {
    Stands(expiresAt, es, k) && forall j :: k < j ==> !SavesAt(expiresAt, es, j)
  }

  /** If any answer stands, the last one does. */
  lemma {:induction false} LastStands(expiresAt: Time, es: seq<Event>, k: nat) returns (last: nat)
    requires Stands(expiresAt, es, k)
    ensures StandsLast(expiresAt, es, last)
    decreases |es| - k
  {
    if j: nat :| k < j && SavesAt(expiresAt, es, j) {
      last := LastStands(expiresAt, es, j);
    } else {
      last := k;
    }
  }

  lemma StandsLastBefore(expiresAt: Time, es: seq<Event>, k: nat)
    requires StandsLast(expiresAt, es, k) && k + 1 < |es|
    ensures StandsLast(expiresAt, es[..|es| - 1], k)
    ensures WordAt(expiresAt, es[..|es| - 1], k) == WordAt(expiresAt, es, k)
  {
    var before := es[..|es| - 1];
    StandsAfterStep(expiresAt, es, k);
    assert before[..k] == es[..k];
    forall j: nat | k < j ensures !SavesAt(expiresAt, before, j) {
      if j + 1 < |es| { SameInPrefix(expiresAt, es, j); }
    }
  }

  /** What the word of an answer makes of the status. */
  lemma {:induction false} LastWordStands(expiresAt: Time, es: seq<Event>, k: nat)
    requires StandsLast(expiresAt, es, k)
    ensures var word, status := WordAt(expiresAt, es, k), Run(expiresAt, es).row.status;
            && (word in {"ok", "completed", "done"} ==> status == Completed)
            && (word in {"error", "failed"} ==> status == Failed)
            && (word !in {"ok", "completed", "done", "error", "failed"} ==> status == Acked)
    decreases |es|
  {
    if k + 1 < |es| {
      StandsLastBefore(expiresAt, es, k);
      LastWordStands(expiresAt, es[..|es| - 1], k);
      assert !SavesAt(expiresAt, es, |es| - 1) && !MarksAt(expiresAt, es, |es| - 1);
    } else {
      assert es[..k + 1] == es;
    }
  }

  /** The last saved answer stands and bore one of these words. */
  ghost predicate StandsWith(expiresAt: Time, es: seq<Event>, words: set<string>) {
    exists k: nat :: StandsLast(expiresAt, es, k) && WordAt(expiresAt, es, k) in words
  }

  /**
   In every interleaving a command is COMPLETED, or FAILED, exactly if the last saved answer stands
   and bore one of the words that say so, and ACKED exactly if it stands and bore any other.
   */
  lemma StatusIsLastWord(expiresAt: Time, es: seq<Event>)
    ensures var status := Run(expiresAt, es).row.status;
            && (status == Completed <==> StandsWith(expiresAt, es, {"ok", "completed", "done"}))
            && (status == Failed <==> StandsWith(expiresAt, es, {"error", "failed"}))
            && (status == Acked <==>
                  exists k: nat :: StandsLast(expiresAt, es, k)
                                   && WordAt(expiresAt, es, k) !in {"ok", "completed", "done", "error", "failed"})
  {
    DeviceStatusIffAnswerStands(expiresAt, es);
    if k: nat :| Stands(expiresAt, es, k) {
      var last := LastStands(expiresAt, es, k);
      LastWordStands(expiresAt, es, last);
      forall j: nat | StandsLast(expiresAt, es, j) ensures j == last {
      }
    }
  }

  /** Each status carries its own time stamp, in every interleaving. */
  lemma {:induction false} StatusIsStamped(expiresAt: Time, es: seq<Event>)
    ensures var row := Run(expiresAt, es).row;
            && (row.status.Sent? ==> row.sentAt.Some?)
            && (row.status.Acked? ==> row.ackedAt.Some?)
            && (row.status.Completed? || row.status.Failed? ==> row.completedAt.Some?)
    decreases |es|
  {
    if es != [] {
      StatusIsStamped(expiresAt, es[..|es| - 1]);
    }
  }

  /** Until an answer is saved no answer stamp exists, in the row or in any handler's copy. */
  lemma {:induction false} NoAnswerNoStamp(expiresAt: Time, es: seq<Event>)
    requires !Answered(expiresAt, es)
    ensures var s := Run(expiresAt, es);
            && s.row.ackedAt.None? && s.row.completedAt.None?
            && forall h :: h in s.handlers ==> s.handlers[h].copy.ackedAt.None? && s.handlers[h].copy.completedAt.None?
    decreases |es|
  {
    if es != [] {
      var before := es[..|es| - 1];
      forall k: nat ensures !SavesAt(expiresAt, before, k) {
        if k + 1 < |es| { SameInPrefix(expiresAt, es, k); }
      }
      NoAnswerNoStamp(expiresAt, before);
      assert !SavesAt(expiresAt, es, |es| - 1);
    }
  }

  /**
   When the SENT mark is never written after an answer, an answered command shows a device status
   for good, and EXPIRED means that no answer was ever saved.
   */
  lemma AnswersSurvive(expiresAt: Time, es: seq<Event>)
    requires !MarkedAfterAnswer(expiresAt, es)
    ensures Answered(expiresAt, es) <==> FromDevice(Run(expiresAt, es).row.status)
    ensures Run(expiresAt, es).row.status.Expired? ==>
              Run(expiresAt, es).row.ackedAt.None? && Run(expiresAt, es).row.completedAt.None?
  {
    DeviceStatusIffAnswerStands(expiresAt, es);
    if k: nat :| SavesAt(expiresAt, es, k) {
      assert Stands(expiresAt, es, k);
    } else {
      NoAnswerNoStamp(expiresAt, es);
    }
  }

  /** An answer leaves a stamp for good, whatever copy it is saved from. */
  lemma {:induction false} AnswerLeavesStamp(expiresAt: Time, es: seq<Event>)
    requires Answered(expiresAt, es)
    ensures Run(expiresAt, es).row.ackedAt.Some? || Run(expiresAt, es).row.completedAt.Some?
    decreases |es|
  {
    var k: nat :| SavesAt(expiresAt, es, k);
    if k + 1 < |es| {
      SameInPrefix(expiresAt, es, k);
      AnswerLeavesStamp(expiresAt, es[..|es| - 1]);
    }
  }

  /** Nothing writes the deadline, no save of a stale copy either. */
  lemma {:induction false} KeepsDeadline(expiresAt: Time, es: seq<Event>)
    ensures var s := Run(expiresAt, es);
            && s.row.expiresAt == Some(expiresAt)
            && forall h :: h in s.handlers ==> s.handlers[h].copy.expiresAt == Some(expiresAt)
    decreases |es|
  {
    if es != [] {
      KeepsDeadline(expiresAt, es[..|es| - 1]);
    }
  }

  /** The first n events do the same whatever comes after them. */
  lemma SameAmongFirst(expiresAt: Time, es: seq<Event>, rest: seq<Event>, n: nat, k: nat)
    requires k < n <= |es|
    ensures SavesAt(expiresAt, es[..n] + rest, k) == SavesAt(expiresAt, es, k)
    ensures MarksAt(expiresAt, es[..n] + rest, k) == MarksAt(expiresAt, es, k)
  {
    assert (es[..n] + rest)[..k] == es[..k];
  }

  /** After the first n events of the run an answered command shows a device status. */
  ghost predicate AnswerShows(expiresAt: Time, es: seq<Event>, n: nat) {
    n <= |es| && Answered(expiresAt, es[..n]) ==> FromDevice(Run(expiresAt, es[..n]).row.status)
  }

  /** An expiry at that moment would leave no EXPIRED command that was answered. */
  ghost predicate ExpirySpares(expiresAt: Time, es: seq<Event>, n: nat, at: Time) {
    n <= |es| ==>
      var row := Run(expiresAt, es[..n] + [Expire(at)]).row;
      row.status.Expired? ==> row.ackedAt.None? && row.completedAt.None?
  }

  lemma MarkedEarlier(expiresAt: Time, es: seq<Event>, rest: seq<Event>, n: nat)
    requires n <= |es| && !MarkedAfterAnswer(expiresAt, es)
    requires rest == [] || (|rest| == 1 && rest[0].Expire?)
    ensures !MarkedAfterAnswer(expiresAt, es[..n] + rest)
  {
    var before := es[..n] + rest;
    if k: nat, j: nat :| k < j && SavesAt(expiresAt, before, k) && MarksAt(expiresAt, before, j) {
      SameAmongFirst(expiresAt, es, rest, n, k);
      SameAmongFirst(expiresAt, es, rest, n, j);
    }
  }

  /** Just after a late SENT mark the answered command is SENT, and the next expiry past its deadline fails it. */
  lemma LateMarkExposes(expiresAt: Time, es: seq<Event>, k: nat, j: nat)
    requires k < j && SavesAt(expiresAt, es, k) && MarksAt(expiresAt, es, j)
    ensures !AnswerShows(expiresAt, es, j + 1) && !ExpirySpares(expiresAt, es, j + 1, expiresAt + 1)
  {
    var marked := es[..j + 1];
    assert marked[..j] == es[..j];
    assert SavesAt(expiresAt, marked, k) by {
      SameAmongFirst(expiresAt, es, [], j + 1, k);
      assert marked + [] == marked;
    }
    AnswerLeavesStamp(expiresAt, marked);
    KeepsDeadline(expiresAt, marked);
    assert (marked + [Expire(expiresAt + 1)])[..j + 1] == marked;
  }

  /**
   The two failed promises fail in exactly the runs where SENT is written after an answer: in all
   others, and only in them, an answered command shows a device status at every moment, and no
   expiry at any moment fails an answered command.
   */
  lemma SparedIffNotMarkedLate(expiresAt: Time, es: seq<Event>)
    ensures (forall n: nat :: AnswerShows(expiresAt, es, n)) <==> !MarkedAfterAnswer(expiresAt, es)
    ensures (forall n: nat, at: Time :: ExpirySpares(expiresAt, es, n, at)) <==> !MarkedAfterAnswer(expiresAt, es)
  {
    if k: nat, j: nat :| k < j && SavesAt(expiresAt, es, k) && MarksAt(expiresAt, es, j) {
      LateMarkExposes(expiresAt, es, k, j);
    } else {
      forall n: nat ensures AnswerShows(expiresAt, es, n) {
        if n <= |es| {
          MarkedEarlier(expiresAt, es, [], n);
          assert es[..n] + [] == es[..n];
          AnswersSurvive(expiresAt, es[..n]);
        }
      }
      forall n: nat, at: Time ensures ExpirySpares(expiresAt, es, n, at) {
        if n <= |es| {
          MarkedEarlier(expiresAt, es, [Expire(at)], n);
          AnswersSurvive(expiresAt, es[..n] + [Expire(at)]);
        }
      }
    }
  }

  /** A device that answers before the dispatcher has saved SENT: the completed command expires. */
  lemma CompletedCommandExpires()
    ensures var es := [PublishReturns, ReadRow(0, ResultMessage(Some(7), "done", None, "")), SaveResult(0, 5),
                       SaveSent(6), Expire(121)];
            && MarkedAfterAnswer(120, es)
            && Run(120, es).row.status == Expired && Run(120, es).row.completedAt == Some(5)
  {
    var msg := ResultMessage(Some(7), "done", None, "");
    var es := [PublishReturns, ReadRow(0, msg), SaveResult(0, 5), SaveSent(6), Expire(121)];
    assert es[..5] == es && es[..4] == es[..5][..4] && es[..3] == es[..4][..3];
    assert es[..2] == es[..3][..2] && es[..1] == es[..2][..1] && es[..0] == es[..1][..0] == [];
    assert Run(120, es[..1]).dispatcher == Published;
    assert Run(120, es[..2]).handlers == map[0 := Handler(Run(120, []).row, msg)];
    assert SavesAt(120, es, 2);
    assert Run(120, es[..3]).row.completedAt == Some(5);
    assert MarksAt(120, es, 3);
    assert Run(120, es[..4]).row.status == Sent;
  }
}
