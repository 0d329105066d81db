/** What each operation of the shared library leaves in tasks, recipients and entries. */
module LibraryTasks {
  import opened Base
  import opened SharedTables
  import opened LibraryRules
  import opened LibraryLaws
  import T = TaskText

  function TaskAt(l: Library, taskId: Str): Option<T.Task> {
    if taskId in l.tasks then Some(l.tasks[taskId]) else None
  }

  /** The entry can be received: it is there and has not expired. */
  predicate Live(l: Library, id: Str) { id in l.t.rows && !l.t.rows[id].expired }

  /** The task a receive of this entry starts with. */
  function Fresh(id: Str, row: Row, node: Node): T.Task {
    T.Task(id + [45, 62] + node, T.Transfer, id, row.owner, node, T.Queued, row.createdAt, 0, row.displayName)
  }

  /**
   After a receive the task of entry and node is a fresh queued one, or, if the entry was delivered to the node
   before, the one that was there; a file that lands completes it with its path. No other task changes.
   */
  lemma ReceiveTask(l: Library, id: Str, node: Node, outcome: Outcome, now: nat, taskId: Str)
    requires SharedTables.Valid(l.t)
    ensures var before, after := TaskAt(l, taskId), TaskAt(ReceiveEntry(l, id, node, true, outcome, now).0, taskId);
            if !Live(l, id) || taskId != id + [45, 62] + node then after == before
            else
              var base := if IsDelivered(l, id, node) then before else Some(Fresh(id, l.t.rows[id], node));
              after == if outcome.Lands? && base.Some? then Some(base.value.(state := T.Completed, detail := outcome.path))
                       else base
  {
    assert ARROW == [45, 62];
    var (l1, status) := CreateReceiveTask(l, id, node, now);
    assert Live(l, id) ==> status == Done || status == AlreadyExists;
    assert status == AlreadyExists <==> Live(l, id) && IsDelivered(l, id, node);
    assert TaskAt(l1, taskId) == if status == Done && taskId == TaskIdOf(id, node) then Some(Fresh(id, l.t.rows[id], node))
                                 else TaskAt(l, taskId);
    assert l1.t.rows.Keys == l1.t.recipients.Keys;
    hide CreateReceiveTask, RecipientAt;
  }

  /** The recipient row that a receive makes of the one it starts with. */
  function Received(base: Recipient, outcome: Outcome, now: nat): Recipient {
    match outcome
    case Lands(path) => Recipient(base.node, Delivered, path, [], now)
    case HashThrows => base
    case SourceMissing => base.(state := Failed, error := Text("shared library file is missing"), updatedAt := now)
    case CopyFails => base.(state := Failed, error := Text("failed to materialize shared file"), updatedAt := now)
    case VerifyFails(_, message) => base.(state := Failed, error := message, updatedAt := now)
  }

  /** The node's recipient row after a receive of a live entry: a row that was delivered goes on, any other starts anew. */
  lemma ReceiveRecipient(l: Library, id: Str, node: Node, outcome: Outcome, now: nat)
    requires Inv(l) && Live(l, id)
    ensures var base := if IsDelivered(l, id, node) then RecipientAt(l, id, node).value
                        else Recipient(node, Pending, [], [], now);
            RecipientAt(ReceiveEntry(l, id, node, true, outcome, now).0, id, node) == Some(Received(base, outcome, now))
  {
    var (l1, status) := CreateReceiveTask(l, id, node, now);
    CreateAt(l, id, node, now, id, node);
    CreateKeepsInv(l, id, node, now);
    assert status == AlreadyExists ==> RecipientAt(l, id, node).Some? && RecipientAt(l, id, node).value.state == Delivered;
    assert RecipientAt(l1, id, node).value.node == node;
    hide CreateReceiveTask, RecipientAt, FailRecipient, MarkDelivered;
    match outcome
    case SourceMissing => FailAt(l1, id, node, FILE_MISSING, now, id, node);
    case CopyFails => FailAt(l1, id, node, NOT_MATERIALIZED, now, id, node);
    case HashThrows =>
    case VerifyFails(code, message) => FailAt(l1, id, node, message, now, id, node);
    case Lands(path) =>
      DeliverAt(UpdateTask(l1, TaskIdOf(id, node), T.Completed, path), l1, id, node, path, now, id, node);
  }

  /** The status of a receive; an entry changes only in its delivered flag, and only when a file lands. */
  lemma ReceiveRow(l: Library, id: Str, node: Node, outcome: Outcome, now: nat, id': Str)
    requires Inv(l)
    ensures var (l1, status) := ReceiveEntry(l, id, node, true, outcome, now);
            && l1.t.rows.Keys == l.t.rows.Keys
            && (id' in l.t.rows ==>
                  l1.t.rows[id'] == l.t.rows[id'].(
                    delivered := l.t.rows[id'].delivered || (id' == id && Live(l, id) && outcome.Lands?)))
            && status == if id !in l.t.rows then NotFound else if l.t.rows[id].expired then PermissionDenied else
                 match outcome
                 case Lands(_) => Done
                 case SourceMissing => NotFound
                 case CopyFails => InternalError
                 case HashThrows => InternalError
                 case VerifyFails(code, _) => code
  {
    CreateKeepsInv(l, id, node, now);
    var (l1, status) := CreateReceiveTask(l, id, node, now);
    assert l1.t.rows == l.t.rows && l1.t.rows.Keys == l1.t.recipients.Keys;
    assert status == if id !in l.t.rows then NotFound else if l.t.rows[id].expired then PermissionDenied
                     else if IsDelivered(l, id, node) then AlreadyExists else Done;
    hide CreateReceiveTask, FailRecipient, IsDelivered, Inv;
    match outcome
    case SourceMissing => FailKeepsRows(l1, id, node, FILE_MISSING, now);
    case CopyFails => FailKeepsRows(l1, id, node, NOT_MATERIALIZED, now);
    case HashThrows =>
    case VerifyFails(code, message) => FailKeepsRows(l1, id, node, message, now);
    case Lands(path) =>
  }

  lemma FailKeepsRows(l: Library, id: Str, node: Node, message: Str, now: nat)
    requires l.t.rows.Keys == l.t.recipients.Keys
    ensures FailRecipient(l, id, node, message, now).t.rows == l.t.rows
  {
  }

  // ---------- Retries ----------

  lemma Reopened(l: Library, id: Str, node: Node, now: nat)
    requires Inv(l) && TaskIdOf(id, node) in l.tasks
    ensures var l1 := Reopen(RetryTask(l, TaskIdOf(id, node), RETRY_REQUESTED), id, node, now);
            && Inv(l1) && !IsDelivered(l1, id, node) && Live(l1, id) == Live(l, id)
            && l1.t.rows == l.t.rows
            && forall taskId :: TaskAt(l1, taskId) ==
                 if taskId == TaskIdOf(id, node) then
                   Some(l.tasks[taskId].(
                     state := T.Queued, retries := (l.tasks[taskId].retries + 1) % TWO_32,
                     detail := Text("manual share receive retry requested")))
                 else TaskAt(l, taskId)
  {
  }

  /**
   A retry counts only where its receive is refused: otherwise the receive starts with a fresh task, whose count is
   zero. A node without a task cannot retry.
   */
  lemma RetriedTask(l: Library, id: Str, node: Node, hasRoot: bool, outcome: Outcome, now: nat, taskId: Str)
    requires Inv(l)
    ensures var (l1, status) := RetryReceive(l, id, node, hasRoot, outcome, now);
            var before, after := TaskAt(l, taskId), TaskAt(l1, taskId);
            if id + [45, 62] + node !in l.tasks then l1 == l && status == NotFound
            else if taskId != id + [45, 62] + node then after == before
            else if !hasRoot || !Live(l, id) then
              after == Some(before.value.(
                state := T.Queued, retries := (before.value.retries + 1) % TWO_32,
                detail := Text("manual share receive retry requested")))
            else
              after == Some(
                if outcome.Lands? then Fresh(id, l.t.rows[id], node).(state := T.Completed, detail := outcome.path)
                else Fresh(id, l.t.rows[id], node))
  {
    assert ARROW == [45, 62];
    if TaskIdOf(id, node) in l.tasks {
      Reopened(l, id, node, now);
      var l2 := Reopen(RetryTask(l, TaskIdOf(id, node), RETRY_REQUESTED), id, node, now);
      hide Reopen, RetryTask, IsDelivered, Inv;
      if hasRoot {
        ReceiveTask(l2, id, node, outcome, now, taskId);
      } else {
        NoRoot(l2, id, node, outcome, now);
      }
      hide ReceiveEntry;
    }
  }

  // ---------- Reports ----------

  /** What a report makes of a recipient row that is there; a row that is not starts as pending with nothing in it. */
  function ReportedRow(before: Option<Recipient>, node: Node, state: T.JobState, detail: Str, now: nat): Recipient {
    var r := if before.Some? then before.value else Recipient(node, Pending, [], [], now);
    match state
    case Completed => Recipient(r.node, Delivered, detail, [], now)
    case Failed => Recipient(r.node, Failed, r.receivedPath, detail, now)
    case Running => Recipient(r.node, Pending, r.receivedPath, r.error, now)
    case Queued => Recipient(r.node, if before.Some? then Failed else Pending, r.receivedPath, r.error, now)
  }

  /**
   A report sets state and detail of its task. For a transfer task whose entry is there it also sets the recipient row
   of the task's target, and the entry counts as delivered from then on if and only if all its recipients do.
   */
  lemma ReportEffect(l: Library, taskId: Str, state: T.JobState, detail: Str, now: nat)
    requires Inv(l) && taskId in l.tasks
    ensures var (l1, status) := ReportTask(l, taskId, state, detail, now);
            var task := l.tasks[taskId];
            && status == Done
            && (forall other :: TaskAt(l1, other) ==
                  if other == taskId then Some(task.(state := state, detail := detail)) else TaskAt(l, other))
            && l1.t.rows.Keys == l.t.rows.Keys == l1.t.recipients.Keys
            && (forall id | id in l.t.rows ::
                  l1.t.rows[id] ==
                  if task.domain == T.Transfer && id == task.relatedId then
                    l.t.rows[id].(
                      delivered := forall n | n in l1.t.recipients[id] :: l1.t.recipients[id][n].state == Delivered)
                  else l.t.rows[id])
            && (task.domain == T.Transfer && task.relatedId in l.t.rows ==>
                  RecipientAt(l1, task.relatedId, task.target)
                  == Some(ReportedRow(RecipientAt(l, task.relatedId, task.target), task.target, state, detail, now)))
  {
  }

  // ---------- Expiry and publishing ----------

  /** A cleanup expires exactly the entries whose time is over; an entry without a time stays. */
  lemma CleanupEffect(l: Library, now: nat)
    ensures var l1 := CleanupExpired(l, now);
            && l1.tasks == l.tasks && l1.t.recipients == l.t.recipients && l1.t.rows.Keys == l.t.rows.Keys
            && forall id | id in l.t.rows ::
                 && (l1.t.rows[id].expired <==> l.t.rows[id].expired || 0 < l.t.rows[id].expiresAt <= now)
                 && l1.t.rows[id] == l.t.rows[id].(
                      expired := l1.t.rows[id].expired,
                      delivered := l.t.rows[id].delivered || (l1.t.rows[id].expired && !l.t.rows[id].expired))
    ensures Overdue(l, now) == set id | id in l.t.rows && !l.t.rows[id].expired && 0 < l.t.rows[id].expiresAt <= now
  {
  }

  /** A published entry is there with the recipients it came with, or, without any, with its nodes as delivered. */
  lemma PublishEffect(l: Library, e: Entry, node: Node)
    requires Inv(l) && PublishEntry(l, e).1 == Done
    ensures var l1 := PublishEntry(l, e).0;
            && l1.tasks == l.tasks && e.id in l1.t.rows && l1.t.rows[e.id] == e.row
            && (forall r | r in e.recipients :: RecipientAt(l1, e.id, r.node) == Some(r))
            && (e.recipients == [] && node in e.nodes ==>
                  RecipientAt(l1, e.id, node) == Some(Recipient(node, Delivered, [], [], e.row.createdAt)))
            && (RecipientAt(l1, e.id, node).Some? ==> node in e.nodes || exists r :: r in e.recipients && r.node == node)
  {
    var all := Inserted(e);
    forall i | 0 <= i < |all|
      ensures all[i].node in ByNode(all) && ByNode(all)[all[i].node] == all[i]
    {
      DistinctByNode(all, i);
    }
    ByNodeCollects(all);
    hide ByNode;
    if e.recipients == [] && node in e.nodes {
      var i :| 0 <= i < |e.nodes| && e.nodes[i] == node;
      assert all[i].node == node;
    }
  }

  /** The nodes an entry is published for. */
  function NodesOf(e: Entry): (nodes: seq<Node>)
    ensures e.recipients != [] ==> |nodes| == |e.recipients|
  {
    if e.recipients == [] then e.nodes
    else seq(|e.recipients|, i requires 0 <= i < |e.recipients| => e.recipients[i].node)
  }

  /** What publishing refuses: a missing id, owner or name; and a node that is named twice, by an exception. */
  lemma PublishRefuses(l: Library, e: Entry)
    ensures var (l1, status) := PublishEntry(l, e);
            && (status == InvalidArgument <==> e.id == [] || e.row.owner == [] || e.row.displayName == [])
            && (status == Exception <==>
                  status != InvalidArgument &&
                  exists i, j :: 0 <= i < j < |NodesOf(e)| && NodesOf(e)[i] == NodesOf(e)[j])
            && status in {InvalidArgument, Exception, Done} && (status != Done ==> l1 == l)
  {
    var all, given := Inserted(e), NodesOf(e);
    assert |all| == |given| && forall i | 0 <= i < |all| :: all[i].node == given[i];
    hide Inserted, ByNode;
    if i, j :| 0 <= i < j < |all| && all[i].node == all[j].node {
      assert given[i] == given[j];
    }
  }

  /** A receive task: refused without a live entry, or when delivered; else a fresh task and a pending recipient. */
  lemma CreateEffect(l: Library, id: Str, node: Node, now: nat)
    requires Inv(l)
    ensures var (l1, status) := CreateReceiveTask(l, id, node, now);
            && (status == NotFound <==> id !in l.t.rows)
            && (status == PermissionDenied <==> id in l.t.rows && l.t.rows[id].expired)
            && (status == AlreadyExists <==> Live(l, id) && IsDelivered(l, id, node))
            && (status == Done <==> Live(l, id) && !IsDelivered(l, id, node))
            && (status != Done ==> l1 == l)
            && (status == Done ==>
                  && l1.t.rows == l.t.rows && RecipientAt(l1, id, node) == Some(Recipient(node, Pending, [], [], now))
                  && TaskAt(l1, id + [45, 62] + node) == Some(Fresh(id, l.t.rows[id], node)))
  {
    assert ARROW == [45, 62];
  }

  /** A delivery without a task: the recipient's row and the entry's flag, and nothing else. */
  lemma DeliverEffect(l: Library, id: Str, node: Node, path: Str, now: nat)
    requires Inv(l)
    ensures var (l1, status) := MarkDelivered(l, id, node, path, now);
            && l1.tasks == l.tasks
            && if id !in l.t.rows then l1 == l && status == NotFound
               else
                 && status == Done && l1.t.rows == l.t.rows[id := l.t.rows[id].(delivered := true)]
                 && RecipientAt(l1, id, node) == Some(Recipient(node, Delivered, path, [], now))
  {
  }

  /** An entry waits for a node from when it can be received until it is delivered, except for its owner. */
  lemma WaitingIs(l: Library, id: Str, node: Node)
    requires Inv(l) && id in l.t.rows
    ensures Waiting(l, id, node) <==> Live(l, id) && l.t.rows[id].owner != node && !IsDelivered(l, id, node)
  {
  }
}
