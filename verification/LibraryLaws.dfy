/** What every step of the shared library keeps, over all runs. */
module LibraryLaws {
  import opened Base
  import opened SharedTables
  import opened LibraryRules
  import T = TaskText

  datatype Op =
    | Publish(entry: Entry)
    | CreateReceive(id: Str, node: Node)
    | Receive(id: Str, node: Node, hasRoot: bool, outcome: Outcome)
    | Retry(id: Str, node: Node, hasRoot: bool, outcome: Outcome)
    | Deliver(id: Str, node: Node, path: Str)
    | Cleanup
    | Report(taskId: Str, state: T.JobState, detail: Str)

  function Apply(l: Library, op: Op, now: nat): (Library, Status)
    requires l.t.rows.Keys == l.t.recipients.Keys
  {
    match op
    case Publish(entry) => PublishEntry(l, entry)
    case CreateReceive(id, node) => CreateReceiveTask(l, id, node, now)
    case Receive(id, node, hasRoot, outcome) => ReceiveEntry(l, id, node, hasRoot, outcome, now)
    case Retry(id, node, hasRoot, outcome) => RetryReceive(l, id, node, hasRoot, outcome, now)
    case Deliver(id, node, path) => MarkDelivered(l, id, node, path, now)
    case Cleanup => (CleanupExpired(l, now), Done)
    case Report(taskId, state, detail) => ReportTask(l, taskId, state, detail, now)
  }

  /** Recipient rows under their own node, for exactly the entries; transfer tasks under the name of entry and node. */
  ghost predicate Inv(l: Library) {
    && Valid(l.t)
    && forall id | id in l.tasks && l.tasks[id].domain == T.Transfer ::
         id == TaskIdOf(l.tasks[id].relatedId, l.tasks[id].target)
  }

  lemma PutKeeps(t: Tables, id: Str, row: Row, rs: map<Node, Recipient>)
    requires Valid(t) && forall n | n in rs :: rs[n].node == n
    ensures Valid(Put(t, id, row, rs))
  {
  }

  lemma PublishKeepsInv(l: Library, e: Entry)
    requires Inv(l)
    ensures Inv(PublishEntry(l, e).0)
  {
    hide Inserted;
    ByNodeCollects(Inserted(e));
    hide ByNode;
    PutKeeps(l.t, e.id, e.row, ByNode(Inserted(e)));
  }

  lemma CreateKeepsInv(l: Library, id: Str, node: Node, now: nat)
    requires Inv(l)
    ensures Inv(CreateReceiveTask(l, id, node, now).0)
  {
  }

  lemma FailKeepsInv(l: Library, id: Str, node: Node, message: Str, now: nat)
    requires Inv(l)
    ensures Inv(FailRecipient(l, id, node, message, now))
  {
  }

  lemma DeliverKeepsInv(l: Library, id: Str, node: Node, path: Str, now: nat)
    requires Inv(l)
    ensures Inv(MarkDelivered(l, id, node, path, now).0)
  {
  }

  lemma ReceiveKeepsInv(l: Library, id: Str, node: Node, hasRoot: bool, outcome: Outcome, now: nat)
    requires Inv(l)
    ensures Inv(ReceiveEntry(l, id, node, hasRoot, outcome, now).0)
  {
    CreateKeepsInv(l, id, node, now);
    var (l1, status) := CreateReceiveTask(l, id, node, now);
    hide CreateReceiveTask, FailRecipient, MarkDelivered, TaskIdOf;
    match outcome
    case SourceMissing => FailKeepsInv(l1, id, node, FILE_MISSING, now);
    case CopyFails => FailKeepsInv(l1, id, node, NOT_MATERIALIZED, now);
    case HashThrows =>
    case VerifyFails(code, message) => FailKeepsInv(l1, id, node, message, now);
    case Lands(path) => DeliverKeepsInv(UpdateTask(l1, TaskIdOf(id, node), T.Completed, path), id, node, path, now);
  }

  lemma StepKeepsInv(l: Library, op: Op, now: nat)
    requires Inv(l)
    ensures Inv(Apply(l, op, now).0)
  {
    match op
    case Publish(entry) => PublishKeepsInv(l, entry);
    case CreateReceive(id, node) => CreateKeepsInv(l, id, node, now);
    case Receive(id, node, hasRoot, outcome) => ReceiveKeepsInv(l, id, node, hasRoot, outcome, now);
    case Retry(id, node, hasRoot, outcome) =>
      if TaskIdOf(id, node) in l.tasks {
        var l1 := Reopen(RetryTask(l, TaskIdOf(id, node), RETRY_REQUESTED), id, node, now);
        assert Inv(l1);
        ReceiveKeepsInv(l1, id, node, hasRoot, outcome, now);
      }
    case Deliver(id, node, path) =>
    case Cleanup =>
    case Report(taskId, state, detail) =>
  }

  /** A run: each operation with its time. */
  function After(ops: seq<(Op, nat)>): Option<Library> {
    if ops == [] then Some(EMPTY)
    else
      var before := After(ops[..|ops| - 1]);
      if before.None? || before.value.t.rows.Keys != before.value.t.recipients.Keys then None
      else Some(Apply(before.value, ops[|ops| - 1].0, ops[|ops| - 1].1).0)
  }

  lemma {:induction false} RunsKeepInv(ops: seq<(Op, nat)>)
    ensures After(ops).Some? && Inv(After(ops).value)
  {
    hide Apply;
    if ops != [] {
      RunsKeepInv(ops[..|ops| - 1]);
      StepKeepsInv(After(ops[..|ops| - 1]).value, ops[|ops| - 1].0, ops[|ops| - 1].1);
    }
  }

  /** The recipient row an operation may write, for the operations that write one. */
  ghost predicate Writes(l: Library, op: Op, id: Str, node: Node) {
    match op
    case Publish(entry) => entry.id == id
    case CreateReceive(id', node') => id' == id && node' == node
    case Receive(id', node', _, _) => id' == id && node' == node
    case Retry(id', node', _, _) => id' == id && node' == node
    case Deliver(id', node', _) => id' == id && node' == node
    case Cleanup => false
    case Report(taskId, _, _) => taskId in l.tasks && l.tasks[taskId].relatedId == id && l.tasks[taskId].target == node
  }

  function RecipientAt(l: Library, id: Str, node: Node): Option<Recipient> {
    if id in l.t.recipients then LibraryRules.Lookup(l.t.recipients[id], node) else None
  }

  predicate IsDelivered(l: Library, id: Str, node: Node) {
    RecipientAt(l, id, node).Some? && RecipientAt(l, id, node).value.state == Delivered
  }

  lemma CreateAt(l: Library, id: Str, node: Node, now: nat, id': Str, node': Node)
    requires Inv(l)
    ensures var (l1, status) := CreateReceiveTask(l, id, node, now);
            RecipientAt(l1, id', node')
            == if id' == id && node' == node && status == Done then Some(Recipient(node, Pending, [], [], now))
               else RecipientAt(l, id', node')
  {
  }

  lemma FailAt(l: Library, id: Str, node: Node, message: Str, now: nat, id': Str, node': Node)
    requires Inv(l)
    ensures RecipientAt(FailRecipient(l, id, node, message, now), id', node')
         == if id' == id && node' == node && RecipientAt(l, id, node).Some? then
              Some(RecipientAt(l, id, node).value.(state := Failed, error := message, updatedAt := now))
            else RecipientAt(l, id', node')
  {
  }

  lemma ReopenAt(l: Library, id: Str, node: Node, now: nat, id': Str, node': Node)
    requires Inv(l)
    ensures RecipientAt(Reopen(l, id, node, now), id', node')
         == if id' == id && node' == node && RecipientAt(l, id, node).Some? then
              Some(RecipientAt(l, id, node).value.(state := Pending, error := [], updatedAt := now))
            else RecipientAt(l, id', node')
    ensures Inv(Reopen(l, id, node, now))
  {
  }

  /** What a receive leaves in the node's row, by outcome; an entry that is missing or expired stays as it is. */
  lemma ReceiveAt(l: Library, id: Str, node: Node, outcome: Outcome, now: nat, id': Str, node': Node)
    requires Inv(l)
    ensures var r := RecipientAt(ReceiveEntry(l, id, node, true, outcome, now).0, id', node');
            if id' != id || node' != node || id !in l.t.rows || l.t.rows[id].expired then r == RecipientAt(l, id', node')
            else
              && r.Some?
              && (outcome.Lands? ==> r.value == Recipient(node, Delivered, outcome.path, [], now))
              && (outcome.HashThrows? ==> r.value.state == if IsDelivered(l, id, node) then Delivered else Pending)
              && (!outcome.Lands? && !outcome.HashThrows? ==> r.value.state == Failed)
  {
    var (l1, status) := CreateReceiveTask(l, id, node, now);
    CreateAt(l, id, node, now, id', node');
    CreateAt(l, id, node, now, id, node);
    CreateKeepsInv(l, id, node, now);
    assert id in l.t.rows && !l.t.rows[id].expired ==> id in l1.t.rows && (status == Done || status == AlreadyExists);
    assert status == AlreadyExists ==> RecipientAt(l, id, node).Some? && RecipientAt(l, id, node).value.state == Delivered;
    assert id !in l.t.rows || l.t.rows[id].expired ==> l1 == l && (status == NotFound || status == PermissionDenied);
    hide CreateReceiveTask, RecipientAt;
    match outcome
    case SourceMissing => FailAt(l1, id, node, FILE_MISSING, now, id', node');
    case CopyFails => FailAt(l1, id, node, NOT_MATERIALIZED, now, id', node');
    case HashThrows =>
    case VerifyFails(code, message) => FailAt(l1, id, node, message, now, id', node');
    case Lands(path) =>
      DeliverAt(UpdateTask(l1, TaskIdOf(id, node), T.Completed, path), l1, id, node, path, now, id', node');
  }

  lemma DeliverAt(l: Library, l1: Library, id: Str, node: Node, path: Str, now: nat, id': Str, node': Node)
    requires l.t == l1.t && Inv(l1)
    ensures RecipientAt(MarkDelivered(l, id, node, path, now).0, id', node')
         == if id' == id && node' == node && id in l.t.rows then Some(Recipient(node, Delivered, path, [], now))
            else RecipientAt(l1, id', node')
  {
  }

  lemma RetryAt(l: Library, op: Op, now: nat, id': Str, node': Node)
    requires Inv(l) && op.Retry? && (id' != op.id || node' != op.node)
    ensures RecipientAt(Apply(l, op, now).0, id', node') == RecipientAt(l, id', node')
  {
    var taskId := TaskIdOf(op.id, op.node);
    if taskId in l.tasks {
      var l1 := RetryTask(l, taskId, RETRY_REQUESTED);
      assert Inv(l1);
      ReopenAt(l1, op.id, op.node, now, id', node');
      var l2 := Reopen(l1, op.id, op.node, now);
      assert RecipientAt(l1, id', node') == RecipientAt(l, id', node');
      hide RecipientAt, Reopen, RetryTask, Inv;
      if op.hasRoot {
        ReceiveAt(l2, op.id, op.node, op.outcome, now, id', node');
      }
    }
  }

  /** An operation writes no recipient row but its own. */
  lemma OtherRecipientsStay(l: Library, op: Op, now: nat, id: Str, node: Node)
    requires Inv(l) && !Writes(l, op, id, node)
    ensures RecipientAt(Apply(l, op, now).0, id, node) == RecipientAt(l, id, node)
  {
    match op
    case Publish(entry) =>
    case CreateReceive(id', node') => CreateAt(l, id', node', now, id, node);
    case Receive(id', node', hasRoot, outcome) =>
      if hasRoot {
        ReceiveAt(l, id', node', outcome, now, id, node);
      }
    case Retry(id', node', hasRoot, outcome) => RetryAt(l, op, now, id, node);
    case Deliver(id', node', path) => DeliverAt(l, l, id', node', path, now, id, node);
    case Cleanup =>
    case Report(taskId, state, detail) => ReportElsewhere(l, taskId, state, detail, now, id, node);
  }

  lemma ReportElsewhere(l: Library, taskId: Str, state: T.JobState, detail: Str, now: nat, id: Str, node: Node)
    requires Inv(l)
    requires taskId in l.tasks ==> l.tasks[taskId].relatedId != id || l.tasks[taskId].target != node
    ensures RecipientAt(ReportTask(l, taskId, state, detail, now).0, id, node) == RecipientAt(l, id, node)
  {
  }

  /** What takes a delivery back. */
  ghost predicate TakesBack(l: Library, op: Op, id: Str, node: Node)
    requires id in l.t.rows
  {
    match op
    case Publish(e) =>
      && e.id == id && PublishEntry(l, e).1 == Done
      && !(node in ByNode(Inserted(e)) && ByNode(Inserted(e))[node].state == Delivered)
    case Receive(id', node', hasRoot, outcome) =>
      && id' == id && node' == node && hasRoot && !l.t.rows[id].expired
      && (outcome.SourceMissing? || outcome.CopyFails? || outcome.VerifyFails?)
    case Retry(id', node', hasRoot, outcome) =>
      && id' == id && node' == node && TaskIdOf(id, node) in l.tasks
      && (!hasRoot || l.t.rows[id].expired || !outcome.Lands?)
    case Report(taskId, state, _) =>
      && taskId in l.tasks && l.tasks[taskId].domain == T.Transfer && l.tasks[taskId].relatedId == id
      && l.tasks[taskId].target == node && state != T.Completed
    case _ => false
  }

  lemma PublishTakes(l: Library, e: Entry, now: nat, id: Str, node: Node)
    requires Inv(l) && IsDelivered(l, id, node) && id in l.t.rows && e.id == id
    ensures !IsDelivered(PublishEntry(l, e).0, id, node) <==> TakesBack(l, Publish(e), id, node)
  {
    hide ByNode, Inserted, Distinct;
  }

  lemma ReportTakes(l: Library, taskId: Str, state: T.JobState, detail: Str, now: nat, id: Str, node: Node)
    requires Inv(l) && IsDelivered(l, id, node) && id in l.t.rows
    requires taskId in l.tasks && l.tasks[taskId].relatedId == id && l.tasks[taskId].target == node
    ensures !IsDelivered(ReportTask(l, taskId, state, detail, now).0, id, node)
       <==> TakesBack(l, Report(taskId, state, detail), id, node)
  {
  }

  lemma NoRoot(l: Library, id: Str, node: Node, outcome: Outcome, now: nat)
    requires Inv(l)
    ensures ReceiveEntry(l, id, node, false, outcome, now) == (l, InvalidArgument)
  {
  }

  lemma ReceiveTakes(l: Library, id: Str, node: Node, hasRoot: bool, outcome: Outcome, now: nat)
    requires Inv(l) && IsDelivered(l, id, node) && id in l.t.rows
    ensures !IsDelivered(ReceiveEntry(l, id, node, hasRoot, outcome, now).0, id, node)
       <==> TakesBack(l, Receive(id, node, hasRoot, outcome), id, node)
  {
    if hasRoot {
      ReceiveAt(l, id, node, outcome, now, id, node);
    } else {
      NoRoot(l, id, node, outcome, now);
    }
    hide ReceiveEntry;
  }

  /** A retry first makes the row pending, so only a receive that lands brings the delivery back. */
  lemma RetryTakes(l: Library, id: Str, node: Node, hasRoot: bool, outcome: Outcome, now: nat)
    requires Inv(l) && IsDelivered(l, id, node) && id in l.t.rows
    ensures !IsDelivered(RetryReceive(l, id, node, hasRoot, outcome, now).0, id, node)
       <==> TakesBack(l, Retry(id, node, hasRoot, outcome), id, node)
  {
    var taskId := TaskIdOf(id, node);
    if taskId in l.tasks {
      var l1 := RetryTask(l, taskId, RETRY_REQUESTED);
      assert Inv(l1) && RecipientAt(l1, id, node) == RecipientAt(l, id, node);
      ReopenAt(l1, id, node, now, id, node);
      var l2 := Reopen(l1, id, node, now);
      assert id in l2.t.rows && l2.t.rows[id].expired == l.t.rows[id].expired;
      hide Reopen, RetryTask, Inv;
      if hasRoot {
        ReceiveAt(l2, id, node, outcome, now, id, node);
      } else {
        NoRoot(l2, id, node, outcome, now);
      }
      hide ReceiveEntry;
    }
  }

  /**
   A delivery is taken back exactly by publishing the entry again without it, by a receive on an unexpired entry whose
   source, copy or check fails, by a retry that does not land, and by a report on it that does not say completed.
   */
  lemma DeliveryStays(l: Library, op: Op, now: nat, id: Str, node: Node)
    requires Inv(l) && IsDelivered(l, id, node)
    ensures id in l.t.rows
    ensures !IsDelivered(Apply(l, op, now).0, id, node) <==> TakesBack(l, op, id, node)
  {
    if !Writes(l, op, id, node) {
      OtherRecipientsStay(l, op, now, id, node);
    } else {
      hide ReceiveEntry, RetryReceive, ReportTask, PublishEntry;
      match op
      case Publish(e) => PublishTakes(l, e, now, id, node);
      case CreateReceive(id', node') => CreateAt(l, id, node, now, id, node);
      case Receive(id', node', hasRoot, outcome) => ReceiveTakes(l, id, node, hasRoot, outcome, now);
      case Retry(id', node', hasRoot, outcome) => RetryTakes(l, id, node, hasRoot, outcome, now);
      case Deliver(id', node', path) => DeliverAt(l, l, id, node, path, now, id, node);
      case Cleanup =>
      case Report(taskId, state, detail) => ReportTakes(l, taskId, state, detail, now, id, node);
    }
  }

  /** A receive that lands ends the node's wait; one that fails leaves the entry waiting, unless it is the node's own. */
  lemma ReceiveEndsTheWait(l: Library, id: Str, node: Node, outcome: Outcome, now: nat)
    requires Inv(l) && id in l.t.rows && !l.t.rows[id].expired
    ensures var l1 := ReceiveEntry(l, id, node, true, outcome, now).0;
            && Inv(l1) && id in l1.t.rows
            && (outcome.Lands? ==> !Waiting(l1, id, node))
            && (outcome.SourceMissing? || outcome.CopyFails? || outcome.VerifyFails? ==>
                  (Waiting(l1, id, node) <==> l.t.rows[id].owner != node))
  {
    ReceiveAt(l, id, node, outcome, now, id, node);
    ReceiveKeepsInv(l, id, node, true, outcome, now);
    ReceiveKeepsRow(l, id, node, outcome, now);
    hide ReceiveEntry;
  }

  lemma ReceiveKeepsRow(l: Library, id: Str, node: Node, outcome: Outcome, now: nat)
    requires Inv(l) && id in l.t.rows
    ensures var l1 := ReceiveEntry(l, id, node, true, outcome, now).0;
            && id in l1.t.rows && l1.t.rows[id].owner == l.t.rows[id].owner
            && l1.t.rows[id].expired == l.t.rows[id].expired
  {
    CreateKeepsInv(l, id, node, now);
  }

  /** A report gives a recipient that is there and a new one the same state if and only if it does not say queued. */
  lemma ReportsAgree(r: Recipient, state: T.JobState, detail: Str, now: nat)
    ensures Reported(Some(r), r.node, state, detail, now).state == Reported(None, r.node, state, detail, now).state
       <==> state != T.Queued
  {
  }
}
