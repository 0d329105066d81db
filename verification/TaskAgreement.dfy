/** When a transfer task and the recipient it is for agree. */
module TaskAgreement {
  import opened Base
  import opened SharedTables
  import opened LibraryRules
  import opened LibraryLaws
  import opened LibraryTasks
  import T = TaskText

  /** The transfer task of this entry and node is there. */
  predicate HasTask(l: Library, id: Str, node: Node) {
    var task := TaskAt(l, TaskIdOf(id, node));
    task.Some? && task.value.domain == T.Transfer && task.value.relatedId == id && task.value.target == node
  }

  /** The task is completed if and only if the entry is delivered to the node. */
  predicate Agree(l: Library, id: Str, node: Node) {
    HasTask(l, id, node) ==> (l.tasks[TaskIdOf(id, node)].state == T.Completed <==> IsDelivered(l, id, node))
  }

  /** What makes a task disagree with its recipient. */
  ghost predicate Breaks(l: Library, op: Op, id: Str, node: Node) {
    HasTask(l, id, node) &&
    match op
    case Publish(e) =>
      && e.id == id && PublishEntry(l, e).1 == Done
      && IsDelivered(l, id, node) != (node in ByNode(Inserted(e)) && ByNode(Inserted(e))[node].state == Delivered)
    case Receive(id', node', hasRoot, outcome) =>
      && id' == id && node' == node && hasRoot && Live(l, id) && IsDelivered(l, id, node)
      && (outcome.SourceMissing? || outcome.CopyFails? || outcome.VerifyFails?)
    case Deliver(id', node', _) => id' == id && node' == node && id in l.t.rows && !IsDelivered(l, id, node)
    case Report(taskId, state, _) => taskId == TaskIdOf(id, node) && state == T.Completed && id !in l.t.rows
    case _ => false
  }

  /** The operation is not about another entry and node that have the same task id. */
  predicate Unclashed(op: Op, id: Str, node: Node) {
    match op
    case CreateReceive(id', node') => TaskIdOf(id', node') == TaskIdOf(id, node) ==> id' == id && node' == node
    case Receive(id', node', _, _) => TaskIdOf(id', node') == TaskIdOf(id, node) ==> id' == id && node' == node
    case Retry(id', node', _, _) => TaskIdOf(id', node') == TaskIdOf(id, node) ==> id' == id && node' == node
    case _ => true
  }

  lemma PublishAgrees(l: Library, e: Entry, now: nat, id: Str, node: Node)
    requires Inv(l) && Agree(l, id, node)
    ensures !Agree(PublishEntry(l, e).0, id, node) <==> Breaks(l, Publish(e), id, node)
  {
    hide ByNode, Inserted, Distinct, TaskIdOf;
  }

  lemma CreateAgrees(l: Library, id': Str, node': Node, now: nat, id: Str, node: Node)
    requires Inv(l) && Agree(l, id, node) && Unclashed(CreateReceive(id', node'), id, node)
    ensures Agree(CreateReceiveTask(l, id', node', now).0, id, node)
  {
    CreateAt(l, id', node', now, id, node);
    hide TaskIdOf, RecipientAt;
  }

  lemma ReceiveAgrees(l: Library, op: Op, now: nat, id: Str, node: Node)
    requires Inv(l) && Agree(l, id, node) && op.Receive? && Unclashed(op, id, node)
    ensures !Agree(ReceiveEntry(l, op.id, op.node, op.hasRoot, op.outcome, now).0, id, node) <==> Breaks(l, op, id, node)
  {
    var taskId := TaskIdOf(id, node);
    assert ARROW == [45, 62];
    if op.hasRoot {
      ReceiveTask(l, op.id, op.node, op.outcome, now, taskId);
      ReceiveAt(l, op.id, op.node, op.outcome, now, id, node);
    } else {
      NoRoot(l, op.id, op.node, op.outcome, now);
    }
    hide ReceiveEntry, RecipientAt, Inv;
  }

  lemma RetryAgrees(l: Library, op: Op, now: nat, id: Str, node: Node)
    requires Inv(l) && Agree(l, id, node) && op.Retry? && Unclashed(op, id, node)
    ensures Agree(RetryReceive(l, op.id, op.node, op.hasRoot, op.outcome, now).0, id, node)
  {
    var taskId := TaskIdOf(op.id, op.node);
    if taskId in l.tasks {
      var l1 := Reopen(RetryTask(l, taskId, RETRY_REQUESTED), op.id, op.node, now);
      ReopenAgrees(l, op.id, op.node, now, id, node);
      Reopened(l, op.id, op.node, now);
      ReceiveAgrees(l1, Receive(op.id, op.node, op.hasRoot, op.outcome), now, id, node);
      hide ReceiveEntry, Reopen, RetryTask, IsDelivered, Agree, Inv;
    }
  }

  lemma ReopenAgrees(l: Library, id': Str, node': Node, now: nat, id: Str, node: Node)
    requires Inv(l) && Agree(l, id, node) && TaskIdOf(id', node') in l.tasks
    requires TaskIdOf(id', node') == TaskIdOf(id, node) ==> id' == id && node' == node
    ensures Agree(Reopen(RetryTask(l, TaskIdOf(id', node'), RETRY_REQUESTED), id', node', now), id, node)
  {
    var l1 := RetryTask(l, TaskIdOf(id', node'), RETRY_REQUESTED);
    assert Inv(l1);
    ReopenAt(l1, id', node', now, id, node);
    hide TaskIdOf;
  }

  lemma ReportAgrees(l: Library, taskId: Str, state: T.JobState, detail: Str, now: nat, id: Str, node: Node)
    requires Inv(l) && Agree(l, id, node)
    ensures !Agree(ReportTask(l, taskId, state, detail, now).0, id, node)
       <==> Breaks(l, Report(taskId, state, detail), id, node)
  {
    if taskId in l.tasks {
      ReportEffect(l, taskId, state, detail, now);
      if taskId != TaskIdOf(id, node) {
        if l.tasks[taskId].domain == T.Transfer {
          ReportElsewhere(l, taskId, state, detail, now, id, node);
        } else {
          ReportOther(l, taskId, state, detail, now);
        }
      }
      hide ReportTask, TaskIdOf;
    }
  }

  lemma ReportOther(l: Library, taskId: Str, state: T.JobState, detail: Str, now: nat)
    requires Inv(l) && taskId in l.tasks && l.tasks[taskId].domain != T.Transfer
    ensures ReportTask(l, taskId, state, detail, now).0.t == l.t
  {
  }

  /**
   A task and its recipient that agree go on to agree, except after a delivery without the task, a receive that fails
   on what was delivered before, an entry published anew with another delivery, and a completion of a lost entry.
   */
  lemma AgreementBreaks(l: Library, op: Op, now: nat, id: Str, node: Node)
    requires Inv(l) && Agree(l, id, node) && Unclashed(op, id, node)
    ensures !Agree(Apply(l, op, now).0, id, node) <==> Breaks(l, op, id, node)
  {
    match op
    case Publish(e) => PublishAgrees(l, e, now, id, node);
    case CreateReceive(id', node') => CreateAgrees(l, id', node', now, id, node);
    case Receive(id', node', hasRoot, outcome) => ReceiveAgrees(l, op, now, id, node);
    case Retry(id', node', hasRoot, outcome) => RetryAgrees(l, op, now, id, node);
    case Deliver(id', node', path) => DeliverAt(l, l, id', node', path, now, id, node);
    case Cleanup =>
    case Report(taskId, state, detail) => ReportAgrees(l, taskId, state, detail, now, id, node);
    hide ReceiveEntry, RetryReceive, ReportTask, CreateReceiveTask, PublishEntry, ByNode, Inserted;
  }

  /** Entry ids without a '-' never share a task id. */
  lemma TaskIdsApart(id: Str, node: Node, id': Str, node': Node)
    requires 45 !in id && 45 !in id' && TaskIdOf(id, node) == TaskIdOf(id', node')
    ensures id == id' && node == node'
  {
    var s := TaskIdOf(id, node);
    assert ARROW == [45, 62];
    assert s[|id|] == 45 && s[|id'|] == 45;
    assert forall i | 0 <= i < |id| :: s[i] == id[i];
    assert forall i | 0 <= i < |id'| :: s[i] == id'[i];
    assert s[..|id|] == id && s[..|id'|] == id' && s[|id| + 2..] == node && s[|id'| + 2..] == node';
  }

  /** With one, two pairs can have one task id, and so one task. */
  lemma TaskIdsClash(a: Str, b: Str, c: Str)
    ensures TaskIdOf(a + ARROW + b, c) == TaskIdOf(a, b + ARROW + c)
  {
  }
}
