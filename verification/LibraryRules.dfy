/** The shared library as a state machine: publish, receive, retry, deliver, expire, and task reports. */
module LibraryRules {
  import opened Base
  import opened SharedTables
  import T = TaskText

  /** tasks by task id. */
  datatype Library = Library(t: Tables, tasks: map<Str, T.Task>)

  datatype Status = Done | InvalidArgument | NotFound | PermissionDenied | AlreadyExists | InternalError | Exception

  /** What the file system and the integrity checker do during a receive. */
  datatype Outcome =
    | SourceMissing
    | CopyFails
    | HashThrows
    | VerifyFails(status: Status, message: Str)
    | Lands(path: Str)

  const EMPTY := Library(Tables(map[], map[]), map[])

  const ARROW := Text("->")
  const FILE_MISSING := Text("shared library file is missing")
  const NOT_MATERIALIZED := Text("failed to materialize shared file")
  const RETRY_REQUESTED := Text("manual share receive retry requested")

  function TaskIdOf(id: Str, node: Node): Str { id + ARROW + node }

  // ---------- The operations on entry, recipients and tasks ----------

  /** One node's recipient row replaced; the other rows, and other entries, stay. */
  function WithRecipient(l: Library, id: Str, row: Row, r: Recipient): Library
    requires id in l.t.recipients
  {
    l.(t := Put(l.t, id, row, l.t.recipients[id][r.node := r]))
  }

  function PublishEntry(l: Library, e: Entry): (Library, Status) {
    if e.id == [] || e.row.owner == [] || e.row.displayName == [] then (l, InvalidArgument)
    else if !Distinct(Inserted(e)) then (l, Exception)
    else (l.(t := Put(l.t, e.id, e.row, ByNode(Inserted(e)))), Done)
  }

  function CreateReceiveTask(l: Library, id: Str, node: Node, now: nat): (Library, Status)
    requires l.t.rows.Keys == l.t.recipients.Keys
  {
    if id !in l.t.rows then (l, NotFound)
    else
      var row, rs := l.t.rows[id], l.t.recipients[id];
      if row.expired then (l, PermissionDenied)
      else if node in rs && rs[node].state == Delivered then (l, AlreadyExists)
      else
        var taskId := TaskIdOf(id, node);
        var task := T.Task(taskId, T.Transfer, id, row.owner, node, T.Queued, row.createdAt, 0, row.displayName);
        var l1 := l.(tasks := l.tasks[taskId := task]);
        (WithRecipient(l1, id, row, Recipient(node, Pending, [], [], now)), Done)
  }

  /** A receive that failed marks the node's recipient row, if there is one. */
  function FailRecipient(l: Library, id: Str, node: Node, message: Str, now: nat): Library
    requires l.t.rows.Keys == l.t.recipients.Keys
  {
    if id in l.t.rows && node in l.t.recipients[id] then
      WithRecipient(l, id, l.t.rows[id], l.t.recipients[id][node].(state := Failed, error := message, updatedAt := now))
    else l
  }

  function MarkDelivered(l: Library, id: Str, node: Node, path: Str, now: nat): (Library, Status)
    requires l.t.rows.Keys == l.t.recipients.Keys
  {
    if id !in l.t.rows then (l, NotFound)
    else (WithRecipient(l, id, l.t.rows[id].(delivered := true), Recipient(node, Delivered, path, [], now)), Done)
  }

  function UpdateTask(l: Library, taskId: Str, state: T.JobState, detail: Str): Library {
    if taskId in l.tasks then l.(tasks := l.tasks[taskId := l.tasks[taskId].(state := state, detail := detail)]) else l
  }

  function ReceiveEntry(l: Library, id: Str, node: Node, hasRoot: bool, outcome: Outcome, now: nat): (Library, Status)
    requires l.t.rows.Keys == l.t.recipients.Keys
  {
    if !hasRoot then (l, InvalidArgument)
    else
      var (l1, status) := CreateReceiveTask(l, id, node, now);
      if status == NotFound || status == PermissionDenied then (l1, status)
      else
        match outcome
        case SourceMissing => (FailRecipient(l1, id, node, FILE_MISSING, now), NotFound)
        case CopyFails => (FailRecipient(l1, id, node, NOT_MATERIALIZED, now), InternalError)
        case HashThrows => (l1, InternalError)
        case VerifyFails(code, message) => (FailRecipient(l1, id, node, message, now), code)
        case Lands(path) => MarkDelivered(UpdateTask(l1, TaskIdOf(id, node), T.Completed, path), id, node, path, now)
  }

  function RetryTask(l: Library, taskId: Str, detail: Str): Library
    requires taskId in l.tasks
  {
    var task := l.tasks[taskId];
    l.(tasks := l.tasks[taskId := task.(state := T.Queued, retries := (task.retries + 1) % TWO_32, detail := detail)])
  }

  /** A retry first makes the node's row pending again; its received path stays until the receive. */
  function Reopen(l: Library, id: Str, node: Node, now: nat): Library
    requires l.t.rows.Keys == l.t.recipients.Keys
  {
    if id in l.t.rows && node in l.t.recipients[id] then
      WithRecipient(l, id, l.t.rows[id], l.t.recipients[id][node].(state := Pending, error := [], updatedAt := now))
    else l
  }

  function RetryReceive(l: Library, id: Str, node: Node, hasRoot: bool, outcome: Outcome, now: nat): (Library, Status)
    requires l.t.rows.Keys == l.t.recipients.Keys
  {
    if TaskIdOf(id, node) !in l.tasks then (l, NotFound)
    else
      var l1 := Reopen(RetryTask(l, TaskIdOf(id, node), RETRY_REQUESTED), id, node, now);
      ReceiveEntry(l1, id, node, hasRoot, outcome, now)
  }

  predicate Expires(row: Row, now: nat) {
    !row.expired && row.expiresAt != 0 && row.expiresAt <= now
  }

  function Expired(row: Row, now: nat): Row {
    if Expires(row, now) then row.(expired := true, delivered := true) else row
  }

  function CleanupExpired(l: Library, now: nat): Library {
    l.(t := l.t.(rows := map id | id in l.t.rows :: Expired(l.t.rows[id], now)))
  }

  /** The entries a cleanup marks. */
  function Overdue(l: Library, now: nat): set<Str> {
    set id | id in l.t.rows && Expires(l.t.rows[id], now)
  }

  /** The recipient row a report leaves: a "queued" report fails a row that is there, but makes a new one pending. */
  function Reported(before: Option<Recipient>, node: Node, state: T.JobState, detail: Str, now: nat): Recipient {
    match before
    case Some(r) =>
      var r1 := r.(
        state := if state == T.Completed then Delivered else if state == T.Running then Pending else Failed,
        updatedAt := now);
      if state == T.Completed then r1.(receivedPath := detail, error := [])
      else if state == T.Failed then r1.(error := detail)
      else r1
    case None =>
      Recipient(
        node, if state == T.Completed then Delivered else if state == T.Failed then Failed else Pending,
        if state == T.Completed then detail else [], if state == T.Failed then detail else [], now)
  }

  lemma ReportedNode(before: Option<Recipient>, node: Node, state: T.JobState, detail: Str, now: nat)
    requires before.Some? ==> before.value.node == node
    ensures Reported(before, node, state, detail, now).node == node
  {
  }

  /** The entry is unexpired, of another owner, and not delivered to the node. */
  predicate Waiting(l: Library, id: Str, node: Node)
    requires l.t.rows.Keys == l.t.recipients.Keys && id in l.t.rows
  {
    && !l.t.rows[id].expired && l.t.rows[id].owner != node
    && !(node in l.t.recipients[id] && l.t.recipients[id][node].state == Delivered)
  }

  function Lookup(rs: map<Node, Recipient>, node: Node): Option<Recipient> {
    if node in rs then Some(rs[node]) else None
  }

  predicate AllDelivered(rs: map<Node, Recipient>) {
    forall n | n in rs :: rs[n].state == Delivered
  }

  /** REPORT_TASK, for tasks of the transfer domain. */
  function ReportTask(l: Library, taskId: Str, state: T.JobState, detail: Str, now: nat): (Library, Status)
    requires l.t.rows.Keys == l.t.recipients.Keys
  {
    if taskId !in l.tasks then (l, NotFound)
    else
      var task := l.tasks[taskId];
      var l1 := UpdateTask(l, taskId, state, detail);
      if task.domain != T.Transfer || task.relatedId !in l.t.rows then (l1, Done)
      else
        var rs := l.t.recipients[task.relatedId];
        var rs' := rs[task.target := Reported(Lookup(rs, task.target), task.target, state, detail, now)];
        (l1.(t := Put(l.t, task.relatedId, l.t.rows[task.relatedId].(delivered := AllDelivered(rs')), rs')), Done)
  }
}
