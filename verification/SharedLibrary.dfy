/** SharedLibraryService and the REPORT_TASK step of the control node, proved against LibraryRules. */
module SharedLibrary {
  import opened Base
  import opened SharedTables
  import L = LibraryTasks
  import R = LibraryRules
  import T = TaskText

  /** FindRecipientIndex: the first recipient with this node. */
  method FindRecipientIndex(e: Entry, node: Node) returns (r: Option<nat>)
    ensures r.Some? ==> r.value < |e.recipients| && e.recipients[r.value].node == node
    ensures r.Some? ==> forall j | 0 <= j < r.value :: e.recipients[j].node != node
    ensures r.None? ==> node !in ByNode(e.recipients)
    ensures r.Some? && Distinct(e.recipients) ==>
              node in ByNode(e.recipients) && ByNode(e.recipients)[node] == e.recipients[r.value]
  {
    hide ByNode;
    ByNodeCollects(e.recipients);
    for i := 0 to |e.recipients|
      invariant forall j | 0 <= j < i :: e.recipients[j].node != node
    {
      if e.recipients[i].node == node {
        return Some(i);
      }
    }
    r := None;
  }

  /** Storing an entry whose recipient at i was replaced, or that got a new one, updates the map and cannot fail. */
  lemma StoredUpdate(t: Tables, id: Str, e: Entry, i: Option<nat>, r: Recipient)
    requires Loaded(t, id, e)
    requires i.Some? ==> i.value < |e.recipients| && e.recipients[i.value].node == r.node
    requires i.None? ==> r.node !in ByNode(e.recipients)
    ensures var recipients := if i.Some? then e.recipients[i.value := r] else e.recipients + [r];
            && recipients != [] && Distinct(recipients) && ByNode(recipients) == t.recipients[id][r.node := r]
  {
    hide ByNode, Distinct;
    if i.Some? {
      ReplaceIsUpdate(e.recipients, i.value, r);
    } else {
      DistinctSnoc(e.recipients, r);
      AppendIsUpdate(e.recipients, r);
    }
  }

  class Service {
    const store: Store
    var tasks: map<Str, T.Task>

    ghost predicate Valid()
      reads this, store
    {
      SharedTables.Valid(store.t)
    }

    ghost function State(): R.Library
      reads this, store
    {
      R.Library(store.t, tasks)
    }

    constructor ()
      ensures Valid() && State() == R.EMPTY && fresh(store) && store.violations == 0
    {
      store := new Store();
      tasks := map[];
    }

    method PublishEntry(e: Entry) returns (status: R.Status)
      requires Valid()
      modifies store
      ensures store.violations == old(store.violations) + if status == R.Exception then 1 else 0
      ensures Valid() && (State(), status) == R.PublishEntry(old(State()), e)
    {
      hide ByNode, Inserted;
      if e.id == [] || e.row.owner == [] || e.row.displayName == [] {
        return R.InvalidArgument;
      }
      ByNodeCollects(Inserted(e));
      var existing := store.GetSharedLibraryEntry(e.id);
      var stored := store.UpsertSharedLibraryEntry(e);
      status := if stored.Ok? then R.Done else R.Exception;
    }

    /** Replaces or adds the node's recipient in a loaded entry, and stores it. */
    method StoreRecipient(e: Entry, index: Option<nat>, row: Row, r: Recipient)
      requires Valid() && Loaded(store.t, e.id, e)
      requires index.Some? ==> index.value < |e.recipients| && e.recipients[index.value].node == r.node
      requires index.None? ==> r.node !in ByNode(e.recipients)
      modifies store
      ensures store.violations == old(store.violations)
      ensures Valid() && store.t == Put(old(store.t), e.id, row, old(store.t).recipients[e.id][r.node := r])
    {
      hide ByNode, Distinct;
      StoredUpdate(store.t, e.id, e, index, r);
      var recipients := if index.Some? then e.recipients[index.value := r] else e.recipients + [r];
      var stored := store.UpsertSharedLibraryEntry(e.(row := row, recipients := recipients));
    }

    method CreateReceiveTask(id: Str, node: Node, now: nat) returns (status: R.Status)
      requires Valid()
      modifies this, store
      ensures store.violations == old(store.violations)
      ensures Valid() && (State(), status) == R.CreateReceiveTask(old(State()), id, node, now)
    {
      hide ByNode, Distinct;
      var loaded := store.GetSharedLibraryEntry(id);
      if loaded.None? {
        return R.NotFound;
      }
      var e := loaded.value;
      if e.row.expired {
        return R.PermissionDenied;
      }
      var index := FindRecipientIndex(e, node);
      if index.Some? && e.recipients[index.value].state == Delivered {
        return R.AlreadyExists;
      }
      var taskId := R.TaskIdOf(id, node);
      tasks := tasks[taskId :=
        T.Task(taskId, T.Transfer, id, e.row.owner, node, T.Queued, e.row.createdAt, 0, e.row.displayName)];
      var r :=
        if index.Some? then e.recipients[index.value].(state := Pending, receivedPath := [], error := [], updatedAt := now)
        else Recipient(node, Pending, [], [], now);
      StoreRecipient(e, index, e.row, r);
      status := R.Done;
    }

    /** The failure branches of a receive. */
    method FailRecipient(id: Str, node: Node, message: Str, now: nat)
      requires Valid()
      modifies store
      ensures store.violations == old(store.violations)
      ensures Valid() && State() == R.FailRecipient(old(State()), id, node, message, now)
    {
      hide ByNode, Distinct;
      var loaded := store.GetSharedLibraryEntry(id);
      if loaded.Some? {
        var e := loaded.value;
        var index := FindRecipientIndex(e, node);
        if index.Some? {
          var r := e.recipients[index.value].(state := Failed, error := message, updatedAt := now);
          StoreRecipient(e, index, e.row, r);
        }
      }
    }

    method MarkDelivered(id: Str, node: Node, path: Str, now: nat) returns (status: R.Status)
      requires Valid()
      modifies store
      ensures store.violations == old(store.violations)
      ensures Valid() && (State(), status) == R.MarkDelivered(old(State()), id, node, path, now)
    {
      hide ByNode, Distinct;
      var loaded := store.GetSharedLibraryEntry(id);
      if loaded.None? {
        return R.NotFound;
      }
      var e := loaded.value;
      var index := FindRecipientIndex(e, node);
      var r :=
        if index.Some? then
          e.recipients[index.value].(state := Delivered, receivedPath := path, error := [], updatedAt := now)
        else Recipient(node, Delivered, path, [], now);
      StoreRecipient(e, index, e.row.(delivered := true), r);
      status := R.Done;
    }

    method ReceiveEntry(id: Str, node: Node, hasRoot: bool, outcome: R.Outcome, now: nat) returns (status: R.Status)
      requires Valid()
      modifies this, store
      ensures store.violations == old(store.violations)
      ensures Valid() && (State(), status) == R.ReceiveEntry(old(State()), id, node, hasRoot, outcome, now)
      ensures var taskId := R.TaskIdOf(id, node);
              hasRoot && L.Live(old(State()), id) && outcome.Lands? && taskId in tasks ==>
                tasks[taskId].state == T.Completed && tasks[taskId].detail == outcome.path
    {
      L.ReceiveTask(State(), id, node, outcome, now, R.TaskIdOf(id, node));
      if !hasRoot {
        return R.InvalidArgument;
      }
      status := CreateReceiveTask(id, node, now);
      if status != R.Done && status != R.AlreadyExists {
        return;
      }
      match outcome
      case SourceMissing =>
        FailRecipient(id, node, R.FILE_MISSING, now);
        status := R.NotFound;
      case CopyFails =>
        FailRecipient(id, node, R.NOT_MATERIALIZED, now);
        status := R.InternalError;
      case HashThrows =>
        status := R.InternalError;
      case VerifyFails(code, message) =>
        FailRecipient(id, node, message, now);
        status := code;
      case Lands(path) =>
        UpdateTaskState(R.TaskIdOf(id, node), T.Completed, path);
        status := MarkDelivered(id, node, path, now);
    }

    method UpdateTaskState(taskId: Str, state: T.JobState, detail: Str)
      requires Valid()
      modifies this`tasks
      ensures Valid() && State() == R.UpdateTask(old(State()), taskId, state, detail)
    {
      if taskId in tasks {
        tasks := tasks[taskId := tasks[taskId].(state := state, detail := detail)];
      }
    }

    method RetryReceive(id: Str, node: Node, hasRoot: bool, outcome: R.Outcome, now: nat) returns (status: R.Status)
      requires Valid()
      modifies this, store
      ensures store.violations == old(store.violations)
      ensures Valid() && (State(), status) == R.RetryReceive(old(State()), id, node, hasRoot, outcome, now)
    {
      hide ByNode, Distinct, R.ReceiveEntry;
      var taskId := R.TaskIdOf(id, node);
      if taskId !in tasks {
        return R.NotFound;
      }
      var task := tasks[taskId];
      tasks := tasks[taskId :=
        task.(state := T.Queued, retries := (task.retries + 1) % TWO_32, detail := R.RETRY_REQUESTED)];
      var loaded := store.GetSharedLibraryEntry(id);
      if loaded.Some? {
        var e := loaded.value;
        var index := FindRecipientIndex(e, node);
        if index.Some? {
          var r := e.recipients[index.value].(state := Pending, error := [], updatedAt := now);
          StoreRecipient(e, index, e.row, r);
        }
      }
      assert State() == R.Reopen(R.RetryTask(old(State()), taskId, R.RETRY_REQUESTED), id, node, now);
      status := ReceiveEntry(id, node, hasRoot, outcome, now);
    }

    /** Marks one entry as expired; its recipients stay. */
    method Expire(e: Entry)
      requires Valid() && Loaded(store.t, e.id, e)
      modifies store
      ensures store.violations == old(store.violations)
      ensures Valid()
      ensures store.t == Marked(old(store.t), e)
    {
      hide ByNode, Distinct;
      InsertedIsLoaded(store.t, e.id, e);
      var stored := store.UpsertSharedLibraryEntry(e.(row := e.row.(expired := true, delivered := true)));
      assert store.t.recipients == old(store.t).recipients;
    }

    /** Marks every entry whose time is over, one by one, and counts them. */
    method CleanupExpired(now: nat) returns (removed: nat)
      requires Valid()
      modifies store
      ensures store.violations == old(store.violations)
      ensures Valid() && State() == R.CleanupExpired(old(State()), now)
      ensures store.t.rows.Keys == old(store.t).rows.Keys && store.t.recipients == old(store.t).recipients
      ensures forall id | id in store.t.rows ::
                store.t.rows[id].expired <==> old(store.t).rows[id].expired || 0 < old(store.t).rows[id].expiresAt <= now
      ensures removed ==
                |set id | id in old(store.t).rows && !old(store.t).rows[id].expired
                          && 0 < old(store.t).rows[id].expiresAt <= now|
    {
      hide ByNode, Distinct, SharedTables.Valid, R.Expires, R.Expired;
      var entries := store.ListSharedLibraryEntries();
      removed := 0;
      ghost var start, done := store.t, {};
      LoadedRows(start, entries);
      NothingSwept(start, now);
      for i := 0 to |entries|
        invariant Valid() && store.t == Swept(start, done, now) && removed == |Gone(start, done, now)|
        invariant store.violations == old(store.violations)
        invariant done == (set j | 0 <= j < i :: entries[j].id)
      {
        var e := entries[i];
        assert Loaded(start, e.id, e);
        SweepOne(start, done, e, now);
        assert e.id !in done;
        hide Swept, Gone, Loaded;
        if R.Expires(e.row, now) {
          Expire(e);
          removed := removed + 1;
        }
        done := done + {e.id};
      }
      assert forall id | id in start.rows :: id in done;
      SweptAll(start, done, now);
      L.CleanupEffect(R.Library(start, tasks), now);
    }

    /** The entries that wait for a node: unexpired, of another owner, and not delivered to it. */
    method ListPendingEntriesForNode(node: Node) returns (result: seq<Entry>)
      requires Valid()
      ensures forall e | e in result :: Loaded(store.t, e.id, e) && R.Waiting(State(), e.id, node)
      ensures forall id | id in store.t.rows && R.Waiting(State(), id, node) :: exists e :: e in result && e.id == id
    {
      hide ByNode, Distinct;
      var entries := store.ListSharedLibraryEntries();
      LoadedRows(store.t, entries);
      result := [];
      for i := 0 to |entries|
        invariant forall e | e in result :: Loaded(store.t, e.id, e) && R.Waiting(State(), e.id, node)
        invariant forall j | 0 <= j < i && R.Waiting(State(), entries[j].id, node) :: entries[j] in result
      {
        var e := entries[i];
        assert Loaded(store.t, e.id, e);
        hide Listed, Loaded;
        var delivered, open := NodeStates(e.recipients, node);
        NodeStatesAre(store.t, e.id, e, node, delivered, open);
        if !e.row.expired && e.row.owner != node && (!delivered || open) {
          result := result + [e];
        }
      }
      forall id | id in store.t.rows && R.Waiting(State(), id, node)
        ensures exists e :: e in result && e.id == id
      {
        var i :| 0 <= i < |entries| && entries[i].id == id;
        assert entries[i] in result;
      }
    }

    method ReportTask(taskId: Str, state: T.JobState, detail: Str, now: nat) returns (status: R.Status)
      requires Valid()
      modifies this, store
      ensures store.violations == old(store.violations)
      ensures Valid() && (State(), status) == R.ReportTask(old(State()), taskId, state, detail, now)
    {
      hide ByNode, Distinct, R.Reported;
      if taskId !in tasks {
        return R.NotFound;
      }
      var task := tasks[taskId];
      UpdateTaskState(taskId, state, detail);
      status := R.Done;
      if task.domain == T.Transfer {
        var loaded := store.GetSharedLibraryEntry(task.relatedId);
        if loaded.Some? {
          var e := loaded.value;
          var index := FindRecipientIndex(e, task.target);
          var r := R.Reported(
            if index.Some? then Some(e.recipients[index.value]) else None, task.target, state, detail, now);
          assert r.node == task.target by {
            R.ReportedNode(if index.Some? then Some(e.recipients[index.value]) else None, task.target, state, detail, now);
          }
          StoredUpdate(store.t, e.id, e, index, r);
          var recipients := if index.Some? then e.recipients[index.value := r] else e.recipients + [r];
          var all := AllAreDelivered(recipients);
          StoreRecipient(e, index, e.row.(delivered := all), r);
        }
      }
    }
  }

  lemma LoadedRows(t: Tables, entries: seq<Entry>)
    requires Listed(t, entries, {})
    ensures forall i | 0 <= i < |entries| :: entries[i].id in t.rows && t.rows[entries[i].id] == entries[i].row
  {
    forall i | 0 <= i < |entries|
      ensures entries[i].id in t.rows && t.rows[entries[i].id] == entries[i].row
    {
      assert Loaded(t, entries[i].id, entries[i]);
    }
  }

  /** The tables after an entry is marked as expired. */
  ghost function Marked(t: Tables, e: Entry): Tables {
    t.(rows := t.rows[e.id := e.row.(expired := true, delivered := true)])
  }

  /** The tables when the entries done have been looked at, and those of them whose time is over. */
  ghost function Swept(start: Tables, done: set<Str>, now: nat): Tables {
    start.(rows := map id | id in start.rows :: if id in done then R.Expired(start.rows[id], now) else start.rows[id])
  }

  ghost function Gone(start: Tables, done: set<Str>, now: nat): set<Str> {
    set id | id in start.rows && id in done && R.Expires(start.rows[id], now)
  }

  lemma NothingSwept(start: Tables, now: nat)
    ensures Swept(start, {}, now) == start && Gone(start, {}, now) == {}
  {
  }

  lemma SweepOne(start: Tables, done: set<Str>, e: Entry, now: nat)
    requires Loaded(start, e.id, e) && e.id !in done
    ensures var t, gone := Swept(start, done, now), Gone(start, done, now);
            && Loaded(t, e.id, e)
            && Swept(start, done + {e.id}, now) == (if R.Expires(e.row, now) then Marked(t, e) else t)
            && |Gone(start, done + {e.id}, now)| == |gone| + (if R.Expires(e.row, now) then 1 else 0)
  {
    var gone, more := Gone(start, done, now), Gone(start, done + {e.id}, now);
    assert more == if R.Expires(e.row, now) then gone + {e.id} else gone;
    var t := Swept(start, done, now);
    assert Swept(start, done + {e.id}, now).rows == if R.Expires(e.row, now) then Marked(t, e).rows else t.rows;
  }

  lemma SweptAll(start: Tables, done: set<Str>, now: nat)
    requires forall id | id in start.rows :: id in done
    ensures Swept(start, done, now)
         == Tables(map id | id in start.rows :: R.Expired(start.rows[id], now), start.recipients)
    ensures Gone(start, done, now) == set id | id in start.rows && R.Expires(start.rows[id], now)
  {
  }

  /** A loaded entry stored again inserts the recipients it was loaded with. */
  lemma InsertedIsLoaded(t: Tables, id: Str, e: Entry)
    requires Loaded(t, id, e)
    ensures Distinct(Inserted(e)) && ByNode(Inserted(e)) == t.recipients[id]
  {
  }

  /** The inner loop of the pending list: which states a node has among the recipients. */
  method NodeStates(recipients: seq<Recipient>, node: Node) returns (delivered: bool, open: bool)
    ensures delivered <==> exists r :: r in recipients && r.node == node && r.state == Delivered
    ensures open <==> exists r :: r in recipients && r.node == node && r.state != Delivered
  {
    delivered, open := false, false;
    for i := 0 to |recipients|
      invariant delivered <==> exists r :: r in recipients[..i] && r.node == node && r.state == Delivered
      invariant open <==> exists r :: r in recipients[..i] && r.node == node && r.state != Delivered
    {
      assert recipients[..i + 1] == recipients[..i] + [recipients[i]];
      if recipients[i].node == node {
        if recipients[i].state == Delivered {
          delivered := true;
        }
        if recipients[i].state == Pending || recipients[i].state == Failed {
          open := true;
        }
      }
    }
    assert recipients[..|recipients|] == recipients;
  }

  lemma NodeStatesAre(t: Tables, id: Str, e: Entry, node: Node, delivered: bool, open: bool)
    requires Loaded(t, id, e)
    requires delivered <==> exists r :: r in e.recipients && r.node == node && r.state == Delivered
    requires open <==> exists r :: r in e.recipients && r.node == node && r.state != Delivered
    ensures !delivered || open <==> !(node in t.recipients[id] && t.recipients[id][node].state == Delivered)
  {
    ByNodeCollects(e.recipients);
    forall i | 0 <= i < |e.recipients|
      ensures t.recipients[id][e.recipients[i].node] == e.recipients[i]
    {
      DistinctByNode(e.recipients, i);
    }
    hide ByNode;
    if node in t.recipients[id] {
      assert t.recipients[id][node] in e.recipients;
    }
  }

  method AllAreDelivered(recipients: seq<Recipient>) returns (all: bool)
    requires Distinct(recipients)
    ensures all == R.AllDelivered(ByNode(recipients))
  {
    ByNodeCollects(recipients);
    for i := 0 to |recipients|
      invariant forall j | 0 <= j < i :: recipients[j].state == Delivered
    {
      if recipients[i].state != Delivered {
        DistinctByNode(recipients, i);
        return false;
      }
    }
    all := true;
  }
}
