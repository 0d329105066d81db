/** shared_library_entries and shared_library_recipients: loading and storing one entry with its recipients. */
module SharedTables {
  import opened Base

  type Node = Str

  datatype RecipientState = Pending | Delivered | Failed

  datatype Recipient = Recipient(node: Node, state: RecipientState, receivedPath: Str, error: Str, updatedAt: nat)

  /** A row of shared_library_entries, without its key. */
  datatype Row = Row(
    owner: Node, sourcePath: Str, fileId: Str, displayName: Str, note: Str,
    createdAt: nat, expiresAt: nat, expired: bool, delivered: bool)

  /** An entry in memory. */
  datatype Entry = Entry(id: Str, row: Row, nodes: seq<Node>, recipients: seq<Recipient>)

  /** rows by entry_id; recipients by entry_id and node_id, the primary key. */
  datatype Tables = Tables(rows: map<Str, Row>, recipients: map<Str, map<Node, Recipient>>)

  /** Every entry has its recipient rows, each under its own node. */
  ghost predicate Valid(t: Tables) {
    && t.rows.Keys == t.recipients.Keys
    && forall id, n | id in t.recipients && n in t.recipients[id] :: t.recipients[id][n].node == n
  }

  function Put(t: Tables, id: Str, row: Row, recipients: map<Node, Recipient>): Tables {
    Tables(t.rows[id := row], t.recipients[id := recipients])
  }

  predicate Distinct(recipients: seq<Recipient>) {
    forall i, j | 0 <= i < j < |recipients| :: recipients[i].node != recipients[j].node
  }

  /** The recipients by node. */
  function ByNode(recipients: seq<Recipient>): map<Node, Recipient> {
    if recipients == [] then map[]
    else
      var last := recipients[|recipients| - 1];
      ByNode(recipients[..|recipients| - 1])[last.node := last]
  }

  /** What the upsert inserts: the recipients, or without any the plain node list as delivered. */
  function Inserted(e: Entry): seq<Recipient> {
    if e.recipients != [] then e.recipients
    else seq(|e.nodes|, i requires 0 <= i < |e.nodes| => Recipient(e.nodes[i], Delivered, [], [], e.row.createdAt))
  }

  /** e is what the two SELECTs for id give, in whatever order the node ids have. */
  ghost predicate Loaded(t: Tables, id: Str, e: Entry) {
    && id in t.rows && id in t.recipients
    && e.id == id && e.row == t.rows[id]
    && Distinct(e.recipients) && ByNode(e.recipients) == t.recipients[id]
    && |e.nodes| == |e.recipients| && forall i | 0 <= i < |e.nodes| :: e.nodes[i] == e.recipients[i].node
  }

  // ---------- First-match updates are map updates ----------

  /** m has exactly the recipients' nodes, each with one of the recipients. */
  ghost predicate Collects(recipients: seq<Recipient>, m: map<Node, Recipient>) {
    && (forall i | 0 <= i < |recipients| :: recipients[i].node in m)
    && (forall n | n in m :: exists i :: 0 <= i < |recipients| && recipients[i].node == n && recipients[i] == m[n])
  }

  lemma CollectsSnoc(recipients: seq<Recipient>, m: map<Node, Recipient>, r: Recipient)
    requires Collects(recipients, m)
    ensures Collects(recipients + [r], m[r.node := r])
  {
    var all, m' := recipients + [r], m[r.node := r];
    forall n | n in m'
      ensures exists i :: 0 <= i < |all| && all[i].node == n && all[i] == m'[n]
    {
      if n == r.node {
        assert all[|recipients|] == r;
      } else {
        var i :| 0 <= i < |recipients| && recipients[i].node == n && recipients[i] == m[n];
        assert all[i] == recipients[i];
      }
    }
  }

  lemma {:induction false} ByNodeCollects(recipients: seq<Recipient>)
    ensures Collects(recipients, ByNode(recipients))
  {
    if recipients != [] {
      var front, last := recipients[..|recipients| - 1], recipients[|recipients| - 1];
      ByNodeCollects(front);
      CollectsSnoc(front, ByNode(front), last);
      assert front + [last] == recipients;
    }
  }

  /** Distinct recipients are one map by node, whatever their order. */
  lemma CollectedOnce(recipients: seq<Recipient>, m: map<Node, Recipient>)
    requires Distinct(recipients) && Collects(recipients, m)
    ensures ByNode(recipients) == m
  {
    var b := ByNode(recipients);
    ByNodeCollects(recipients);
    hide ByNode;
    forall n | n in m
      ensures n in b && b[n] == m[n]
    {
      var i :| 0 <= i < |recipients| && recipients[i].node == n && recipients[i] == m[n];
      var j :| 0 <= j < |recipients| && recipients[j].node == n && recipients[j] == b[n];
    }
    forall n | n in b
      ensures n in m
    {
      var j :| 0 <= j < |recipients| && recipients[j].node == n && recipients[j] == b[n];
    }
  }

  lemma DistinctByNode(recipients: seq<Recipient>, i: nat)
    requires Distinct(recipients) && i < |recipients|
    ensures recipients[i].node in ByNode(recipients) && ByNode(recipients)[recipients[i].node] == recipients[i]
  {
    ByNodeCollects(recipients);
  }

  lemma DistinctSnoc(recipients: seq<Recipient>, r: Recipient)
    ensures Distinct(recipients + [r]) <==> Distinct(recipients) && r.node !in ByNode(recipients)
  {
    var all := recipients + [r];
    ByNodeCollects(recipients);
    assert all[|recipients|] == r && forall i | 0 <= i < |recipients| :: all[i] == recipients[i];
  }

  lemma AppendIsUpdate(recipients: seq<Recipient>, r: Recipient)
    ensures ByNode(recipients + [r]) == ByNode(recipients)[r.node := r]
  {
    assert (recipients + [r])[..|recipients|] == recipients;
  }

  lemma ReplaceIsUpdate(recipients: seq<Recipient>, i: nat, r: Recipient)
    requires Distinct(recipients) && i < |recipients| && recipients[i].node == r.node
    ensures Distinct(recipients[i := r]) && ByNode(recipients[i := r]) == ByNode(recipients)[r.node := r]
  {
    var updated, m := recipients[i := r], ByNode(recipients);
    var m' := m[r.node := r];
    ByNodeCollects(recipients);
    hide ByNode;
    forall n | n in m'
      ensures exists j :: 0 <= j < |updated| && updated[j].node == n && updated[j] == m'[n]
    {
      if n == r.node {
        assert updated[i] == r;
      } else {
        var j :| 0 <= j < |recipients| && recipients[j].node == n && recipients[j] == m[n];
        assert updated[j] == recipients[j];
      }
    }
    CollectedOnce(updated, m');
  }

  /** The rows read so far and those still to come make up the table. */
  ghost predicate Reading(recipients: seq<Recipient>, rows: map<Node, Recipient>, all: map<Node, Recipient>) {
    && Distinct(recipients) && rows.Keys !! ByNode(recipients).Keys
    && (forall n | n in rows :: n in all && rows[n] == all[n] && rows[n].node == n)
    && (forall n | n in ByNode(recipients) :: n in all && ByNode(recipients)[n] == all[n])
    && (forall n | n in all :: n in rows || n in ByNode(recipients))
  }

  lemma ReadOne(recipients: seq<Recipient>, rows: map<Node, Recipient>, all: map<Node, Recipient>, n: Node)
    requires Reading(recipients, rows, all) && n in rows
    ensures Reading(recipients + [rows[n]], rows - {n}, all)
  {
    DistinctSnoc(recipients, rows[n]);
    AppendIsUpdate(recipients, rows[n]);
  }

  lemma ReadAll(recipients: seq<Recipient>, all: map<Node, Recipient>)
    requires Reading(recipients, map[], all)
    ensures Distinct(recipients) && ByNode(recipients) == all
  {
  }

  /** The entries listed so far; those of the ids left are still to come. */
  ghost predicate Listed(t: Tables, entries: seq<Entry>, left: set<Str>) {
    && left <= t.rows.Keys
    && (forall i | 0 <= i < |entries| :: Loaded(t, entries[i].id, entries[i]) && entries[i].id !in left)
    && (forall i, j | 0 <= i < j < |entries| :: entries[i].id != entries[j].id)
    && (forall id | id in t.rows && id !in left :: exists i :: 0 <= i < |entries| && entries[i].id == id)
  }

  lemma ListOne(t: Tables, entries: seq<Entry>, left: set<Str>, id: Str, e: Entry)
    requires Listed(t, entries, left) && id in left && Loaded(t, id, e)
    ensures Listed(t, entries + [e], left - {id})
  {
    assert e.id == id;
    hide Loaded;
    var all := entries + [e];
    assert all[|entries|] == e && forall i | 0 <= i < |entries| :: all[i] == entries[i];
    forall other | other in t.rows && other !in left - {id}
      ensures exists i :: 0 <= i < |all| && all[i].id == other
    {
      if other == id {
        assert all[|entries|].id == id;
      } else {
        var i :| 0 <= i < |entries| && entries[i].id == other;
        assert all[i].id == other;
      }
    }
  }

  // ---------- The store ----------

  class Store {
    var t: Tables
    ghost var violations: nat  // how often a plain INSERT met a key that was taken

    constructor ()
      ensures t == Tables(map[], map[]) && violations == 0
    {
      t, violations := Tables(map[], map[]), 0;
    }

    method GetSharedLibraryEntry(id: Str) returns (e: Option<Entry>)
      requires Valid(t)
      ensures e.Some? <==> id in t.rows
      ensures e.Some? ==> Loaded(t, id, e.value)
    {
      if id !in t.rows {
        return None;
      }
      var recipients, nodes := ReadRecipients(t.recipients[id]);
      e := Some(Entry(id, t.rows[id], nodes, recipients));
    }

    static method ReadRecipients(all: map<Node, Recipient>) returns (recipients: seq<Recipient>, nodes: seq<Node>)
      requires forall n | n in all :: all[n].node == n
      ensures Distinct(recipients) && ByNode(recipients) == all
      ensures |nodes| == |recipients| && forall i | 0 <= i < |nodes| :: nodes[i] == recipients[i].node
    {
      var rows := all;
      recipients, nodes := [], [];
      while rows != map[]
        invariant Reading(recipients, rows, all)
        invariant |nodes| == |recipients| && forall i | 0 <= i < |nodes| :: nodes[i] == recipients[i].node
        decreases |rows|
      {
        assert rows.Keys != {};
        var n :| n in rows;
        assert rows[n].node == n;
        hide Reading;
        ReadOne(recipients, rows, all, n);
        recipients, nodes := recipients + [rows[n]], nodes + [n];
        rows := rows - {n};
      }
      ReadAll(recipients, all);
    }

    /** Every entry once, in whatever order. */
    method ListSharedLibraryEntries() returns (entries: seq<Entry>)
      requires Valid(t)
      ensures Listed(t, entries, {})
    {
      hide Valid;
      entries := [];
      var ids := t.rows.Keys;
      while ids != {}
        invariant Listed(t, entries, ids)
        decreases |ids|
      {
        var id :| id in ids;
        assert id in t.rows;
        hide Listed;
        var e := GetSharedLibraryEntry(id);
        ListOne(t, entries, ids, id, e.value);
        entries, ids := entries + [e.value], ids - {id};
      }
    }

    /** Row upsert, deletion of the old recipients, and plain INSERTs; a repeated node rolls everything back. */
    method UpsertSharedLibraryEntry(e: Entry) returns (r: Result<()>)
      modifies this
      ensures r.Ok? <==> Distinct(Inserted(e))
      ensures t == if r.Ok? then Put(old(t), e.id, e.row, ByNode(Inserted(e))) else old(t)
      ensures violations == old(violations) + if r.Ok? then 0 else 1
    {
      var saved := t;
      t := Put(t, e.id, e.row, map[]);
      r := InsertRecipients(e.id, Inserted(e));
      if r.Err? {
        t := saved;
      }
    }

    /** The plain INSERTs under an entry that has no recipient rows. */
    method InsertRecipients(id: Str, rows: seq<Recipient>) returns (r: Result<()>)
      requires id in t.recipients && t.recipients[id] == map[]
      modifies this
      ensures r.Ok? <==> Distinct(rows)
      ensures r.Ok? ==> t == old(t).(recipients := old(t).recipients[id := ByNode(rows)])
      ensures violations == old(violations) + if r.Ok? then 0 else 1
    {
      ghost var start := t;
      for i := 0 to |rows|
        invariant Distinct(rows[..i]) && t == start.(recipients := start.recipients[id := ByNode(rows[..i])])
        invariant violations == old(violations)
      {
        hide ByNode;
        assert rows[..i + 1] == rows[..i] + [rows[i]];
        DistinctSnoc(rows[..i], rows[i]);
        AppendIsUpdate(rows[..i], rows[i]);
        if rows[i].node in t.recipients[id] {
          assert !Distinct(rows[..i + 1]);
          violations := violations + 1;
          return Err;
        }
        hide Distinct;
        t := t.(recipients := t.recipients[id := t.recipients[id][rows[i].node := rows[i]]]);
      }
      assert rows[..|rows|] == rows;
      r := Ok(());
    }
  }
}
