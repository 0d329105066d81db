/** PULL_TASKS: the queued tasks of a node as lines of text, and back. */
module TaskText {
  import opened Base
  import D = Decimal
  import opened Lines

  datatype Domain = Backup | Transfer | Restore
  datatype JobState = Queued | Running | Completed | Failed

  datatype Task = Task(
    id: Str, domain: Domain, relatedId: Str, source: Str, target: Str, state: JobState,
    createdAt: nat, retries: nat, detail: Str)

  const TASK := Text("TASK")
  const END := Text("END")
  const OK_TASKS := Text("OK TASKS ")
  const BACKUP := Text("backup")
  const TRANSFER := Text("transfer")
  const RESTORE := Text("restore")
  const QUEUED := Text("queued")
  const RUNNING := Text("running")
  const COMPLETED := Text("completed")
  const FAILED := Text("failed")

  function DomainName(d: Domain): Str {
    match d
    case Backup => BACKUP
    case Transfer => TRANSFER
    case Restore => RESTORE
  }

  function ParseDomain(s: Str): Domain {
    if s == BACKUP then Backup else if s == TRANSFER then Transfer else Restore
  }

  function StateName(s: JobState): Str {
    match s
    case Queued => QUEUED
    case Running => RUNNING
    case Completed => COMPLETED
    case Failed => FAILED
  }

  function ParseState(s: Str): JobState {
    if s == QUEUED then Queued else if s == RUNNING then Running else if s == COMPLETED then Completed else Failed
  }

  lemma NamesReadBack(d: Domain, s: JobState)
    ensures ParseDomain(DomainName(d)) == d && ParseState(StateName(s)) == s
  {
    assert |BACKUP| == 6 && |TRANSFER| == 8 && |RESTORE| == 7;
    assert |QUEUED| == 6 && |RUNNING| == 7 && |COMPLETED| == 9 && |FAILED| == 6;
    assert QUEUED[0] != FAILED[0];
  }

  predicate Blank(c: byte) { c == TAB || c == NEWLINE || c == CARRIAGE_RETURN }

  /** A detail on the wire: tab, newline and carriage return become spaces. */
  function Sanitized(detail: Str): (s: Str)
    ensures |s| == |detail|
    ensures forall i | 0 <= i < |s| :: s[i] == if Blank(detail[i]) then 32 else detail[i]
  {
    seq(|detail|, i requires 0 <= i < |detail| => if Blank(detail[i]) then 32 else detail[i])
  }

  method Sanitize(detail: Str) returns (s: Str)
    ensures s == Sanitized(detail)
  {
    s := detail;
    for i := 0 to |s|
      invariant |s| == |detail|
      invariant forall j | 0 <= j < i :: s[j] == Sanitized(detail)[j]
      invariant forall j | i <= j < |s| :: s[j] == detail[j]
    {
      if Blank(s[i]) {
        s := s[i := 32];
      }
    }
  }

  // ---------- The response ----------

  function Fields(t: Task): (f: seq<Str>)
    ensures |f| == 10
  {
    [TASK, t.id, DomainName(t.domain), StateName(t.state), t.relatedId, t.source, t.target,
     D.Digits(t.createdAt), D.Digits(t.retries), Sanitized(t.detail)]
  }

  function Line(t: Task): Str { Join(Fields(t), TAB) }

  /** The node's tasks that are queued, in table order. */
  function QueuedFor(tasks: seq<Task>, node: Str): (q: seq<Task>)
    ensures forall t :: t in q <==> t in tasks && (t.source == node || t.target == node) && t.state == Queued
  {
    if tasks == [] then []
    else
      var front, t := QueuedFor(tasks[..|tasks| - 1], node), tasks[|tasks| - 1];
      assert tasks == tasks[..|tasks| - 1] + [t];
      if (t.source == node || t.target == node) && t.state == Queued then front + [t] else front
  }

  function LinesOf(queued: seq<Task>): (lines: seq<Str>)
    ensures |lines| == |queued| && forall i | 0 <= i < |lines| :: lines[i] == Line(queued[i])
  {
    seq(|queued|, i requires 0 <= i < |queued| => Line(queued[i]))
  }

  function Head(queued: seq<Task>): Str { OK_TASKS + D.Digits(|queued|) }

  function Response(queued: seq<Task>): Str {
    Join([Head(queued)] + LinesOf(queued) + [END], NEWLINE)
  }

  method ListTasksForNode(tasks: seq<Task>, node: Str) returns (queued: seq<Task>)
    ensures queued == QueuedFor(tasks, node)
  {
    queued := [];
    for i := 0 to |tasks|
      invariant queued == QueuedFor(tasks[..i], node)
    {
      assert tasks[..i + 1][..i] == tasks[..i];
      var t := tasks[i];
      if (t.source == node || t.target == node) && t.state == Queued {
        queued := queued + [t];
      }
    }
    assert tasks[..|tasks|] == tasks;
  }

  /** HandlePullTasks: the text is built piece by piece. */
  method HandlePullTasks(tasks: seq<Task>, node: Str) returns (text: Str)
    ensures text == Response(QueuedFor(tasks, node))
  {
    var queued := ListTasksForNode(tasks, node);
    text := OK_TASKS + D.Digits(|queued|);
    for i := 0 to |queued|
      invariant text == Join([Head(queued)] + LinesOf(queued)[..i], NEWLINE)
    {
      var t := queued[i];
      var detail := Sanitize(t.detail);
      var line := AppendFields(t, detail);
      JoinSnoc([Head(queued)] + LinesOf(queued)[..i], Line(t), NEWLINE);
      assert [Head(queued)] + LinesOf(queued)[..i + 1] == [Head(queued)] + LinesOf(queued)[..i] + [Line(t)];
      text := text + [NEWLINE] + line;
    }
    assert LinesOf(queued)[..|queued|] == LinesOf(queued);
    JoinSnoc([Head(queued)] + LinesOf(queued), END, NEWLINE);
    text := text + [NEWLINE] + END;
  }

  method AppendFields(t: Task, detail: Str) returns (line: Str)
    requires detail == Sanitized(t.detail)
    ensures line == Line(t)
  {
    line := TASK + [TAB] + t.id + [TAB] + DomainName(t.domain) + [TAB] + StateName(t.state)
      + [TAB] + t.relatedId + [TAB] + t.source + [TAB] + t.target
      + [TAB] + D.Digits(t.createdAt) + [TAB] + D.Digits(t.retries) + [TAB] + detail;
    ghost var f := Fields(t);
    Join10(f);
  }

  lemma Join10(f: seq<Str>)
    requires |f| == 10
    ensures Join(f, TAB) == f[0] + [TAB] + f[1] + [TAB] + f[2] + [TAB] + f[3] + [TAB] + f[4] + [TAB] + f[5]
                          + [TAB] + f[6] + [TAB] + f[7] + [TAB] + f[8] + [TAB] + f[9]
  {
    hide Join;
    JoinPrefix(f, 9, TAB);
    JoinPrefix(f, 8, TAB);
    JoinPrefix(f, 7, TAB);
    JoinPrefix(f, 6, TAB);
    JoinPrefix(f, 5, TAB);
    JoinPrefix(f, 4, TAB);
    JoinPrefix(f, 3, TAB);
    JoinPrefix(f, 2, TAB);
    JoinPrefix(f, 1, TAB);
    assert f[..10] == f;
    JoinOne(f[..1], TAB);
  }

  // ---------- The client's side ----------

  datatype LineRead = Skipped | Thrown | Read(task: Task)

  /** One line of the response; stoull and stoul may throw. */
  function ReadLine(line: Str): LineRead {
    if !(TASK + [TAB] <= line) then Skipped
    else
      var parts := Split(line, TAB);
      if |parts| < 9 then Skipped
      else
        var createdAt, retries := D.StoULL(parts[7]), D.StoULL(parts[8]);
        if createdAt.None? || retries.None? then Thrown
        else Read(Task(
          parts[1], ParseDomain(parts[2]), parts[4], parts[5], parts[6], ParseState(parts[3]),
          createdAt.value, retries.value % TWO_32, if |parts| >= 10 then parts[9] else []))
  }

  /** The lines up to END. */
  function ReadTasks(lines: seq<Str>): Result<seq<Task>> {
    if lines == [] || lines[0] == END then Ok([])
    else
      match ReadLine(lines[0])
      case Skipped => ReadTasks(lines[1..])
      case Thrown => Err
      case Read(task) =>
        var rest :- ReadTasks(lines[1..]);
        Ok([task] + rest)
  }

  const ERR := Text("ERR ")

  function Pulled(all: Str): Result<seq<Task>> {
    var lines := ResponseLines(all);
    if lines == [] || ERR <= lines[0] || !(OK_TASKS <= lines[0]) then Err else ReadTasks(lines[1..])
  }

  /** The tasks read so far in front of those still to be read. */
  function Preceded(tasks: seq<Task>, r: Result<seq<Task>>): Result<seq<Task>> {
    if r.Ok? then Ok(tasks + r.value) else Err
  }

  lemma ReadTasksStep(tasks: seq<Task>, lines: seq<Str>, i: nat)
    requires i < |lines|
    ensures var before := Preceded(tasks, ReadTasks(lines[i..]));
            if lines[i] == END then before == Ok(tasks)
            else
              match ReadLine(lines[i])
              case Skipped => before == Preceded(tasks, ReadTasks(lines[i + 1..]))
              case Thrown => before == Err
              case Read(task) => before == Preceded(tasks + [task], ReadTasks(lines[i + 1..]))
  {
    hide ReadLine;
    assert lines[i..][1..] == lines[i + 1..];
    assert tasks + [] == tasks;
    if ReadLine(lines[i]).Read? && ReadTasks(lines[i + 1..]).Ok? {
      var t, rest := ReadLine(lines[i]).task, ReadTasks(lines[i + 1..]).value;
      assert tasks + ([t] + rest) == tasks + [t] + rest;
    }
  }

  method PullTasks(all: Str) returns (r: Result<seq<Task>>)
    ensures r == Pulled(all)
  {
    var lines := ReadResponse(all);
    if lines == [] || ERR <= lines[0] || !(OK_TASKS <= lines[0]) {
      return Err;
    }
    r := ReadTaskLines(lines);
  }

  method ReadTaskLines(lines: seq<Str>) returns (r: Result<seq<Task>>)
    requires lines != []
    ensures r == ReadTasks(lines[1..])
  {
    var tasks := [];
    assert Preceded([], ReadTasks(lines[1..])) == ReadTasks(lines[1..]) by {
      assert ReadTasks(lines[1..]).Ok? ==> [] + ReadTasks(lines[1..]).value == ReadTasks(lines[1..]).value;
    }
    hide ReadLine, ReadTasks;
    var i := 1;
    while i < |lines|
      invariant 1 <= i <= |lines|
      invariant ReadTasks(lines[1..]) == Preceded(tasks, ReadTasks(lines[i..]))
    {
      hide Preceded;
      ReadTasksStep(tasks, lines, i);
      if lines[i] == END {
        return Ok(tasks);
      }
      var read := ReadLine(lines[i]);
      if read.Thrown? {
        return Err;
      }
      if read.Read? {
        tasks := tasks + [read.task];
      }
      i := i + 1;
    }
    NoMoreTasks(lines[i..]);
    assert tasks + [] == tasks;
    r := Ok(tasks);
  }

  lemma NoMoreTasks(lines: seq<Str>)
    requires lines == []
    ensures ReadTasks(lines) == Ok([])
  {
  }

  // ---------- Round trip ----------

  /** No field but the detail has a tab or a newline, and the numbers fit their types. */
  predicate Clean(t: Task) {
    && FieldClean(t.id) && FieldClean(t.relatedId) && FieldClean(t.source) && FieldClean(t.target)
    && t.createdAt < TWO_64 && t.retries < TWO_32
  }

  function Arrived(t: Task): Task { t.(detail := Sanitized(t.detail)) }

  function AllArrived(tasks: seq<Task>): (r: seq<Task>)
    ensures |r| == |tasks| && forall i | 0 <= i < |r| :: r[i] == Arrived(tasks[i])
  {
    if tasks == [] then [] else [Arrived(tasks[0])] + AllArrived(tasks[1..])
  }

  lemma DomainNamesClean(d: Domain)
    ensures FieldClean(DomainName(d))
  {
    match d
    case Backup => WordClean("backup");
    case Transfer => WordClean("transfer");
    case Restore => WordClean("restore");
  }

  lemma StateNamesClean(s: JobState)
    ensures FieldClean(StateName(s))
  {
    match s
    case Queued => WordClean("queued");
    case Running => WordClean("running");
    case Completed => WordClean("completed");
    case Failed => WordClean("failed");
  }

  lemma FieldsClean(t: Task)
    requires Clean(t)
    ensures AllFree(Fields(t), TAB) && AllFree(Fields(t), NEWLINE)
  {
    hide Fields, DomainName, StateName;
    WordClean("TASK");
    DomainNamesClean(t.domain);
    StateNamesClean(t.state);
    var f := Fields(t);
    FieldsAre(t);
    forall p | p in f
      ensures FieldClean(p)
    {
      var i :| 0 <= i < 10 && f[i] == p;
    }
  }

  lemma FieldsAre(t: Task)
    ensures var f := Fields(t);
            && f[0] == TASK && f[1] == t.id && f[2] == DomainName(t.domain) && f[3] == StateName(t.state)
            && f[4] == t.relatedId && f[5] == t.source && f[6] == t.target
            && f[7] == D.Digits(t.createdAt) && f[8] == D.Digits(t.retries) && f[9] == Sanitized(t.detail)
  {
  }

  /** A task's line reads back as the task with its detail sanitised, also when the split drops an empty detail. */
  lemma LineReadsBack(t: Task)
    requires Clean(t)
    ensures ReadLine(Line(t)) == Read(Arrived(t))
  {
    hide Fields, DomainName, StateName, ParseDomain, ParseState, Split;
    FieldsClean(t);
    FieldsAre(t);
    var f := Fields(t);
    SplitJoin(f, TAB);
    assert Line(t) == f[0] + [TAB] + Join(f[1..], TAB);
    D.ReadsItsDigits(t.createdAt);
    D.ReadsItsDigits(t.retries);
    NamesReadBack(t.domain, t.state);
  }

  /** A line has no newline, and does not end in a carriage return. */
  lemma LineTravels(t: Task)
    requires Clean(t)
    ensures NEWLINE !in Line(t) && TrimCarriageReturn(Line(t)) == Line(t) != END
  {
    FieldsClean(t);
    FieldsAre(t);
    hide Fields;
    var f := Fields(t);
    JoinFree(f, TAB, NEWLINE);
    Join10(f);
    assert Line(t) == f[0] + [TAB] + Join(f[1..], TAB);
    assert Line(t)[0] == TASK[0] != END[0];
  }

  lemma {:induction false} LinesReadBack(queued: seq<Task>, lines: seq<Str>)
    requires forall t | t in queued :: Clean(t)
    requires |lines| == |queued| + 1 && lines[|queued|] == END
    requires forall i | 0 <= i < |queued| :: lines[i] == Line(queued[i])
    ensures ReadTasks(lines) == Ok(AllArrived(queued))
  {
    hide Line, ReadLine, Clean, Arrived;
    if queued != [] {
      assert queued[0] in queued && forall t | t in queued[1..] :: t in queued;
      LineReadsBack(queued[0]);
      LineTravels(queued[0]);
      LinesReadBack(queued[1..], lines[1..]);
    }
  }

  /**
   For any task table and node: if no field but the detail of the node's queued tasks has a tab or a newline, the
   client gets exactly those tasks, in order, with tab, newline and carriage return in the details turned into spaces.
   */
  lemma PullRoundTrip(tasks: seq<Task>, node: Str)
    requires forall t | t in QueuedFor(tasks, node) :: Clean(t)
    ensures var queued := QueuedFor(tasks, node);
            Pulled(Terminated(Response(queued))) == Ok(AllArrived(queued))
  {
    hide QueuedFor, Line, ReadTasks, Clean, Arrived, Split, Terminated, Join;
    var queued := QueuedFor(tasks, node);
    var lines := [Head(queued)] + LinesOf(queued) + [END];
    ResponseTravels(queued);
    LinesArrive(lines);
    assert lines[1..] == LinesOf(queued) + [END];
    HeadIsOk(queued);
    LinesReadBack(queued, lines[1..]);
  }

  lemma HeadIsOk(queued: seq<Task>)
    ensures OK_TASKS <= Head(queued) && !(ERR <= Head(queued))
    ensures NEWLINE !in Head(queued) && TrimCarriageReturn(Head(queued)) == Head(queued)
  {
    TextAvoids("OK TASKS ", NEWLINE);
    TextAvoids("OK TASKS ", CARRIAGE_RETURN);
    assert Head(queued)[0] == OK_TASKS[0] != ERR[0];
    var d := D.Digits(|queued|);
    assert Head(queued)[|Head(queued)| - 1] == d[|d| - 1] && d[|d| - 1] in d;
  }

  lemma ResponseTravels(queued: seq<Task>)
    requires forall t | t in queued :: Clean(t)
    ensures var lines := [Head(queued)] + LinesOf(queued) + [END];
            && AllFree(lines, NEWLINE) && lines[|lines| - 1] != []
            && forall l | l in lines :: TrimCarriageReturn(l) == l
  {
    hide Line, Clean, Head;
    var lines := [Head(queued)] + LinesOf(queued) + [END];
    HeadIsOk(queued);
    TextAvoids("END", NEWLINE);
    TextAvoids("END", CARRIAGE_RETURN);
    assert |END| == 3 && END[2] in END;
    forall l | l in lines
      ensures NEWLINE !in l && TrimCarriageReturn(l) == l
    {
      if l != Head(queued) && l != END {
        var i :| 0 <= i < |queued| && LinesOf(queued)[i] == l;
        assert queued[i] in queued;
        LineTravels(queued[i]);
      }
    }
  }

  // ---------- The text itself ----------

  lemma QueuedNext(tasks: seq<Task>, node: Str)
    requires tasks != []
    ensures var front, t := tasks[..|tasks| - 1], tasks[|tasks| - 1];
            QueuedFor(tasks, node)
            == QueuedFor(front, node) + if (t.source == node || t.target == node) && t.state == Queued then [t] else []
  {
  }

  /** Queued tasks are listed in the order of the table. */
  lemma {:induction false} QueuedInOrder(a: seq<Task>, b: seq<Task>, node: Str)
    ensures QueuedFor(a + b, node) == QueuedFor(a, node) + QueuedFor(b, node)
  {
    if b == [] {
      assert a + b == a;
    } else {
      var front, t := b[..|b| - 1], b[|b| - 1];
      QueuedInOrder(a, front, node);
      QueuedNext(b, node);
      QueuedNext(a + b, node);
      hide QueuedFor;
      assert (a + b)[..|a + b| - 1] == a + front && (a + b)[|a + b| - 1] == t;
    }
  }

  /** The fields of a line, by tabs, in the order the client expects. */
  lemma LineSample(t: Task)
    requires t.domain == Transfer && t.state == Queued && t.createdAt == 7 && t.retries == 2
    ensures Line(t)
         == Text("TASK") + [9] + t.id + [9] + Text("transfer") + [9] + Text("queued") + [9] + t.relatedId + [9] + t.source
            + [9] + t.target + [9] + Text("7") + [9] + Text("2") + [9] + Sanitized(t.detail)
  {
    hide Join;
    Join10(Fields(t));
  }

  /** The names of the domains and states. */
  lemma NameSamples()
    ensures DomainName(Backup) == Text("backup") && DomainName(Restore) == Text("restore")
    ensures StateName(Running) == Text("running") && StateName(Completed) == Text("completed")
    ensures StateName(Failed) == Text("failed")
  {
  }

  /** The response: the count, the lines, and END, by newlines. */
  lemma ResponseSample(t: Task)
    ensures Response([]) == Text("OK TASKS ") + Text("0") + [10] + Text("END")
    ensures Response([t]) == Text("OK TASKS ") + Text("1") + [10] + (Line(t) + [10] + Text("END"))
  {
    hide Line;
    assert D.Digits(0) == Text("0") && D.Digits(1) == Text("1");
    var one := [Head([t]), Line(t), END];
    assert [Head([])] + LinesOf([]) + [END] == [Head([]), END] && [Head([]), END][1..] == [END];
    assert Join([Head([]), END], NEWLINE) == Head([]) + [NEWLINE] + Join([END], NEWLINE);
    assert [Head([t])] + LinesOf([t]) + [END] == one && one[1..] == [Line(t), END] && [Line(t), END][1..] == [END];
    assert Join(one, NEWLINE) == Head([t]) + [NEWLINE] + Join([Line(t), END], NEWLINE);
    assert Join([Line(t), END], NEWLINE) == Line(t) + [NEWLINE] + Join([END], NEWLINE);
  }
}
