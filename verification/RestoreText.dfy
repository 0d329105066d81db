/** GET_RESTORE: a restore request, its stored object and its file record as one line of text, and back. */
module RestoreText {
  import opened Base
  import D = Decimal
  import opened Lines
  import T = TaskText

  datatype RestoreState = Queued | Running | Completed | Failed

  datatype Request = Request(
    id: Str, fileId: Str, source: Str, target: Str, destination: Str,
    state: RestoreState, completedAt: nat, error: Str)

  datatype Stored = Stored(fileId: Str, backend: Str, key: Str, url: Str, sourcePath: Str, storedAt: nat)

  datatype File = File(
    fileId: Str, relativePath: Str, absolutePath: Str, size: nat, mtime: nat, mode: nat, rootHash: Str)

  datatype Bundle = Bundle(request: Request, stored: Stored, file: File)

  const OK_RESTORE := Text("OK RESTORE")

  function StateName(s: RestoreState): Str {
    match s
    case Queued => T.QUEUED
    case Running => T.RUNNING
    case Completed => T.COMPLETED
    case Failed => T.FAILED
  }

  function ParseRestoreState(s: Str): RestoreState {
    if s == T.RUNNING then Running else if s == T.COMPLETED then Completed else if s == T.FAILED then Failed else Queued
  }

  /** The server looks both records up by the request's file id. */
  predicate SameFile(b: Bundle) {
    b.stored.fileId == b.request.fileId == b.file.fileId
  }

  function FieldAt(b: Bundle, i: nat): Str
    requires i < 20
  {
    match i
    case 0 => OK_RESTORE
    case 1 => b.request.id
    case 2 => b.request.fileId
    case 3 => b.request.source
    case 4 => b.request.target
    case 5 => b.request.destination
    case 6 => StateName(b.request.state)
    case 7 => D.Digits(b.request.completedAt)
    case 8 => b.request.error
    case 9 => b.stored.backend
    case 10 => b.stored.key
    case 11 => b.stored.url
    case 12 => b.stored.sourcePath
    case 13 => D.Digits(b.stored.storedAt)
    case 14 => b.file.relativePath
    case 15 => b.file.absolutePath
    case 16 => D.Digits(b.file.size)
    case 17 => D.Digits(b.file.mtime)
    case 18 => D.Digits(b.file.mode)
    case _ => b.file.rootHash
  }

  function Fields(b: Bundle): (f: seq<Str>)
    ensures |f| == 20 && forall i | 0 <= i < 20 :: f[i] == FieldAt(b, i)
  {
    seq(20, i requires 0 <= i < 20 => FieldAt(b, i))
  }

  function BundleText(b: Bundle): Str { Join(Fields(b), TAB) }

  /** The answer to GET_RESTORE: an error unless all three records are there. */
  method HandleGetRestore(request: Option<Request>, stored: map<Str, Stored>, files: map<Str, File>) returns (text: Str)
    ensures request.Some? && request.value.fileId in stored && request.value.fileId in files ==>
              text == BundleText(Bundle(request.value, stored[request.value.fileId], files[request.value.fileId]))
    ensures !(request.Some? && request.value.fileId in stored && request.value.fileId in files) ==> T.ERR <= text
  {
    if request.None? {
      return T.ERR + Text("restore request not found");
    }
    var r := request.value;
    if r.fileId !in stored {
      return T.ERR + Text("stored object not found");
    }
    var s := stored[r.fileId];
    if r.fileId !in files {
      return T.ERR + Text("file metadata not found");
    }
    var f := files[r.fileId];
    text := PutTogether(Bundle(r, s, f));
  }

  method PutTogether(b: Bundle) returns (text: Str)
    ensures text == BundleText(b)
  {
    hide FieldAt, Join;
    var fields := Fields(b);
    JoinOne(fields[..1], TAB);
    text := fields[0];
    for i := 1 to 20
      invariant text == Join(fields[..i], TAB)
    {
      JoinPrefix(fields, i, TAB);
      text := text + [TAB] + fields[i];
    }
    assert fields[..20] == fields;
  }

  // ---------- The client's side ----------

  /** The bundle of the parts of a line; stoull and stoul may throw. */
  function BundleOf(p: seq<Str>): Result<Bundle>
    requires |p| >= 20
  {
    var completedAt, storedAt := D.StoULL(p[7]), D.StoULL(p[13]);
    var size, mtime, mode := D.StoULL(p[16]), D.StoULL(p[17]), D.StoULL(p[18]);
    if completedAt.None? || storedAt.None? || size.None? || mtime.None? || mode.None? then Err
    else
      Ok(Bundle(
        Request(p[1], p[2], p[3], p[4], p[5], ParseRestoreState(p[6]), completedAt.value, p[8]),
        Stored(p[2], p[9], p[10], p[11], p[12], storedAt.value),
        File(p[2], p[14], p[15], size.value, mtime.value, mode.value % TWO_32, p[19])))
  }

  function Fetched(all: Str): Result<Bundle> {
    var lines := ResponseLines(all);
    if lines == [] || T.ERR <= lines[0] || !(OK_RESTORE + [TAB] <= lines[0]) then Err
    else
      var parts := Split(lines[0], TAB);
      if |parts| < 20 then Err else BundleOf(parts)
  }

  method FetchRestoreBundle(all: Str) returns (r: Result<Bundle>)
    ensures r == Fetched(all)
  {
    var lines := ReadResponse(all);
    if lines == [] || T.ERR <= lines[0] || !(OK_RESTORE + [TAB] <= lines[0]) {
      return Err;
    }
    var parts := SplitBy(lines[0], TAB);
    if |parts| < 20 {
      return Err;
    }
    r := BundleOf(parts);
  }

  // ---------- Round trip ----------

  /** No field has a tab or a newline, the last one no carriage return, and the numbers fit their types. */
  predicate Clean(b: Bundle) {
    && (forall i | 0 <= i < 20 :: FieldClean(FieldAt(b, i)))
    && CARRIAGE_RETURN !in b.file.rootHash && NumbersFit(b)
  }

  predicate NumbersFit(b: Bundle) {
    && b.request.completedAt < TWO_64 && b.stored.storedAt < TWO_64
    && b.file.size < TWO_64 && b.file.mtime < TWO_64 && b.file.mode < TWO_32
  }

  lemma StateReadsBack(s: RestoreState)
    ensures ParseRestoreState(StateName(s)) == s
  {
    T.NamesReadBack(T.Backup, T.Running);
    T.NamesReadBack(T.Backup, T.Completed);
    T.NamesReadBack(T.Backup, T.Failed);
  }

  /** The fields read back as the bundle. */
  lemma FieldsReadBack(b: Bundle)
    requires SameFile(b) && NumbersFit(b)
    ensures BundleOf(Fields(b)) == Ok(b)
  {
    hide StateName, ParseRestoreState, D.StoULL, D.Digits;
    StateReadsBack(b.request.state);
    D.ReadsItsDigits(b.request.completedAt);
    D.ReadsItsDigits(b.stored.storedAt);
    D.ReadsItsDigits(b.file.size);
    D.ReadsItsDigits(b.file.mtime);
    D.ReadsItsDigits(b.file.mode);
    hide Fields;
    var f := Fields(b);
    assert f[1] == b.request.id && f[2] == b.request.fileId && f[3] == b.request.source && f[4] == b.request.target;
    assert f[5] == b.request.destination && f[8] == b.request.error;
    assert f[9] == b.stored.backend && f[10] == b.stored.key && f[11] == b.stored.url && f[12] == b.stored.sourcePath;
    assert f[14] == b.file.relativePath && f[15] == b.file.absolutePath && f[19] == b.file.rootHash;
  }

  lemma FieldsClean(b: Bundle)
    requires Clean(b)
    ensures AllFree(Fields(b), TAB) && AllFree(Fields(b), NEWLINE)
  {
    hide FieldAt, Fields;
    var f := Fields(b);
    forall p | p in f
      ensures FieldClean(p)
    {
      var i :| 0 <= i < 20 && f[i] == p;
    }
  }

  /** How the text of a bundle begins and ends. */
  lemma BundleEnds(b: Bundle)
    requires Clean(b)
    ensures var text := BundleText(b);
            && OK_RESTORE + [TAB] <= text && !(T.ERR <= text) && TrimCarriageReturn(text) == text
  {
    var f, text := Fields(b), BundleText(b);
    assert text == f[0] + [TAB] + Join(f[1..], TAB) && f[0] == OK_RESTORE;
    assert text[0] == OK_RESTORE[0] != T.ERR[0];
    hide Join;
    JoinPrefix(f, 19, TAB);
    assert f[..20] == f && f[19] == b.file.rootHash;
  }

  /** The text arrives as one line, with the head the client looks for. */
  lemma BundleTravels(b: Bundle)
    requires Clean(b)
    ensures ResponseLines(Terminated(BundleText(b))) == [BundleText(b)]
  {
    var text := BundleText(b);
    assert NEWLINE !in text by {
      FieldsClean(b);
      JoinFree(Fields(b), TAB, NEWLINE);
    }
    BundleEnds(b);
    assert Join([text], NEWLINE) == text;
    hide Clean, BundleText, Join;
    assert AllFree([text], NEWLINE);
    LinesArrive([text]);
  }

  /**
   Every transmitted field comes back, empty ones and state names included, if and only if the root hash is not empty:
   an empty last field is lost, and the bundle with it.
   */
  lemma BundleRoundTrip(b: Bundle)
    requires SameFile(b) && Clean(b)
    ensures Fetched(Terminated(BundleText(b))) == if b.file.rootHash != [] then Ok(b) else Err
  {
    BundleTravels(b);
    BundleEnds(b);
    FieldsClean(b);
    SplitJoin(Fields(b), TAB);
    FieldsReadBack(b);
    assert Fields(b)[19] == b.file.rootHash;
    hide Fields, FieldAt, Clean, SameFile, BundleOf, Split, Join, Terminated, ResponseLines;
  }

  /** The fields of a bundle's text, by position. */
  predicate Positioned(p: seq<Str>, b: Bundle) {
    && |p| == 20 && p[0] == Text("OK RESTORE")
    && p[1] == b.request.id && p[2] == b.request.fileId && p[3] == b.request.source
    && p[4] == b.request.target && p[5] == b.request.destination && p[6] == StateName(b.request.state)
    && p[7] == D.Digits(b.request.completedAt) && p[8] == b.request.error
    && p[9] == b.stored.backend && p[10] == b.stored.key && p[11] == b.stored.url
    && p[12] == b.stored.sourcePath && p[13] == D.Digits(b.stored.storedAt)
    && p[14] == b.file.relativePath && p[15] == b.file.absolutePath && p[16] == D.Digits(b.file.size)
    && p[17] == D.Digits(b.file.mtime) && p[18] == D.Digits(b.file.mode) && p[19] == b.file.rootHash
  }

  lemma FieldsAre(b: Bundle)
    ensures Positioned(Fields(b), b)
  {
    hide D.Digits, StateName;
  }

  /** Split at tabs, a bundle's text has its twenty fields in their places. */
  lemma BundleParts(b: Bundle)
    requires Clean(b) && b.file.rootHash != []
    ensures Positioned(Split(BundleText(b), 9), b)
  {
    FieldsAre(b);
    FieldsClean(b);
    SplitJoin(Fields(b), TAB);
    assert Fields(b)[19] == b.file.rootHash;
    hide Fields, Split, Join, Positioned, Clean;
  }
}
