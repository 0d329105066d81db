/** Text split by std::getline and put together with a separator. */
module Lines {
  import opened Base

  const TAB: byte := 9
  const CARRIAGE_RETURN: byte := 13

  function IndexOf(s: Str, d: byte): (r: Option<nat>)
    ensures r.Some? ==> r.value < |s| && s[r.value] == d && d !in s[..r.value]
    ensures r.None? ==> d !in s
  {
    if s == [] then None
    else if s[0] == d then Some(0)
    else
      var r := IndexOf(s[1..], d);
      assert r.Some? ==> s[..r.value + 1] == [s[0]] + s[1..][..r.value];
      assert s == [s[0]] + s[1..];
      if r.None? then None else Some(r.value + 1)
  }

  /** What a loop of getline with delimiter d reads: no last part when the text ends with the delimiter, or is empty. */
  function Split(s: Str, d: byte): seq<Str> {
    if s == [] then []
    else
      var k := IndexOf(s, d);
      if k.None? then [s] else [s[..k.value]] + Split(s[k.value + 1..], d)
  }

  function Join(parts: seq<Str>, d: byte): Str
    requires parts != []
  {
    if |parts| == 1 then parts[0] else parts[0] + [d] + Join(parts[1..], d)
  }

  ghost predicate AllFree(parts: seq<Str>, d: byte) {
    forall p | p in parts :: d !in p
  }

  lemma {:induction false} IndexOfFirst(s: Str, d: byte, rest: Str)
    requires d !in s
    ensures IndexOf(s + [d] + rest, d) == Some(|s|)
  {
    if s != [] {
      assert s[0] in s && forall c | c in s[1..] :: c in s;
      assert (s + [d] + rest)[1..] == s[1..] + [d] + rest;
      IndexOfFirst(s[1..], d, rest);
    }
  }

  lemma SplitFirst(s: Str, d: byte, rest: Str)
    requires d !in s
    ensures Split(s + [d] + rest, d) == [s] + Split(rest, d)
  {
    IndexOfFirst(s, d, rest);
    var all := s + [d] + rest;
    assert all[..|s|] == s && all[|s| + 1..] == rest;
  }

  lemma SplitOne(s: Str, d: byte)
    requires d !in s
    ensures Split(s, d) == if s == [] then [] else [s]
  {
  }

  lemma FreeTail(parts: seq<Str>, d: byte)
    requires parts != [] && AllFree(parts, d)
    ensures d !in parts[0] && AllFree(parts[1..], d)
  {
    assert parts[0] in parts && forall p | p in parts[1..] :: p in parts;
  }

  /** The parts without the last one, if that one is empty. */
  function WithoutEmptyLast(parts: seq<Str>): seq<Str>
    requires parts != []
  {
    if parts[|parts| - 1] == [] then parts[..|parts| - 1] else parts
  }

  lemma WithoutEmptyLastStep(parts: seq<Str>)
    requires |parts| > 1
    ensures WithoutEmptyLast(parts) == [parts[0]] + WithoutEmptyLast(parts[1..])
  {
    assert parts == [parts[0]] + parts[1..];
  }

  /** Splitting gives the joined parts back, but for a last part that is empty. */
  lemma {:induction false} SplitJoin(parts: seq<Str>, d: byte)
    requires parts != [] && AllFree(parts, d)
    ensures Split(Join(parts, d), d) == WithoutEmptyLast(parts)
  {
    FreeTail(parts, d);
    hide AllFree, Split;
    if |parts| == 1 {
      SplitOne(parts[0], d);
    } else {
      hide WithoutEmptyLast;
      SplitFirst(parts[0], d, Join(parts[1..], d));
      SplitJoin(parts[1..], d);
      WithoutEmptyLastStep(parts);
    }
  }

  lemma {:induction false} JoinSnoc(parts: seq<Str>, x: Str, d: byte)
    requires parts != []
    ensures Join(parts + [x], d) == Join(parts, d) + [d] + x
  {
    if |parts| == 1 {
      assert (parts + [x])[1..] == [x];
    } else {
      assert (parts + [x])[1..] == parts[1..] + [x];
      JoinSnoc(parts[1..], x, d);
    }
  }

  method SplitBy(s: Str, d: byte) returns (parts: seq<Str>)
    ensures parts == Split(s, d)
  {
    parts := [];
    var rest := s;
    while rest != []
      invariant parts + Split(rest, d) == Split(s, d)
      decreases |rest|
    {
      var k := IndexOf(rest, d);
      if k.None? {
        parts := parts + [rest];
        rest := [];
      } else {
        parts := parts + [rest[..k.value]];
        rest := rest[k.value + 1..];
      }
    }
  }

  /** One carriage return at the end goes; what it leaves may end in another. */
  function TrimCarriageReturn(s: Str): (r: Str)
    ensures s == r || s == r + [13]
    ensures s == r ==> s == [] || s[|s| - 1] != 13
  {
    if s != [] && s[|s| - 1] == CARRIAGE_RETURN then s[..|s| - 1] else s
  }

  /** The lines SendCommand makes of a response. */
  function ResponseLines(all: Str): (lines: seq<Str>)
    ensures |lines| == |Split(all, NEWLINE)|
    ensures forall i | 0 <= i < |lines| :: lines[i] == TrimCarriageReturn(Split(all, NEWLINE)[i])
  {
    var raw := Split(all, NEWLINE);
    seq(|raw|, i requires 0 <= i < |raw| => TrimCarriageReturn(raw[i]))
  }

  method ReadResponse(all: Str) returns (lines: seq<Str>)
    ensures lines == ResponseLines(all)
  {
    var raw := SplitBy(all, NEWLINE);
    lines := [];
    for i := 0 to |raw|
      invariant |lines| == i && forall j | 0 <= j < i :: lines[j] == TrimCarriageReturn(raw[j])
    {
      lines := lines + [TrimCarriageReturn(raw[i])];
    }
  }

  /** WriteLine. */
  function Terminated(s: Str): Str {
    if s == [] || s[|s| - 1] != NEWLINE then s + [NEWLINE] else s
  }

  lemma SplitTerminated(lines: seq<Str>)
    requires lines != [] && AllFree(lines, NEWLINE) && lines[|lines| - 1] != []
    ensures Split(Terminated(Join(lines, NEWLINE)), NEWLINE) == lines
  {
    var all, text := lines + [[]], Join(lines, NEWLINE);
    assert AllFree(all, NEWLINE);
    assert Terminated(text) == text + [NEWLINE] by {
      LastOfJoin(lines, NEWLINE);
    }
    hide AllFree, Split, Terminated;
    assert Join(all, NEWLINE) == text + [NEWLINE] by {
      JoinSnoc(lines, [], NEWLINE);
      assert text + [NEWLINE] + [] == text + [NEWLINE];
    }
    hide Join;
    SplitJoin(all, NEWLINE);
    assert WithoutEmptyLast(all) == lines;
  }

  /** Lines without newlines that end in no carriage return arrive as they were sent. */
  lemma LinesArrive(lines: seq<Str>)
    requires lines != [] && AllFree(lines, NEWLINE) && lines[|lines| - 1] != []
    requires forall l | l in lines :: TrimCarriageReturn(l) == l
    ensures ResponseLines(Terminated(Join(lines, NEWLINE))) == lines
  {
    hide Split, Join, Terminated, AllFree;
    SplitTerminated(lines);
    forall i | 0 <= i < |lines|
      ensures TrimCarriageReturn(lines[i]) == lines[i]
    {
      assert lines[i] in lines;
    }
  }

  lemma {:induction false} LastOfJoin(parts: seq<Str>, d: byte)
    requires parts != [] && AllFree(parts, d) && parts[|parts| - 1] != []
    ensures var s := Join(parts, d); s != [] && s[|s| - 1] == parts[|parts| - 1][|parts[|parts| - 1]| - 1] != d
  {
    FreeTail(parts, d);
    hide AllFree;
    if |parts| > 1 {
      LastOfJoin(parts[1..], d);
    }
  }

  lemma JoinOne(f: seq<Str>, d: byte)
    requires |f| == 1
    ensures Join(f, d) == f[0]
  {
  }

  lemma JoinPrefix(f: seq<Str>, k: nat, d: byte)
    requires 0 < k < |f|
    ensures Join(f[..k + 1], d) == Join(f[..k], d) + [d] + f[k]
  {
    assert f[..k + 1] == f[..k] + [f[k]];
    JoinSnoc(f[..k], f[k], d);
  }

  lemma TextAvoids(s: string, c: byte)
    requires forall x | x in s :: x < 128 as char && x as int != c as int
    ensures c !in Text(s)
  {
    forall i | 0 <= i < |s|
      ensures Text(s)[i] != c
    {
      assert s[i] in s;
    }
  }

  predicate FieldClean(s: Str) { TAB !in s && NEWLINE !in s }

  lemma WordClean(s: string)
    requires forall x | x in s :: 32 as char <= x < 128 as char
    ensures FieldClean(Text(s))
  {
    TextAvoids(s, TAB);
    TextAvoids(s, NEWLINE);
  }

  lemma {:induction false} JoinFree(parts: seq<Str>, d: byte, c: byte)
    requires parts != [] && AllFree(parts, c) && c != d
    ensures c !in Join(parts, d)
  {
    FreeTail(parts, c);
    if |parts| > 1 {
      JoinFree(parts[1..], d, c);
    }
  }
}
