/** The primitives of the wire format: decimal numbers and length-prefixed strings, each closed by a newline. */
module Wire {
  import opened Base
  import opened Decimal

  /** A value read from a buffer, and where the cursor stands behind it. */
  datatype Parsed<+T> = Got(value: T, next: nat) | Bad {
    predicate IsFailure() { Bad? }
    function PropagateFailure<U>(): Parsed<U>
      requires Bad?
    {
      Bad
    }
    function Extract(): Parsed<T>
      requires Got?
    {
      this
    }
  }

  // ---------- Printing ----------

  function NumberText(n: nat): (s: Str)
    ensures |s| >= 2
  {
    Digits(n) + [NEWLINE]
  }

  function StringText(v: Str): Str { NumberText(|v|) + v + [NEWLINE] }

  function BoolText(v: bool): Str { [if v then 49 else 48, NEWLINE] }

  // ---------- Parsing ----------

  /** buffer.find('\n', from) */
  function FindNewline(b: Str, from: nat): (r: Option<nat>)
    ensures r.Some? ==> from <= r.value < |b| && b[r.value] == NEWLINE && NEWLINE !in b[from..r.value]
    ensures r.None? ==> from >= |b| || NEWLINE !in b[from..]
    decreases |b| - from
  {
    if from >= |b| then None
    else if b[from] == NEWLINE then Some(from)
    else
      assert b[from..] == [b[from]] + b[from + 1..];
      var r := FindNewline(b, from + 1);
      assert r.Some? ==> b[from..r.value] == [b[from]] + b[from + 1..r.value];
      r
  }

  /** ConsumeU64 */
  function ParseNumber(b: Str, cursor: nat): (r: Parsed<nat>)
    ensures r.Got? ==> r.value < TWO_64 && cursor < r.next <= |b|
  {
    var end := FindNewline(b, cursor);
    if end.None? then Bad
    else
      var n := StoULL(b[cursor..end.value]);
      if n.None? then Bad else Got(n.value, end.value + 1)
  }

  /** ConsumeString; positions are 64-bit, so a huge length wraps around before the check for truncation. */
  function ParseString(b: Str, cursor: nat): Parsed<Str> {
    var length := ParseNumber(b, cursor);
    if length.Bad? then Bad
    else
      var begin := length.next;
      var end := (begin + length.value) % TWO_64;
      if end > |b| then Bad
      else
        var value := b[begin..Min(begin + length.value, |b|)];
        if end >= |b| || b[end] != NEWLINE then Bad else Got(value, end + 1)
  }

  function ParseBool(b: Str, cursor: nat): Parsed<bool> {
    var n :- ParseNumber(b, cursor);
    Got(n.value != 0, n.next)
  }

  // ---------- Reading back what was printed, anywhere in a buffer ----------

  /** text stands at cursor in b. */
  predicate At(b: Str, cursor: nat, text: Str) {
    cursor + |text| <= |b| && b[cursor..cursor + |text|] == text
  }

  lemma AtSplit(b: Str, cursor: nat, s: Str, t: Str)
    requires At(b, cursor, s + t)
    ensures At(b, cursor, s) && At(b, cursor + |s|, t)
  {
    var all := b[cursor..cursor + |s + t|];
    assert all[..|s|] == s && all[|s|..] == t;
  }

  lemma AtStart(text: Str, residue: Str)
    ensures At(text + residue, 0, text)
  {
  }

  lemma {:induction false} FindsFirst(b: Str, from: nat, k: nat)
    requires from <= k < |b| && b[k] == NEWLINE && NEWLINE !in b[from..k]
    ensures FindNewline(b, from) == Some(k)
    decreases k - from
  {
    if from < k {
      assert b[from] in b[from..k];
      assert b[from + 1..k] == b[from..k][1..];
      FindsFirst(b, from + 1, k);
    }
  }

  lemma NumberAt(b: Str, cursor: nat, n: nat)
    requires At(b, cursor, NumberText(n))
    ensures ParseNumber(b, cursor) == if n < TWO_64 then Got(n, cursor + |NumberText(n)|) else Bad
  {
    var d := Digits(n);
    AtSplit(b, cursor, d, [NEWLINE]);
    assert b[cursor..cursor + |d|] == d && b[cursor + |d|..cursor + |d| + 1] == [NEWLINE];
    assert b[cursor + |d|] == [NEWLINE][0];
    FindsFirst(b, cursor, cursor + |d|);
    ReadsItsDigits(n);
  }

  lemma StringAt(b: Str, cursor: nat, v: Str)
    requires At(b, cursor, StringText(v)) && |b| < TWO_64
    ensures ParseString(b, cursor) == Got(v, cursor + |StringText(v)|)
  {
    hide ParseNumber, NumberText;
    var head := NumberText(|v|);
    var begin := cursor + |head|;
    AtSplit(b, cursor, head + v, [NEWLINE]);
    AtSplit(b, cursor, head, v);
    NumberAt(b, cursor, |v|);
    assert b[begin..begin + |v|] == v;
    assert b[begin + |v|..begin + |v| + 1][0] == NEWLINE;
    hide At;
  }

  /** A string is returned with its declared length if and only if the end of the string, as declared, is below 2^64. */
  lemma LengthIsKept(b: Str, cursor: nat)
    requires |b| < TWO_64 && ParseString(b, cursor).Got?
    ensures var length := ParseNumber(b, cursor);
            && length.Got?
            && (|ParseString(b, cursor).value| == length.value <==> length.next + length.value < TWO_64)
  {
  }

  /** The length 2^64 - 1 and its newline, and nothing else, pass for an empty string: the end wraps to that newline. */
  lemma WrappedLengthIsAccepted()
    ensures var b := NumberText(TWO_64 - 1);
            ParseNumber(b, 0) == Got(TWO_64 - 1, |b|) && ParseString(b, 0) == Got([], |b|)
  {
    var b := NumberText(TWO_64 - 1);
    assert At(b, 0, b);
    NumberAt(b, 0, TWO_64 - 1);
    DigitsAreShort((TWO_64 - 1) / 10);
    assert |Digits(TWO_64 - 1)| == |Digits((TWO_64 - 1) / 10)| + 1;
    hide Digits, ParseNumber;
    assert (|b| + (TWO_64 - 1)) % TWO_64 == |b| - 1;
    assert b[|b| - 1] == NEWLINE && b[|b|..|b|] == [];
  }

  lemma BoolAt(b: Str, cursor: nat, v: bool)
    requires At(b, cursor, BoolText(v))
    ensures ParseBool(b, cursor) == Got(v, cursor + |BoolText(v)|)
  {
    assert BoolText(v) == NumberText(if v then 1 else 0);
    NumberAt(b, cursor, if v then 1 else 0);
  }

  // ---------- The primitives as the code runs them ----------

  /** r and next are what p says: the value and the new cursor, or an exception. */
  predicate Returns<T(==)>(r: Result<T>, next: nat, p: Parsed<T>) {
    if p.Got? then r == Ok(p.value) && next == p.next else r.Err?
  }

  method AppendString(buffer: Str, value: Str) returns (r: Str)
    ensures r == buffer + StringText(value)
  {
    r := buffer + Digits(|value|);
    r := r + [NEWLINE];
    r := r + value;
    r := r + [NEWLINE];
    assert r == buffer + (Digits(|value|) + [NEWLINE] + value + [NEWLINE]);
  }

  method AppendU64(buffer: Str, value: nat) returns (r: Str)
    ensures r == buffer + NumberText(value)
  {
    r := buffer + Digits(value);
    r := r + [NEWLINE];
  }

  method AppendBool(buffer: Str, value: bool) returns (r: Str)
    ensures r == buffer + BoolText(value)
  {
    r := buffer + if value then [49, NEWLINE] else [48, NEWLINE];
  }

  method ConsumeU64(b: Str, cursor: nat) returns (r: Result<nat>, next: nat)
    ensures Returns(r, next, ParseNumber(b, cursor))
  {
    next := cursor;
    var end := FindNewline(b, cursor);
    if end.None? {
      return Err, next;
    }
    var value := StoULL(b[cursor..end.value]);
    if value.None? {
      return Err, next;
    }
    r, next := Ok(value.value), end.value + 1;
  }

  method ConsumeString(b: Str, cursor: nat) returns (r: Result<Str>, next: nat)
    ensures Returns(r, next, ParseString(b, cursor))
  {
    next := cursor;
    var lengthEnd := FindNewline(b, cursor);
    if lengthEnd.None? {
      return Err, next;
    }
    var length := StoULL(b[cursor..lengthEnd.value]);
    if length.None? {
      return Err, next;
    }
    var dataBegin := lengthEnd.value + 1;
    var dataEnd := (dataBegin + length.value) % TWO_64;
    if dataEnd > |b| {
      return Err, next;
    }
    var value := b[dataBegin..Min(dataBegin + length.value, |b|)];
    if dataEnd >= |b| || b[dataEnd] != NEWLINE {
      return Err, next;
    }
    r, next := Ok(value), dataEnd + 1;
  }

  method ConsumeBool(b: Str, cursor: nat) returns (r: Result<bool>, next: nat)
    ensures Returns(r, next, ParseBool(b, cursor))
  {
    var n;
    n, next :- ConsumeU64(b, cursor);
    r := Ok(n != 0);
  }
}
