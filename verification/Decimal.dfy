/** std::to_string and std::stoull on unsigned 64-bit numbers. */
module Decimal {
  import opened Base

  const PLUS: byte := 43
  const MINUS: byte := 45

  predicate IsDigit(c: byte) { 48 <= c <= 57 }

  /** isspace in the C locale. */
  predicate IsSpace(c: byte) { c == 32 || 9 <= c <= 13 }

  function Digits(n: nat): (s: Str)
    ensures |s| > 0 && forall c | c in s :: IsDigit(c)
  {
    if n < 10 then [(48 + n) as byte] else Digits(n / 10) + [(48 + n % 10) as byte]
  }

  function AfterSpaces(s: Str): Str {
    if s != [] && IsSpace(s[0]) then AfterSpaces(s[1..]) else s
  }

  /** The digits in front of s, read after the digits of acc. */
  function Magnitude(s: Str, acc: nat): nat
    decreases |s|
  {
    if s != [] && IsDigit(s[0]) then Magnitude(s[1..], acc * 10 + (s[0] as nat - 48)) else acc
  }

  /** stoull: leading spaces and a sign are accepted, a minus wraps, what follows the digits is ignored. */
  function StoULL(s: Str): (r: Option<nat>)
    ensures r.Some? ==> r.value < TWO_64
  {
    var t := AfterSpaces(s);
    var u := if t != [] && (t[0] == PLUS || t[0] == MINUS) then t[1..] else t;
    if u == [] || !IsDigit(u[0]) then None
    else
      var m := Magnitude(u, 0);
      if m >= TWO_64 then None
      else Some(if t[0] == MINUS then (TWO_64 - m) % TWO_64 else m)
  }

  lemma {:induction false} MagnitudeSnoc(s: Str, d: byte, acc: nat)
    requires (forall c | c in s :: IsDigit(c)) && IsDigit(d)
    ensures Magnitude(s + [d], acc) == Magnitude(s, acc) * 10 + (d as nat - 48)
    decreases |s|
  {
    if s == [] {
      assert [d][1..] == [];
    } else {
      assert (s + [d])[1..] == s[1..] + [d] && s[0] in s;
      MagnitudeSnoc(s[1..], d, acc * 10 + (s[0] as nat - 48));
    }
  }

  lemma {:induction false} MagnitudeOfDigits(n: nat)
    ensures Magnitude(Digits(n), 0) == n
  {
    if n < 10 {
      assert Digits(n)[1..] == [];
    } else {
      MagnitudeOfDigits(n / 10);
      MagnitudeSnoc(Digits(n / 10), (48 + n % 10) as byte, 0);
    }
  }

  /** stoull reads back exactly the numbers that fit 64 bits. */
  lemma ReadsItsDigits(n: nat)
    ensures StoULL(Digits(n)) == if n < TWO_64 then Some(n) else None
  {
    MagnitudeOfDigits(n);
    var s := Digits(n);
    assert s[0] in s;
  }

  lemma {:induction false} DigitsAreShort(n: nat)
    ensures |Digits(n)| <= n + 1
  {
    if n >= 10 {
      DigitsAreShort(n / 10);
    }
  }

  const DECIMAL_DIGITS := Text("0123456789")

  /** No leading zero, and the last character is the units digit. */
  lemma DigitsEnds(n: nat)
    ensures Digits(n)[|Digits(n)| - 1] == DECIMAL_DIGITS[n % 10]
    ensures n > 0 ==> Digits(n)[0] != 48
  {
    if n >= 10 {
      DigitsEnds(n / 10);
    }
  }

  lemma {:induction false} SameTail(a: Str, b: Str, x: byte, y: byte)
    requires |a| == |b|
    ensures Before(a + [x], b + [y]) <==> Before(a, b) || (a == b && x < y)
  {
    if a == [] {
      assert [x][1..] == [] && [y][1..] == [];
    } else {
      SameTail(a[1..], b[1..], x, y);
      assert (a + [x])[1..] == a[1..] + [x] && (b + [y])[1..] == b[1..] + [y];
      assert a == [a[0]] + a[1..] && b == [b[0]] + b[1..];
    }
  }

  /** Of two numbers the lower one is printed shorter, or as long and before the other: the first digit counts most. */
  lemma {:induction false} DigitsOrder(m: nat, n: nat)
    requires m < n
    ensures |Digits(m)| < |Digits(n)| || (|Digits(m)| == |Digits(n)| && Before(Digits(m), Digits(n)))
  {
    if n < 10 {
      SameTail([], [], (48 + m) as byte, (48 + n) as byte);
      assert [] + Digits(m) == Digits(m) && [] + Digits(n) == Digits(n);
    } else if m >= 10 {
      if m / 10 < n / 10 {
        DigitsOrder(m / 10, n / 10);
      }
      if |Digits(m / 10)| == |Digits(n / 10)| {
        SameTail(Digits(m / 10), Digits(n / 10), (48 + m % 10) as byte, (48 + n % 10) as byte);
      }
    }
  }

  lemma {:induction false} AfterSpacesIs(spaces: Str, t: Str)
    requires (forall c | c in spaces :: c == 32 || 9 <= c <= 13) && (t == [] || !(t[0] == 32 || 9 <= t[0] <= 13))
    ensures AfterSpaces(spaces + t) == t
  {
    if spaces == [] {
      assert spaces + t == t;
    } else {
      assert spaces[0] in spaces && (spaces + t)[1..] == spaces[1..] + t;
      assert forall c | c in spaces[1..] :: c in spaces;
      AfterSpacesIs(spaces[1..], t);
    }
  }

  lemma {:induction false} MagnitudeStops(d: Str, rest: Str, acc: nat)
    requires (forall c | c in d :: IsDigit(c)) && (rest == [] || !IsDigit(rest[0]))
    ensures Magnitude(d + rest, acc) == Magnitude(d, acc)
    decreases |d|
  {
    if d == [] {
      assert d + rest == rest;
    } else {
      assert d[0] in d && (d + rest)[1..] == d[1..] + rest;
      MagnitudeStops(d[1..], rest, acc * 10 + (d[0] as nat - 48));
    }
  }

  /**
   What stoull accepts: spaces, one sign, a number of at most 64 bits, and anything behind it. A minus gives the number
   modulo 2^64.
   */
  lemma ReadsLeadingNumber(spaces: Str, sign: Str, n: nat, rest: Str)
    requires forall c | c in spaces :: c == 32 || 9 <= c <= 13
    requires sign in {[], Text("+"), Text("-")} && (rest == [] || !(48 <= rest[0] <= 57))
    ensures StoULL(spaces + sign + Digits(n) + rest)
         == if n >= TWO_64 then None else Some(if sign == Text("-") then (TWO_64 - n) % TWO_64 else n)
  {
    var d, t := Digits(n), sign + Digits(n) + rest;
    assert d[0] in d;
    assert Text("+") == [43] && Text("-") == [45];
    assert spaces + sign + d + rest == spaces + t;
    AfterSpacesIs(spaces, t);
    assert sign != [] ==> t[1..] == d + rest;
    assert sign == [] ==> t == d + rest;
    MagnitudeStops(d, rest, 0);
    MagnitudeOfDigits(n);
  }

  /** A text whose first character is no space, sign or digit is no number. */
  lemma ReadsNoNumber(s: Str)
    requires s == [] || !(s[0] == 32 || 9 <= s[0] <= 13 || s[0] == 43 || s[0] == 45 || 48 <= s[0] <= 57)
    ensures StoULL(s).None?
  {
  }
}
