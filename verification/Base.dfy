/** Byte strings, and the small datatypes every other module shares. */
module Base {

  newtype byte = x: int | 0 <= x < 256

  /** File contents, and the octets of a `std::string`. */
  type Bytes = seq<byte>
  type Str = seq<byte>

  datatype Option<+T> = None | Some(value: T)

  /** A value, or an exception. */
  datatype Result<+T> = Ok(value: T) | Err {
    predicate IsFailure() { Err? }
    function PropagateFailure<U>(): Result<U>
      requires Err?
    {
      Err
    }
    function Extract(): T
      requires Ok?
    {
      value
    }
  }

  const NEWLINE: byte := 10

  const TWO_32: int := 0x1_0000_0000
  const TWO_64: int := 0x1_0000_0000_0000_0000

  /** The octets of an ASCII literal. */
  function Text(s: string): (t: Str)
    requires forall c | c in s :: c < 128 as char
    ensures |t| == |s|
  {
    seq(|s|, i requires 0 <= i < |s| => assert s[i] in s; s[i] as int as byte)
  }

  function Min(a: int, b: int): int {
    if a < b then a else b
  }

  /** The order of byte strings, which is that of SQLite's texts: byte by byte. */
  predicate Before(a: Str, b: Str) {
    if b == [] then false
    else if a == [] then true
    else a[0] < b[0] || (a[0] == b[0] && Before(a[1..], b[1..]))
  }

  lemma {:induction false} BeforeIsTotal(a: Str, b: Str)
    ensures a == b || Before(a, b) || Before(b, a)
  {
    if a != [] && b != [] && a[0] == b[0] {
      BeforeIsTotal(a[1..], b[1..]);
      assert a == [a[0]] + a[1..] && b == [b[0]] + b[1..];
    }
  }

  lemma {:induction false} BeforeIsTransitive(a: Str, b: Str, c: Str)
    requires Before(a, b) && Before(b, c)
    ensures Before(a, c)
  {
    if a != [] && a[0] == b[0] == c[0] {
      BeforeIsTransitive(a[1..], b[1..], c[1..]);
    }
  }

  /** a comes first if it is a proper first part of b, or is lower where the two first differ. */
  lemma {:induction false} BeforeIs(a: Str, b: Str)
    ensures Before(a, b) <==> exists k: nat :: IsLower(a, b, k)
  {
    if a != [] && b != [] && a[0] == b[0] {
      BeforeIs(a[1..], b[1..]);
      if k: nat :| IsLower(a[1..], b[1..], k) {
        assert a[..k + 1] == [a[0]] + a[1..][..k] && b[..k + 1] == [b[0]] + b[1..][..k];
        assert IsLower(a, b, k + 1);
      }
      if k: nat :| IsLower(a, b, k) {
        assert a[1..][..k - 1] == a[..k][1..] && b[1..][..k - 1] == b[..k][1..];
        assert IsLower(a[1..], b[1..], k - 1);
      }
    } else if Before(a, b) {
      assert IsLower(a, b, 0);
    } else if a != [] && b != [] {
      assert forall k: nat | 0 < k <= |a| && k <= |b| :: a[..k][0] == a[0] && b[..k][0] == b[0];
    }
  }

  predicate IsLower(a: Str, b: Str, k: nat) {
    k <= |a| && k < |b| && a[..k] == b[..k] && (k == |a| || a[k] < b[k])
  }
}
