/** Notions that several modules share. */
module Basics {

  /** The outcome of something that can fail. */
  datatype Result<+T> = Ok(value: T) | Error

  function Min(a: int, b: int): int { if b < a then b else a }
  function Max(a: int, b: int): int { if a < b then b else a }

  /** Integer division of C++, which rounds towards zero. */
  function TruncDiv(a: int, b: int): int
    requires b != 0
  {
    if a >= 0 then (if b > 0 then a / b else -(a / -b)) else (if b > 0 then -(-a / b) else -a / -b)
  }

  function Abs(a: int): (r: int) ensures r >= 0 { if a < 0 then -a else a }

  /** The remainder that this division leaves is smaller than the divisor and has the sign of the dividend. */
  lemma TruncDivRounds(a: int, b: int)
    requires b != 0
    ensures var r := a - b * TruncDiv(a, b);
      -Abs(b) < r < Abs(b) && (a >= 0 ==> r >= 0) && (a <= 0 ==> r <= 0)
  {
    var n, d := Abs(a), Abs(b);
    var q := n / d;
    assert n == d * q + n % d;
    if (a >= 0) == (b > 0) {
      assert TruncDiv(a, b) == q;
      assert b * q == d * q || b * q == -(d * q);
    } else {
      assert TruncDiv(a, b) == -q;
      assert b * -q == d * q || b * -q == -(d * q);
    }
  }

  lemma PrefixMore<T>(p: seq<T>, a: seq<T>, c: seq<T>)
    requires p <= a
    ensures p <= a + c
  {
  }

  lemma SliceOfDrop<T>(s: seq<T>, d: nat, i: nat, j: nat)
    requires d <= |s| && i <= j <= |s| - d
    ensures s[d..][i..j] == s[d + i..d + j]
  {
  }

  lemma SliceOfFirst<T>(a: seq<T>, b: seq<T>, i: nat, j: nat)
    requires i <= j <= |a|
    ensures (a + b)[i..j] == a[i..j]
  {
  }

  lemma SliceOfSecond<T>(a: seq<T>, b: seq<T>, i: nat, j: nat)
    requires i <= j <= |b|
    ensures (a + b)[|a| + i..|a| + j] == b[i..j]
  {
  }

  lemma Associates<T>(a: seq<T>, b: seq<T>, c: seq<T>)
    ensures a + b + c == a + (b + c)
  {
  }

  function Last<T>(s: seq<T>): T requires s != [] { s[|s| - 1] }
  function Init<T>(s: seq<T>): seq<T> requires s != [] { s[..|s| - 1] }
}
