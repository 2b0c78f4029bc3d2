/** Types and sequence functions shared by the models. */
module Basics {

  type byte = b: int | 0 <= b < 0x100

  type Word = w: int | 0 <= w < 0x1_0000

  // The largest value of a pixel.
  const MAX_DN: nat := 0x3fff

  datatype Option<+T> = None | Some(value: T)

  function Min(a: nat, b: nat): nat {
    if a < b then a else b
  }

  function Repeat<T>(x: T, n: nat): (s: seq<T>)
    ensures |s| == n
  {
    seq(n, _ => x)
  }

  function Zeros(n: nat): (z: seq<byte>)
    ensures |z| == n
  {
    Repeat(0, n)
  }

  function Flatten<T>(ss: seq<seq<T>>): (r: seq<T>) {
    if ss == [] then [] else ss[0] + Flatten(ss[1..])
  }

  lemma {:induction false} FlattenAppend<T>(a: seq<seq<T>>, b: seq<seq<T>>)
    ensures Flatten(a + b) == Flatten(a) + Flatten(b)
  {
    if a == [] {
      assert a + b == b;
    } else {
      assert (a + b)[0] == a[0] && (a + b)[1..] == a[1..] + b;
      FlattenAppend(a[1..], b);
    }
  }

  lemma MulAtLeast(m: int, d: int)
    ensures m >= 0 && d >= 1 ==> m * d >= m
    ensures m >= 0 && d <= -1 ==> m * d <= -m
  {
  }

  // A quotient and a remainder are the only ones.
  lemma DividesInto(n: nat, m: nat, q: int, r: nat)
    requires r < m && n == m * q + r
    ensures n / m == q && n % m == r
  {
    MulAtLeast(m, q - n / m);
    assert m * (q - n / m) == n % m - r;
  }
}
