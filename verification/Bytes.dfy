/** Bytes and flat concatenation, shared by every other module. */
module Bytes {

  type Byte = b: int | 0 <= b < 256

  function Min(a: int, b: int): int {
    if a < b then a else b
  }

  /** A big endian 16 bit field. */
  function Be16(hi: int, lo: int): int {
    hi * 256 + lo
  }

  /** The sequences of `parts`, one after the other. */
  function Concat<T>(parts: seq<seq<T>>): seq<T> {
    if parts == [] then [] else parts[0] + Concat(parts[1..])
  }

  lemma Associative<T>(a: seq<T>, b: seq<T>, c: seq<T>)
    ensures a + (b + c) == (a + b) + c
  {
  }

  /** Taking `n` elements in two steps. */
  lemma TakeInTwo<T>(q: seq<T>, m: nat, n: nat)
    requires m <= n <= |q|
    ensures q[..m] + q[m..][..n - m] == q[..n]
    ensures q[m..][n - m..] == q[n..]
  {
  }

  lemma {:induction false} ConcatSplit<T>(a: seq<seq<T>>, b: seq<seq<T>>)
    ensures Concat(a + b) == Concat(a) + Concat(b)
  {
    if a == [] {
      assert a + b == b;
    } else {
      ConcatSplit(a[1..], b);
      assert (a + b)[0] == a[0] && (a + b)[1..] == a[1..] + b;
      Associative(a[0], Concat(a[1..]), Concat(b));
    }
  }

  lemma ConcatOne<T>(a: seq<T>)
    ensures Concat([a]) == a
  {
    assert Concat([a]) == a + Concat([]);
  }
}
