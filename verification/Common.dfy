/** Small things several models need. */
module Common {
  type Byte = b: int | 0 <= b < 256

  datatype Option<+T> = None | Some(value: T)

  function Abs(x: int): nat {
    if x < 0 then -x else x
  }

  lemma Associate<T>(a: seq<T>, b: seq<T>, c: seq<T>)
    ensures a + b + c == a + (b + c)
  {}

  /** Multiples of `n` are at least `n` apart. */
  lemma MultiplesApart(y: int, z: int, n: nat)
    ensures y < z ==> y * n + n <= z * n
  {
    if y < z {
      var more := z - y - 1;
      assert more * n >= 0;
      assert z * n == y * n + n + more * n;
    }
  }

  /** A quotient and remainder that fit are the ones division gives. */
  lemma Quotient(x: int, n: int, q: int, r: int)
    requires n > 0 && x == q * n + r && 0 <= r < n
    ensures x / n == q && x % n == r
  {
    var q', r' := x / n, x % n;
    assert x == q' * n + r' && 0 <= r' < n;
    MultiplesApart(q, q', n);
    MultiplesApart(q', q, n);
  }

  function Sum(list: seq<int>): int {
    if list == [] then 0 else list[0] + Sum(list[1..])
  }

  lemma {:induction false} SumConcat(a: seq<int>, b: seq<int>)
    ensures Sum(a + b) == Sum(a) + Sum(b)
  {
    if a == [] {
      assert a + b == b;
    } else {
      SumConcat(a[1..], b);
      assert (a + b)[1..] == a[1..] + b;
    }
  }
}
