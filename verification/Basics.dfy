/** Types shared by the modules. */
module Wrappers {
  datatype Option<+T> = None | Some(value: T)
}

/** A sequence taken apart at its end. */
module Sequences {
  function Last<T>(s: seq<T>): (last: T)
    requires s != []
  {
    s[|s| - 1]
  }

  function Init<T>(s: seq<T>): (init: seq<T>)
    requires s != []
  {
    s[..|s| - 1]
  }

  lemma Associates<T>(a: seq<T>, b: seq<T>, c: seq<T>)
    ensures (a + b) + c == a + (b + c)
  {
  }

  lemma NothingAdded<T>(a: seq<T>)
    ensures a + [] == a && [] + a == a
  {
  }

  /** A sequence and one element more is taken apart into the two. */
  lemma Snoc<T>(s: seq<T>, last: T)
    ensures Init(s + [last]) == s && Last(s + [last]) == last
  {
  }
}

/** Quotient and remainder are the only numbers that put a value together again. */
module Division {
  lemma DivisionUnique(x: int, m: int, q: int, r: int)
    requires m > 0 && x == q * m + r && 0 <= r < m
    ensures x / m == q && x % m == r
  {
    var d := x / m;
    assert x == d * m + x % m;
    assert d < q ==> (d + 1) * m <= q * m;
    assert d > q ==> (q + 1) * m <= d * m;
  }
}
