/** Bytes, sequence concatenation and the fixed-width arithmetic shared by the models. */
module Common {
  type byte = x: int | 0 <= x < 256

  const TWO32: nat := 0x1_0000_0000
  const TWO64: nat := 0x1_0000_0000_0000_0000

  function Min(a: int, b: int): int { if a < b then a else b }

  function Max(a: int, b: int): int { if a < b then b else a }

  /** Concatenation of all elements of `parts`, in order. */
  function Concat<T>(parts: seq<seq<T>>): seq<T> {
    if parts == [] then [] else Concat(parts[..|parts| - 1]) + parts[|parts| - 1]
  }

  lemma {:induction false} ConcatAppend<T>(a: seq<seq<T>>, b: seq<seq<T>>)
    ensures Concat(a + b) == Concat(a) + Concat(b)
  {
    if b == [] {
      assert a + b == a;
    } else {
      var b' := b[..|b| - 1];
      assert (a + b)[..|a + b| - 1] == a + b';
      ConcatAppend(a, b');
    }
  }

  lemma ConcatCons<T>(p: seq<T>, parts: seq<seq<T>>)
    ensures Concat([p] + parts) == p + Concat(parts)
  {
    ConcatAppend([p], parts);
    assert Concat([p]) == Concat([]) + p;
  }

  lemma Assoc<T>(a: seq<T>, b: seq<T>, c: seq<T>)
    ensures a + b + c == a + (b + c)
  {
  }

  lemma SplitAt<T>(s: seq<T>, n: nat)
    requires n <= |s|
    ensures s[..n] + s[n..] == s
  {
  }

  lemma SliceJoin<T>(s: seq<T>, a: nat, b: nat, c: nat)
    requires a <= b <= c <= |s|
    ensures s[a..b] + s[b..c] == s[a..c]
  {
  }

  /** The largest multiple of `unit` that is at most n. */
  function Whole(n: nat, unit: nat): (w: nat)
    requires unit > 0
    ensures w <= n < w + unit
  {
    if n < unit then 0 else unit + Whole(n - unit, unit)
  }

  predicate Multiple(n: nat, unit: nat)
    requires unit > 0
  {
    Whole(n, unit) == n
  }

  /** A quotient and remainder in range are the quotient and remainder. */
  lemma DivModUnique(x: int, n: int, q: int, r: int)
    requires n > 0 && x == q * n + r && 0 <= r < n
    ensures x / n == q && x % n == r
  {
    var d := x / n - q;
    assert d * n == r - x % n by {
      assert x == x / n * n + x % n;
      assert d * n == x / n * n - q * n;
    }
    assert -n < d * n < n;
    assert d == 0;
  }

  lemma {:induction false} WholeQuotient(n: nat, unit: nat) returns (q: nat)
    requires unit > 0
    ensures Whole(n, unit) == q * unit
  {
    if n < unit {
      q := 0;
    } else {
      var p := WholeQuotient(n - unit, unit);
      q := p + 1;
    }
  }

  lemma WholeIsDivision(n: nat, unit: nat)
    requires unit > 0
    ensures Whole(n, unit) == n / unit * unit
  {
    var q := WholeQuotient(n, unit);
    DivModUnique(n, unit, q, n - Whole(n, unit));
  }

  lemma MultipleIsMod(n: nat, unit: nat)
    requires unit > 0
    ensures Multiple(n, unit) <==> n % unit == 0
  {
    var q := WholeQuotient(n, unit);
    DivModUnique(n, unit, q, n - Whole(n, unit));
  }

  lemma {:induction false} WholeAdd(a: nat, b: nat, unit: nat)
    requires unit > 0 && Multiple(a, unit)
    ensures Whole(a + b, unit) == a + Whole(b, unit)
  {
    if a >= unit {
      WholeAdd(a - unit, b, unit);
    }
  }

  lemma {:induction false} WholeMultiple(n: nat, unit: nat)
    requires unit > 0
    ensures Multiple(Whole(n, unit), unit)
  {
    if n >= unit {
      WholeMultiple(n - unit, unit);
    }
  }
}
