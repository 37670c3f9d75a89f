/**
 * The two pieces of Python integer semantics the pipeline leans on:
 * `int(a / d)` (true division, then truncation toward zero) and list
 * indexing, where a negative index counts from the end.
 */
module PyOps {

  datatype Option<+T> = None | Some(value: T)

  /** `q` is `a / d` truncated toward zero: `q * d` lies between zero and
      `a`, less than one step of `d` away from `a`. */
  predicate IsTruncQuotient(a: int, d: int, q: int) {
    && (0 <= a ==> 0 <= q * d <= a < q * d + d)
    && (a < 0 ==> q * d - d < a <= q * d <= 0)
  }

  /** `int(a / d)` for an integer `a` and a positive integer `d`.  Dafny's
      own `/` is Euclidean, so the negative case is written out. */
  function TruncDiv(a: int, d: int): (q: int)
    requires d > 0
    ensures IsTruncQuotient(a, d, q)
  {
    if a >= 0 then
      DivBrackets(a, d);
      a / d
    else
      DivBrackets(-a, d);
      -((-a) / d)
  }

  /** Euclidean quotient of a non-negative dividend brackets it. */
  lemma DivBrackets(a: nat, d: int)
    requires d > 0
    ensures 0 <= (a / d) * d <= a < (a / d) * d + d
  {
    assert a == (a / d) * d + a % d;
  }

  /** Truncation is symmetric about zero, which Euclidean division is not:
      negating a truncating quotient's dividend negates the quotient. */
  lemma TruncDivOdd(a: int, d: int, q: int)
    requires d > 0
    requires IsTruncQuotient(a, d, q)
    ensures IsTruncQuotient(-a, d, -q)
    ensures TruncDiv(-a, d) == -TruncDiv(a, d)
  {
    assert (-q) * d == -(q * d);
    TruncQuotientIsUnique(a, d, q);
    TruncQuotientIsUnique(-a, d, -q);
  }

  /** The bracketing contract of `TruncDiv` pins the quotient down: it is the
      only integer truncating `a / d`. */
  lemma TruncQuotientIsUnique(a: int, d: int, q: int)
    requires d > 0
    requires IsTruncQuotient(a, d, q)
    ensures q == TruncDiv(a, d)
  {
    var t := TruncDiv(a, d);
    if a >= 0 {
      UniqueQuotient(a, d, q, t);
    } else {
      assert (-q) * d <= -a < (-q) * d + d;
      assert (-t) * d <= -a < (-t) * d + d;
      UniqueQuotient(-a, d, -q, -t);
    }
  }

  /** Two quotients that both bracket `a` within one step of `d` agree. */
  lemma UniqueQuotient(a: int, d: int, q1: int, q2: int)
    requires d > 0
    requires q1 * d <= a < q1 * d + d
    requires q2 * d <= a < q2 * d + d
    ensures q1 == q2
  {
    assert (q2 - q1) * d == q2 * d - q1 * d;
    MultipleBounds(q2 - q1, d);
  }

  /** A non-zero multiple of `d` is at least `d` away from zero. */
  lemma MultipleBounds(k: int, d: int)
    requires d > 0
    ensures k >= 1 ==> k * d >= d
    ensures k <= -1 ==> k * d <= -d
  {
    if k >= 1 {
      assert k * d == (k - 1) * d + d;
    } else if k <= -1 {
      assert k * d == (k + 1) * d - d;
    }
  }

  /** Python `s[i]`: `None` stands for the IndexError raised when `i` is
      outside `[-|s|, |s|)`. */
  function Lookup<T>(s: seq<T>, i: int): (r: Option<T>)
    ensures r.Some? <==> -|s| <= i < |s|
    ensures 0 <= i < |s| ==> r == Some(s[i])
    ensures -|s| <= i < 0 ==> r == Some(s[|s| + i])
  {
    if 0 <= i < |s| then Some(s[i])
    else if -|s| <= i < 0 then Some(s[|s| + i])
    else None
  }
}
