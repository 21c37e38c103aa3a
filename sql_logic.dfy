/**
 * The part of SQL's semantics that the schema's CHECK constraints rely on:
 * three-valued logic (a comparison with NULL is UNKNOWN), the rule that a
 * CHECK constraint rejects a row only when its expression is FALSE, and
 * PostgreSQL's integer remainder operator.
 */
module SqlLogic {
  import opened Wrappers

  /** SQL's truth values. */
  datatype Truth = True | False | Unknown

  function FromBool(b: bool): Truth {
    if b then True else False
  }

  /** Kleene conjunction, as SQL's AND. */
  function And(a: Truth, b: Truth): Truth {
    if a == False || b == False then False
    else if a == True && b == True then True
    else Unknown
  }

  /** Kleene disjunction, as SQL's OR. */
  function Or(a: Truth, b: Truth): Truth {
    if a == True || b == True then True
    else if a == False && b == False then False
    else Unknown
  }

  /** A CHECK constraint admits a row unless its expression evaluates to FALSE. */
  predicate Admits(t: Truth) {
    t != False
  }

  /** `col IS NULL`: never UNKNOWN. */
  function IsNull<T>(col: Option<T>): Truth {
    FromBool(col.None?)
  }

  /** `col IS NOT NULL`: never UNKNOWN. */
  function IsNotNull<T>(col: Option<T>): Truth {
    FromBool(col.Some?)
  }

  /** A comparison `col <op> constant` on a nullable column: UNKNOWN when the column is NULL. */
  function Compare<T>(col: Option<T>, holds: T -> bool): Truth {
    match col
    case None => Unknown
    case Some(v) => FromBool(holds(v))
  }

  function Abs(n: int): nat {
    if n < 0 then -n else n
  }

  /**
   * PostgreSQL's `%` on integers: the remainder of division truncated toward
   * zero, so it takes the sign of the dividend (Dafny's `%` is Euclidean).
   */
  function TruncMod(a: int, b: int): (r: int)
    requires b != 0
    ensures Abs(r) < Abs(b)
    ensures a >= 0 ==> r >= 0
    ensures a < 0 ==> r <= 0
    ensures (a - r) % Abs(b) == 0
  {
    var n := Abs(b);
    var m := Abs(a) % n;
    MultipleMod(Abs(a) / n, n);
    assert Abs(a) - m == (Abs(a) / n) * n;
    if a < 0 then
      MultipleMod(-(Abs(a) / n), n);
      assert a - -m == -(Abs(a) / n) * n;
      -m
    else m
  }

  /** A multiple of `n` leaves no remainder. */
  lemma MultipleMod(q: int, n: int)
    requires n > 0
    ensures (q * n) % n == 0
  {
    var r := (q * n) % n;
    var d := (q * n) / n;
    assert q * n == d * n + r;
    assert (q - d) * n == r;
    if q - d >= 1 {
      MultipleBounds(n, q - d);
    } else if q - d <= -1 {
      MultipleBounds(n, q - d);
    }
  }

  /** Errors that evaluating an expression can raise. */
  datatype SqlError = DivisionByZero

  /** `a % b` on nullable integers: NULL if either operand is NULL, an error when dividing by zero. */
  function SqlMod(a: Option<int>, b: Option<int>): (r: Result<Option<int>, SqlError>)
    ensures r.Err? <==> a.Some? && b == Some(0)
    ensures r.Ok? ==> (r.value.None? <==> a.None? || b.None?)
  {
    match (a, b)
    case (Some(x), Some(y)) => if y == 0 then Err(DivisionByZero) else Ok(Some(TruncMod(x, y)))
    case _ => Ok(None)
  }

  /** Divisibility does not depend on which rounding the remainder uses. */
  lemma TruncModZeroIff(a: int, b: int)
    requires b != 0
    ensures TruncMod(a, b) == 0 <==> a % b == 0
  {
    var n := Abs(b);
    NegatedDivisible(a, n);
    assert Abs(a) % n == 0 <==> a % n == 0;
    if b < 0 {
      NegativeDivisor(a, b);
    }
  }

  lemma NegativeDivisor(a: int, b: int)
    requires b < 0
    ensures a % b == a % (-b)
  {
  }

  lemma NegatedDivisible(a: int, n: int)
    requires n > 0
    ensures a % n == 0 <==> (-a) % n == 0
  {
    var q, r := a / n, a % n;
    var q', r' := (-a) / n, (-a) % n;
    assert a == n * q + r;
    assert -a == n * q' + r';
    assert r + r' == n * (-q - q');
    MultipleBounds(n, -q - q');
  }

  lemma MultipleBounds(n: int, m: int)
    requires n > 0
    ensures m >= 1 ==> n * m >= n
    ensures m <= -1 ==> n * m <= -n
  {
    if m >= 1 {
      assert n * m == n * (m - 1) + n;
      assert n * (m - 1) >= 0;
    } else if m <= -1 {
      assert n * m == n * (m + 1) - n;
      assert n * (m + 1) <= 0;
    }
  }
}
