/** Small shared vocabulary: an optional value and the arithmetic helpers that
    the TypeScript/JavaScript sources use (`Math.max`, `Math.abs` and the
    truncating `%` operator of JavaScript). */
module Common {

  /** A value that may be absent (`null` in the source). */
  datatype Option<+T> = None | Some(value: T)

  /** `Math.max` on two numbers. */
  function MaxReal(a: real, b: real): (m: real)
    ensures m >= a && m >= b
    ensures m == a || m == b
  {
    if a >= b then a else b
  }

  /** `Math.abs` on an integer. */
  function Abs(n: int): (a: nat)
    ensures a == n || a == -n
  {
    if n < 0 then -n else n
  }

  /** JavaScript's `a % b`: the remainder of division truncated toward zero,
      whose sign follows the dividend. Dafny's own `%` is Euclidean and never
      negative, so the two differ for negative dividends. */
  function JsRem(a: int, b: int): (r: int)
    requires b != 0
    ensures Abs(r) < Abs(b)
    ensures a >= 0 ==> r >= 0
    ensures a < 0 ==> r <= 0
    ensures exists k :: a == k * b + r
  {
    var r := if a >= 0 then a % Abs(b) else -((-a) % Abs(b));
    TruncatedDivision(a, b);
    assert a == JsQuot(a, b) * b + r;
    r
  }

  /** The quotient JavaScript's `%` pairs with: `a / b` truncated toward zero. */
  function JsQuot(a: int, b: int): int
    requires b != 0
  {
    var q := Abs(a) / Abs(b);
    if (a >= 0) == (b > 0) then q else -q
  }

  /** Truncated quotient and remainder recompose the dividend. */
  lemma TruncatedDivision(a: int, b: int)
    requires b != 0
    ensures a == JsQuot(a, b) * b + (if a >= 0 then a % Abs(b) else -((-a) % Abs(b)))
  {
    var n: int, d: int := Abs(a), Abs(b);
    var q: int, m: int := n / d, n % d;
    assert n == q * d + m;
    assert (-q) * d == -(q * d) && q * (-d) == -(q * d) && (-q) * (-d) == q * d;
  }

  /** The three values `n % 2` takes in JavaScript, and what each one means. */
  lemma JsRemTwo(n: int)
    ensures JsRem(n, 2) == 0 <==> n % 2 == 0
    ensures JsRem(n, 2) == 1 <==> n >= 0 && n % 2 == 1
    ensures JsRem(n, 2) == -1 <==> n < 0 && n % 2 == 1
  {
    if n < 0 {
      assert (-n) % 2 == 0 <==> n % 2 == 0;
    }
  }
}
