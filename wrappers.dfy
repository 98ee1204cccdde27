/** An optional value: JavaScript's `undefined`/`null` results become `None`. */
module Wrappers {
  datatype Option<+T> = None | Some(value: T)

  /** A `{ success, error }` record: a value, or the source's error message. */
  datatype Result<+T> = Ok(value: T) | Err(error: string)
}

/** The few JavaScript number operations the server uses, on exact numbers. */
module JsMath {

  /** A value `Math.random()` can return. */
  predicate IsRandomDraw(r: real)
  {
    0.0 <= r < 1.0
  }

  /** `Math.floor(r * n)` for a draw `r`: a uniform index below `n`. */
  function ScaledIndex(r: real, n: nat): (i: nat)
    requires IsRandomDraw(r) && n > 0
    ensures i < n
    ensures i as real <= r * n as real < i as real + 1.0
  {
    assert 0.0 <= r * n as real < n as real by {
      assert r * n as real < 1.0 * n as real;
    }
    (r * n as real).Floor
  }

  /** JavaScript's `a % b`: the remainder truncated toward zero, so it takes the sign of `a`. */
  function Rem(a: int, b: int): (r: int)
    requires b != 0
    ensures a >= 0 && b > 0 ==> r == a % b
    ensures (if a >= 0 then 0 <= r else r <= 0) && -(if b > 0 then b else -b) < r < (if b > 0 then b else -b)
  {
    var m := if b > 0 then b else -b;
    if a >= 0 then a % m else -((-a) % m)
  }

  function Digit(d: nat): (c: char)
    requires d < 10
    ensures '0' <= c <= '9'
  {
    ('0' as int + d) as char
  }

  /** A non-negative integer written in decimal, as a template literal prints it. */
  function NatToString(n: nat): (s: string)
    ensures |s| > 0
    ensures forall i :: 0 <= i < |s| ==> '0' <= s[i] <= '9'
  {
    if n < 10 then [Digit(n)] else NatToString(n / 10) + [Digit(n % 10)]
  }

  /** Different numbers print differently. */
  lemma {:induction false} NatToStringInjective(a: nat, b: nat)
    requires NatToString(a) == NatToString(b)
    ensures a == b
  {
    var s := NatToString(a);
    if a < 10 && b < 10 {
      assert Digit(a) == s[0] == Digit(b);
    } else if a >= 10 && b >= 10 {
      var sa, sb := NatToString(a / 10), NatToString(b / 10);
      assert s == sa + [Digit(a % 10)] == sb + [Digit(b % 10)];
      assert sa == s[..|s| - 1] == sb;
      assert Digit(a % 10) == s[|s| - 1] == Digit(b % 10);
      NatToStringInjective(a / 10, b / 10);
    }
  }
}
