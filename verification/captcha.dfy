/**
  The arithmetic captcha shared by the public form and the admin login:
  two numbers drawn from 1..10 and their sum, and the check of a typed
  answer. `Math.random()` is a parameter: a real in [0, 1).
 */
module Captcha {
  import opened Common
  import opened Text
  import opened Types

  /** A value `Math.random()` can return. */
  predicate IsRandom(r: real) {
    0.0 <= r < 1.0
  }

  /** `Math.floor(r * 10) + 1`: one captcha operand. */
  function Operand(r: real): (n: int)
    requires IsRandom(r)
    ensures 1 <= n <= 10
  {
    (r * 10.0).Floor + 1
  }

  /** A challenge of the shape every generated challenge has. */
  predicate WellFormed(c: CaptchaChallenge) {
    1 <= c.num1 <= 10 && 1 <= c.num2 <= 10 && c.answer == c.num1 + c.num2
  }

  /** `generateCaptcha`: two operands from two random draws, and their sum. */
  function Generate(r1: real, r2: real): (c: CaptchaChallenge)
    requires IsRandom(r1) && IsRandom(r2)
    ensures WellFormed(c)
    ensures 2 <= c.answer <= 20
  {
    var a := Operand(r1);
    var b := Operand(r2);
    CaptchaChallenge(a, b, a + b)
  }

  /** Every well-formed challenge is produced by some pair of random draws. */
  lemma EveryChallengeReachable(c: CaptchaChallenge)
    requires WellFormed(c)
    ensures exists r1, r2 :: IsRandom(r1) && IsRandom(r2) && Generate(r1, r2) == c
  {
    var r1 := (c.num1 - 1) as real / 10.0;
    var r2 := (c.num2 - 1) as real / 10.0;
    assert Operand(r1) == c.num1 by {
      assert r1 * 10.0 == (c.num1 - 1) as real;
    }
    assert Operand(r2) == c.num2 by {
      assert r2 * 10.0 == (c.num2 - 1) as real;
    }
    assert Generate(r1, r2) == c;
  }

  /** The typed answer, read with `parseInt`, equals the challenge's answer. */
  predicate Accepted(c: CaptchaChallenge, input: string) {
    ParseInt(input) == Some(c.answer)
  }

  /**
    Typing the decimal text of the answer passes the check, and no other
    number typed in decimal does.
   */
  lemma AcceptedExactly(c: CaptchaChallenge, n: nat)
    requires WellFormed(c)
    ensures Accepted(c, NatToDecimal(n)) <==> n == c.answer
  {
    ParseIntDecimal(n);
  }
}
