/** The simplified E-model score (core/rtp/mos.go), over exact reals. */
module Mos {

  function Clamp(x: real, lo: real, hi: real): real {
    if x < lo then lo else if x > hi then hi else x
  }

  function RFactor(loss: real, jitter: real): real {
    Clamp(94.2 - loss * 2.5 - jitter * 0.1, 0.0, 100.0)
  }

  function Cubic(r: real): real {
    1.0 + 0.035 * r + (r * (r - 60.0) * (100.0 - r)) * 0.000007
  }

  /** Two decimals, halves away from zero; the argument is never negative here. */
  function Round2(x: real): real { (x * 100.0 + 0.5).Floor as real / 100.0 }

  function CalculateMOS(loss: real, jitter: real): real {
    Round2(Clamp(Cubic(RFactor(loss, jitter)), 1.0, 5.0))
  }

  lemma CubicForm(r: real)
    ensures Cubic(r) == 1.0 + r * (r * (160.0 - r) - 1000.0) * 0.000007
  {
    assert r * (r - 60.0) * (100.0 - r) == r * (r * (160.0 - r) - 6000.0);
    assert 0.035 * r == r * 5000.0 * 0.000007;
  }

  /** The cubic dips below 1 near zero, but wherever it exceeds 1 it never falls again before 100. */
  lemma CubicRises(a: real, b: real)
    requires 0.0 <= a <= b <= 100.0
    ensures Cubic(a) <= 1.0 || Cubic(a) <= Cubic(b)
  {
    CubicForm(a);
    CubicForm(b);
    var p, q := a * (160.0 - a) - 1000.0, b * (160.0 - b) - 1000.0;
    if Cubic(a) > 1.0 {
      assert p > 0.0 by { if p <= 0.0 { NonPositiveProduct(a, p); } }
      var h := p + b * (160.0 - a - b);
      assert b * q - a * p == (b - a) * h by { Difference(a, b); }
      assert h >= 0.0 by { SlopePositive(a, b); }
      NonNegativeProduct(b - a, h);
    }
  }

  lemma NonPositiveProduct(x: real, y: real)
    requires x >= 0.0 && y <= 0.0
    ensures x * y <= 0.0
  {}

  lemma NonNegativeProduct(x: real, y: real)
    requires x >= 0.0 && y >= 0.0
    ensures x * y >= 0.0
  {}

  lemma Difference(a: real, b: real)
    ensures b * (b * (160.0 - b) - 1000.0) - a * (a * (160.0 - a) - 1000.0)
         == (b - a) * (a * (160.0 - a) - 1000.0 + b * (160.0 - a - b))
  {
    var a2, b2, ab := a * a, b * b, a * b;
    assert b * (b * (160.0 - b) - 1000.0) == 160.0 * b2 - b2 * b - 1000.0 * b;
    assert a * (a * (160.0 - a) - 1000.0) == 160.0 * a2 - a2 * a - 1000.0 * a;
    assert a * (160.0 - a) - 1000.0 + b * (160.0 - a - b) == 160.0 * a - a2 - 1000.0 + 160.0 * b - ab - b2;
    assert b * (160.0 * a - a2 - 1000.0 + 160.0 * b - ab - b2)
        == 160.0 * ab - a2 * b - 1000.0 * b + 160.0 * b2 - ab * b - b2 * b;
    assert a * (160.0 * a - a2 - 1000.0 + 160.0 * b - ab - b2)
        == 160.0 * a2 - a2 * a - 1000.0 * a + 160.0 * ab - a * ab - a * b2;
    assert a * ab == a2 * b && ab * b == a * b2;
  }

  lemma SlopePositive(a: real, b: real)
    requires 0.0 <= a <= b <= 100.0 && a * (160.0 - a) > 1000.0
    ensures a * (160.0 - a) - 1000.0 + b * (160.0 - a - b) >= 0.0
  {
    if a + b > 160.0 {
      // b <= 100, so b * (160 - a - b) is at least 100 * (60 - a) once a + b exceeds 160.
      assert (100.0 - b) * (b + a - 60.0) >= 0.0 by { NonNegativeProduct(100.0 - b, b + a - 60.0); }
      assert b * (160.0 - a - b) - 100.0 * (60.0 - a) == (100.0 - b) * (b + a - 60.0);
      assert (100.0 - a) * (a + 40.0) >= 0.0 by { NonNegativeProduct(100.0 - a, a + 40.0); }
      assert (100.0 - a) * (a + 40.0) == 4000.0 + 60.0 * a - a * a;
    } else {
      NonNegativeProduct(b, 160.0 - a - b);
    }
  }

  lemma RoundMonotone(x: real, y: real)
    requires x <= y
    ensures Round2(x) <= Round2(y)
  {
    assert (x * 100.0 + 0.5).Floor <= (y * 100.0 + 0.5).Floor;
  }

  /** More loss or more jitter never improves the score, for any real inputs. */
  lemma ScoreAntitone(loss: real, jitter: real, loss': real, jitter': real)
    requires loss <= loss' && jitter <= jitter'
    ensures CalculateMOS(loss', jitter') <= CalculateMOS(loss, jitter)
  {
    var a, b := RFactor(loss', jitter'), RFactor(loss, jitter);
    CubicRises(a, b);
    RoundMonotone(Clamp(Cubic(a), 1.0, 5.0), Clamp(Cubic(b), 1.0, 5.0));
  }

  /** The documented range is [1, 5]; without negative loss or jitter the score is at most 4.43, its value at (0, 0). */
  lemma ScoreRange(loss: real, jitter: real)
    requires loss >= 0.0 && jitter >= 0.0
    ensures 1.0 <= CalculateMOS(loss, jitter) <= CalculateMOS(0.0, 0.0) == 4.43
  {
    ScoreAntitone(0.0, 0.0, loss, jitter);
    RoundMonotone(1.0, Clamp(Cubic(RFactor(loss, jitter)), 1.0, 5.0));
    assert Round2(1.0) == 1.0;
    assert Cubic(94.2) == 1.0 + 0.035 * 94.2 + (94.2 * 34.2 * 5.8) * 0.000007;
    assert (Cubic(94.2) * 100.0 + 0.5).Floor == 443;
  }

  /** One percent of loss costs exactly as much as 25 ms of jitter. */
  lemma OnePercentIs25Milliseconds(loss: real, jitter: real)
    ensures CalculateMOS(loss + 1.0, jitter) == CalculateMOS(loss, jitter + 25.0)
  {
    assert 94.2 - (loss + 1.0) * 2.5 - jitter * 0.1 == 94.2 - loss * 2.5 - (jitter + 25.0) * 0.1;
  }

  /** Values of the documented formula, rounded to two decimals. */
  lemma ScorePoints()
    ensures CalculateMOS(10.0, 0.0) == 3.56 && CalculateMOS(0.0, 100.0) == 4.17 && CalculateMOS(20.0, 0.0) == 2.27
    ensures CalculateMOS(38.0, 0.0) == 1.0 && CalculateMOS(0.0, 942.0) == 1.0
  {
    assert Cubic(69.2) == 1.0 + 0.035 * 69.2 + (69.2 * 9.2 * 30.8) * 0.000007;
    assert (Cubic(69.2) * 100.0 + 0.5).Floor == 356;
    assert Cubic(84.2) == 1.0 + 0.035 * 84.2 + (84.2 * 24.2 * 15.8) * 0.000007;
    assert (Cubic(84.2) * 100.0 + 0.5).Floor == 417;
    assert Cubic(44.2) == 1.0 + 0.035 * 44.2 + (44.2 * (-15.8) * 55.8) * 0.000007;
    assert (Cubic(44.2) * 100.0 + 0.5).Floor == 227;
  }
}
