/** Fitting a line to a window of samples (src/constellation/autoscale/predictive.c), over exact
    real numbers. */
module LeastSquares {

  /** The samples are taken at 0, 1, 2, ...: sums of places, squares, values and products. */
  function SumX(n: nat): real {
    if n == 0 then 0.0 else SumX(n - 1) + (n - 1) as real
  }

  function SumXX(n: nat): real {
    if n == 0 then 0.0 else SumXX(n - 1) + Square((n - 1) as real)
  }

  function SumY(ys: seq<real>): real {
    if ys == [] then 0.0 else SumY(ys[..|ys| - 1]) + ys[|ys| - 1]
  }

  function SumXY(ys: seq<real>): real {
    if ys == [] then 0.0 else SumXY(ys[..|ys| - 1]) + Product((|ys| - 1) as real, ys[|ys| - 1])
  }

  function SumYY(ys: seq<real>): real {
    if ys == [] then 0.0 else SumYY(ys[..|ys| - 1]) + Square(ys[|ys| - 1])
  }

  function Square(x: real): (r: real)
    ensures r >= 0.0
  {
    x * x
  }

  function Product(x: real, y: real): real {
    x * y
  }

  function LineAt(slope: real, intercept: real, x: real): real {
    slope * x + intercept
  }

  /** The squared errors of the line `slope * x + intercept`, summed. */
  function Error(ys: seq<real>, slope: real, intercept: real): (e: real)
    ensures e >= 0.0
  {
    if ys == [] then 0.0
    else
      Error(ys[..|ys| - 1], slope, intercept)
      + Square(ys[|ys| - 1] - LineAt(slope, intercept, (|ys| - 1) as real))
  }

  function Determinant(n: real, sx: real, sxx: real): real {
    n * sxx - sx * sx
  }

  function Numerator(n: real, sx: real, sy: real, sxy: real): real {
    n * sxy - sx * sy
  }

  function Denominator(n: nat): real {
    Determinant(n as real, SumX(n), SumXX(n))
  }

  function Slope(ys: seq<real>): real
    requires Denominator(|ys|) != 0.0
  {
    Numerator(|ys| as real, SumX(|ys|), SumY(ys), SumXY(ys)) / Denominator(|ys|)
  }

  function Intercept(ys: seq<real>): real
    requires ys != [] && Denominator(|ys|) != 0.0
  {
    (SumY(ys) - Product(Slope(ys), SumX(|ys|))) / |ys| as real
  }

  // ---------- The denominator ----------

  lemma {:induction false} SumXClosed(n: nat)
    ensures 2.0 * SumX(n) == n as real * (n as real - 1.0)
  {
    if n > 0 {
      SumXClosed(n - 1);
      var m := (n - 1) as real;
      assert n as real == m + 1.0;
    }
  }

  lemma {:induction false} SumXXClosed(n: nat)
    ensures 6.0 * SumXX(n) == n as real * (n as real - 1.0) * (2.0 * n as real - 1.0)
  {
    if n > 0 {
      SumXXClosed(n - 1);
      var m := (n - 1) as real;
      assert n as real == m + 1.0;
      CubeStep(m);
    }
  }

  lemma {:induction false} CubeStep(m: real)
    ensures m * (m - 1.0) * (2.0 * m - 1.0) + 6.0 * (m * m) == (m + 1.0) * m * (2.0 * (m + 1.0) - 1.0)
  {
  }

  lemma {:induction false} DenominatorIs(n: nat)
    ensures var x := n as real; 12.0 * Denominator(n) == x * x * (x - 1.0) * (x + 1.0)
  {
    SumXClosed(n);
    SumXXClosed(n);
    DenominatorFactors(n as real, SumX(n), SumXX(n));
  }

  lemma {:induction false} DenominatorFactors(x: real, s: real, q: real)
    requires 2.0 * s == x * (x - 1.0) && 6.0 * q == x * (x - 1.0) * (2.0 * x - 1.0)
    ensures 12.0 * (x * q - s * s) == x * x * (x - 1.0) * (x + 1.0)
  {
    var k := x * (x - 1.0);
    assert 12.0 * (x * q) == 2.0 * (x * (6.0 * q)) == 2.0 * (x * (k * (2.0 * x - 1.0)));
    assert 12.0 * (s * s) == 3.0 * ((2.0 * s) * (2.0 * s)) == 3.0 * (k * k);
    calc {
      12.0 * (x * q - s * s);
      2.0 * (x * (k * (2.0 * x - 1.0))) - 3.0 * (k * k);
      k * (2.0 * x * (2.0 * x - 1.0) - 3.0 * k);
      k * (x * (x + 1.0));
    }
  }

  /** Two samples are enough to divide, and one is not. */
  lemma {:induction false} DenominatorPositive(n: nat)
    ensures Denominator(n) > 0.0 <==> n >= 2
    ensures n < 2 ==> Denominator(n) == 0.0
  {
    DenominatorIs(n);
    var x := n as real;
    if n >= 2 {
      assert x >= 2.0;
      ProductPositive(x * x, x - 1.0);
      ProductPositive(x * x * (x - 1.0), x + 1.0);
    } else {
      assert x * x * (x - 1.0) == 0.0;
    }
  }

  lemma {:induction false} ProductPositive(a: real, b: real)
    requires a > 0.0 && b > 0.0
    ensures Product(a, b) > 0.0
  {
  }

  lemma {:induction false} ProductNonNegative(a: real, b: real)
    requires a >= 0.0 && b >= 0.0
    ensures Product(a, b) >= 0.0
  {
    if a > 0.0 && b > 0.0 { ProductPositive(a, b); }
  }

  // ---------- The fit ----------

  function Quadratic(n: real, sx: real, sxx: real, sy: real, sxy: real, syy: real, a: real, b: real): real {
    syy - 2.0 * (a * sxy) - 2.0 * (b * sy) + a * a * sxx + 2.0 * (a * b * sx) + b * b * n
  }

  function ErrorForm(ys: seq<real>, a: real, b: real): real {
    Quadratic(|ys| as real, SumX(|ys|), SumXX(|ys|), SumY(ys), SumXY(ys), SumYY(ys), a, b)
  }

  /** The sum of squared errors as a quadratic in the line. */
  lemma {:induction false} ErrorExpands(ys: seq<real>, a: real, b: real)
    ensures Error(ys, a, b) == ErrorForm(ys, a, b)
  {
    if ys != [] {
      hide Quadratic, Square, Product, LineAt;
      var front := ys[..|ys| - 1];
      var x, y := (|ys| - 1) as real, ys[|ys| - 1];
      ErrorExpands(front, a, b);
      QuadraticStep(x, SumX(|front|), SumXX(|front|), SumY(front), SumXY(front), SumYY(front), a, b, y);
      assert |ys| as real == x + 1.0;
    }
  }

  lemma {:induction false} QuadraticStep(x: real, sx: real, sxx: real, sy: real, sxy: real, syy: real,
                                         a: real, b: real, y: real)
    ensures Quadratic(x + 1.0, sx + x, sxx + Square(x), sy + y, sxy + Product(x, y), syy + Square(y), a, b)
         == Quadratic(x, sx, sxx, sy, sxy, syy, a, b) + Square(y - LineAt(a, b, x))
  {
    SquareExpands(x, y, a, b);
    assert a * (sxy + x * y) == a * sxy + a * (x * y);
    assert b * (sy + y) == b * sy + b * y;
    assert a * a * (sxx + x * x) == a * a * sxx + a * a * (x * x);
    assert a * b * (sx + x) == a * b * sx + a * b * x;
    assert b * b * (x + 1.0) == b * b * x + b * b;
  }

  lemma {:induction false} SquareExpands(x: real, y: real, a: real, b: real)
    ensures Square(y - (a * x + b))
         == y * y - 2.0 * (a * (x * y)) - 2.0 * (b * y) + a * a * (x * x) + 2.0 * (a * b * x) + b * b
  {
  }

  /** The fitted line satisfies the normal equations. */
  lemma {:induction false} NormalEquations(ys: seq<real>)
    requires |ys| >= 2
    ensures Denominator(|ys|) > 0.0
    ensures var n := |ys|;
      && Product(Slope(ys), SumX(n)) + Product(Intercept(ys), n as real) == SumY(ys)
      && Product(Slope(ys), SumXX(n)) + Product(Intercept(ys), SumX(n)) == SumXY(ys)
  {
    hide SumX, SumXX, SumY, SumXY;
    DenominatorPositive(|ys|);
    Solve(|ys| as real, SumX(|ys|), SumXX(|ys|), SumY(ys), SumXY(ys));
  }

  lemma {:induction false} Solve(n: real, sx: real, sxx: real, sy: real, sxy: real)
    requires n > 0.0 && n * sxx - sx * sx != 0.0
    ensures var a := (n * sxy - sx * sy) / (n * sxx - sx * sx);
      var b := (sy - a * sx) / n;
      a * sx + b * n == sy && a * sxx + b * sx == sxy
  {
    var d := n * sxx - sx * sx;
    var a := (n * sxy - sx * sy) / d;
    var b := (sy - a * sx) / n;
    assert a * d == n * sxy - sx * sy;
    assert b * n == sy - a * sx;
    assert n * (a * sxx + b * sx) == n * sxy by {
      calc {
        n * (a * sxx + b * sx);
        a * (n * sxx) + (b * n) * sx;
        a * (n * sxx) + (sy - a * sx) * sx;
        a * (n * sxx - sx * sx) + sy * sx;
        (n * sxy - sx * sy) + sy * sx;
      }
    }
    Cancel(n, a * sxx + b * sx, sxy);
  }

  lemma {:induction false} Cancel(n: real, x: real, y: real)
    requires n != 0.0 && n * x == n * y
    ensures x == y
  {
    assert n * (x - y) == 0.0;
  }

  function Excess(n: real, sx: real, d: real, da: real, db: real): real {
    Square(n * db + da * sx) + Square(da) * d
  }

  /** How much worse another line is: a positive definite form in the differences. */
  lemma {:induction false} ExcessError(ys: seq<real>, a: real, b: real)
    requires |ys| >= 2
    ensures Denominator(|ys|) > 0.0
    ensures var n := |ys|;
      var da, db := a - Slope(ys), b - Intercept(ys);
      Product(n as real, Error(ys, a, b) - Error(ys, Slope(ys), Intercept(ys)))
        == Excess(n as real, SumX(n), Denominator(n), da, db)
  {
    NormalEquations(ys);
    hide SumX, SumXX, SumY, SumXY, SumYY, Error, Slope, Intercept, Quadratic, Determinant, Product, Excess;
    var n := |ys|;
    ErrorExpands(ys, a, b);
    ErrorExpands(ys, Slope(ys), Intercept(ys));
    CompleteSquare(n as real, SumX(n), SumXX(n), SumY(ys), SumXY(ys), SumYY(ys), Slope(ys), Intercept(ys), a, b);
  }

  lemma {:induction false} CompleteSquare(n: real, sx: real, sxx: real, sy: real, sxy: real, syy: real,
                       a0: real, b0: real, a: real, b: real)
    requires Product(a0, sx) + Product(b0, n) == sy && Product(a0, sxx) + Product(b0, sx) == sxy
    ensures Product(n, Quadratic(n, sx, sxx, sy, sxy, syy, a, b) - Quadratic(n, sx, sxx, sy, sxy, syy, a0, b0))
         == Excess(n, sx, Determinant(n, sx, sxx), a - a0, b - b0)
  {
    var da, db := a - a0, b - b0;
    assert a == a0 + da && b == b0 + db;
    QuadraticShift(n, sx, sxx, sy, sxy, syy, a0, b0, da, db);
    var form := da * da * sxx + 2.0 * (da * db * sx) + db * db * n;
    assert Quadratic(n, sx, sxx, sy, sxy, syy, a, b) - Quadratic(n, sx, sxx, sy, sxy, syy, a0, b0) == form;
    FormIsSquares(n, sx, sxx, da, db);
  }

  lemma {:induction false} QuadraticShift(n: real, sx: real, sxx: real, sy: real, sxy: real, syy: real,
                       a0: real, b0: real, da: real, db: real)
    requires a0 * sx + b0 * n == sy && a0 * sxx + b0 * sx == sxy
    ensures Quadratic(n, sx, sxx, sy, sxy, syy, a0 + da, b0 + db)
         == Quadratic(n, sx, sxx, sy, sxy, syy, a0, b0) + (da * da * sxx + 2.0 * (da * db * sx) + db * db * n)
  {
    var a, b := a0 + da, b0 + db;
    assert a * sxy == a0 * sxy + da * sxy;
    assert b * sy == b0 * sy + db * sy;
    assert a * a * sxx == a0 * a0 * sxx + 2.0 * (da * (a0 * sxx)) + da * da * sxx;
    assert a * b * sx == a0 * b0 * sx + da * (b0 * sx) + db * (a0 * sx) + da * db * sx;
    assert b * b * n == b0 * b0 * n + 2.0 * (db * (b0 * n)) + db * db * n;
    assert da * (a0 * sxx) + da * (b0 * sx) == da * sxy;
    assert db * (a0 * sx) + db * (b0 * n) == db * sy;
  }

  lemma {:induction false} FormIsSquares(n: real, sx: real, sxx: real, da: real, db: real)
    ensures n * (da * da * sxx + 2.0 * (da * db * sx) + db * db * n)
         == Square(n * db + da * sx) + Square(da) * (n * sxx - sx * sx)
  {
    var u, v := n * db, da * sx;
    assert Square(u + v) == u * u + 2.0 * (u * v) + v * v;
    assert u * u == n * (db * db * n);
    assert u * v == n * (da * db * sx);
    assert v * v == da * da * (sx * sx);
    assert Square(da) * (n * sxx - sx * sx) == n * (da * da * sxx) - da * da * (sx * sx);
  }

  /** No line fits a window of two or more samples better than the computed one, and no other
      line fits it as well. */
  lemma {:induction false} FitIsBest(ys: seq<real>, a: real, b: real)
    requires |ys| >= 2
    ensures Denominator(|ys|) > 0.0
    ensures Error(ys, Slope(ys), Intercept(ys)) <= Error(ys, a, b)
    ensures Error(ys, Slope(ys), Intercept(ys)) == Error(ys, a, b) <==> a == Slope(ys) && b == Intercept(ys)
  {
    ExcessError(ys, a, b);
    DenominatorPositive(|ys|);
    hide SumX, SumXX, Error, Slope, Intercept, Excess, Product, Denominator;
    var n, d := |ys| as real, Denominator(|ys|);
    var da, db := a - Slope(ys), b - Intercept(ys);
    FormSign(n, d, SumX(|ys|), da, db);
    FactorSign(n, Error(ys, a, b) - Error(ys, Slope(ys), Intercept(ys)));
  }

  lemma {:induction false} FormSign(n: real, d: real, sx: real, da: real, db: real)
    requires n > 0.0 && d > 0.0
    ensures Excess(n, sx, d, da, db) >= 0.0
    ensures Excess(n, sx, d, da, db) == 0.0 <==> da == 0.0 && db == 0.0
  {
    if da != 0.0 {
      NonzeroSquare(da);
      ProductPositive(Square(da), d);
    } else {
      assert Square(da) * d == 0.0;
      assert n * db + da * sx == n * db;
      if db != 0.0 {
        FactorSign(n, db);
        NonzeroSquare(n * db);
      }
    }
  }

  lemma {:induction false} FactorSign(n: real, e: real)
    requires n > 0.0
    ensures Product(n, e) >= 0.0 <==> e >= 0.0
    ensures Product(n, e) == 0.0 <==> e == 0.0
  {
    if e > 0.0 {
      ProductPositive(n, e);
    } else if e < 0.0 {
      ProductPositive(n, -e);
      assert n * (-e) == -(n * e);
    }
  }

  lemma {:induction false} NonzeroSquare(x: real)
    requires x != 0.0
    ensures Square(x) > 0.0
  {
    hide Square, Product;
    var y := if x > 0.0 then x else 0.0 - x;
    ProductPositive(y, y);
    SquareOfSize(x, y);
  }

  lemma {:induction false} SquareOfSize(x: real, y: real)
    requires y == x || y == 0.0 - x
    ensures Product(y, y) == Square(x)
  {
  }

  // ---------- Samples on a line ----------

  predicate OnLine(ys: seq<real>, a: real, b: real) {
    forall i :: 0 <= i < |ys| ==> ys[i] == a * i as real + b
  }

  lemma {:induction false} NoError(ys: seq<real>, a: real, b: real)
    requires OnLine(ys, a, b)
    ensures Error(ys, a, b) == 0.0
  {
    if ys != [] { NoError(ys[..|ys| - 1], a, b); }
  }

  /** Samples that lie on a line are fitted by that line. */
  lemma {:induction false} LineIsRecovered(ys: seq<real>, a: real, b: real)
    requires |ys| >= 2 && OnLine(ys, a, b)
    ensures Denominator(|ys|) > 0.0 && Slope(ys) == a && Intercept(ys) == b
  {
    NoError(ys, a, b);
    FitIsBest(ys, a, b);
  }
}
