/**
 * Placement of a delay on the wheel: the per-level slot indices that
 * `timeWheel.calcAccurateNextTime` computes (later.go), together with the
 * mixed-radix reading of those indices.
 *
 * A wheel with slot counts `num` (finest level first) is a mixed-radix
 * counter: level i is the digit of weight num[0] * ... * num[i-1].
 */
module Coordinates {

  /** Every level has at least one slot. */
  predicate Positive(num: seq<nat>) {
    forall k :: 0 <= k < |num| ==> num[k] > 0
  }

  /** One cursor per level, each inside its level. */
  predicate InRange(num: seq<nat>, cur: seq<nat>) {
    |cur| == |num| && forall k :: 0 <= k < |num| ==> cur[k] < num[k]
  }

  /** The number of distinct positions of the whole wheel. */
  function Product(num: seq<nat>): (p: nat)
    requires Positive(num)
    ensures p > 0
  {
    if num == [] then 1 else MulPositive(num[0], Product(num[1..])); num[0] * Product(num[1..])
  }

  /**
   * The number whose mixed-radix digits, finest first, are `d`, the radices
   * being `num`; levels beyond the end of `d` count as digit 0.
   */
  function Eval(d: seq<nat>, num: seq<nat>): nat
    requires |d| <= |num|
  {
    if d == [] then 0 else d[0] + num[0] * Eval(d[1..], num[1..])
  }

  /** The value of `v` on entry to level i of the loop: q_0 = v, q_{i+1} = q_i / num[i]. */
  function Quotient(num: seq<nat>, v: nat, i: nat): nat
    requires Positive(num) && i <= |num|
  {
    if i == 0 then v else Quotient(num, v, i - 1) / num[i - 1]
  }

  /**
   * calcAccurateNextTime on ticks `v` = d / interval, with cursors `cur`:
   * level i gets (cur[i] + q_i) mod num[i]; the list ends right after the
   * first level whose quotient q_{i+1} is 0, or at the coarsest level.
   */
  function Coords(num: seq<nat>, cur: seq<nat>, v: nat): (r: seq<nat>)
    requires Positive(num) && |cur| == |num|
    ensures |r| <= |num|
    ensures |num| > 0 ==> |r| >= 1
    ensures forall i :: 0 <= i < |r| ==> r[i] < num[i]
  {
    if num == [] then []
    else
      var q := v / num[0];
      [(cur[0] + v) % num[0]] + (if q == 0 then [] else Coords(num[1..], cur[1..], q))
  }

  /**
   * One step of computing Coords level by level: with `res` the indices of
   * the levels below k, level k's index is appended, and the levels above
   * it follow only while the quotient is not 0.
   */
  lemma CoordsStep(num: seq<nat>, cur: seq<nat>, v: nat, k: nat, c: nat, n: nat, m: nat, q: nat, res: seq<nat>, target: seq<nat>)
    requires Positive(num) && |cur| == |num| && k < |num|
    requires c == cur[k] && n == num[k] && n > 0 && m == (c + v) % n && q == v / n
    requires Positive(num[k..]) && res + Coords(num[k..], cur[k..], v) == target
    ensures Positive(num[k + 1..])
    ensures q == 0 ==> res + [m] == target
    ensures q > 0 ==> (res + [m]) + Coords(num[k + 1..], cur[k + 1..], q) == target
  {
    assert num[k..][1..] == num[k + 1..] && cur[k..][1..] == cur[k + 1..];
    if q > 0 {
      var above := Coords(num[k + 1..], cur[k + 1..], q);
      assert Coords(num[k..], cur[k..], v) == [m] + above;
      assert res + ([m] + above) == (res + [m]) + above;
    }
  }

  // ---------------------------------------------------------------------
  // Arithmetic helpers

  lemma DivModBounds(x: nat, n: nat)
    requires n > 0
    ensures 0 <= x % n < n && 0 <= x / n
  {
  }

  lemma MulPositive(a: nat, b: nat)
    requires a > 0 && b > 0
    ensures a * b > 0
  {
  }

  lemma MulMono(a: nat, b: int, c: int)
    requires b <= c
    ensures a * b <= a * c
  {
    assert a * c - a * b == a * (c - b);
  }

  /** Division with remainder is unique. */
  lemma DivModUnique(x: int, m: int, q: int, b: int)
    requires m > 0 && 0 <= b < m && x == q * m + b
    ensures x / m == q && x % m == b
  {
    var q', b' := x / m, x % m;
    assert (q - q') * m == b' - b;
    if q > q' {
      MulMono(m, 1, q - q');
    } else if q < q' {
      MulMono(m, 1, q' - q);
    }
  }

  /** v mod (n * p), split into its lowest digit and the rest. */
  lemma ModProduct(v: nat, n: nat, p: nat)
    requires n > 0 && p > 0
    ensures v % n + n * ((v / n) % p) == v % (n * p)
  {
    var q, a := v / n, v % n;
    var q2, b := q / p, q % p;
    assert v == n * q + a;
    assert q == p * q2 + b;
    assert v == (n * p) * q2 + (n * b + a) by {
      assert n * q == n * (p * q2) + n * b;
      assert n * (p * q2) == (n * p) * q2;
    }
    MulMono(n, b, p - 1);
    assert n * (p - 1) == n * p - n;
    DivModUnique(v, n * p, q2, n * b + a);
  }

  // ---------------------------------------------------------------------
  // Unfolding helpers on suffixes

  lemma EvalStep(d: seq<nat>, num: seq<nat>, k: nat)
    requires |d| == |num| && k < |d|
    ensures Eval(d[k..], num[k..]) == d[k] + num[k] * Eval(d[k + 1..], num[k + 1..])
  {
    assert d[k..][1..] == d[k + 1..];
    assert num[k..][1..] == num[k + 1..];
  }

  lemma EvalCons(d0: nat, d: seq<nat>, num: seq<nat>)
    requires 0 < |num| && |d| < |num|
    ensures Eval([d0] + d, num) == d0 + num[0] * Eval(d, num[1..])
  {
    assert ([d0] + d)[1..] == d;
  }

  lemma ProductStep(num: seq<nat>, k: nat)
    requires Positive(num) && k < |num|
    ensures Product(num[k..]) == num[k] * Product(num[k + 1..])
  {
    assert num[k..][1..] == num[k + 1..];
  }

  /** Digits inside their radices denote a number below the wheel's size. */
  lemma {:induction false} EvalBound(d: seq<nat>, num: seq<nat>)
    requires Positive(num) && |d| <= |num|
    requires forall i :: 0 <= i < |d| ==> d[i] < num[i]
    ensures Eval(d, num) < Product(num)
  {
    if d != [] {
      var e, p := Eval(d[1..], num[1..]), Product(num[1..]);
      EvalBound(d[1..], num[1..]);
      EvalHead(d, num);
      DigitBound(d[0], num[0], e, p);
    } else if num != [] {
      MulPositive(num[0], Product(num[1..]));
    }
  }

  /** A digit below its radix n, over a rest below p, stays below n * p. */
  lemma DigitBound(c: nat, n: nat, e: nat, p: nat)
    requires c < n && e < p
    ensures c + n * e < n * p
  {
    MulMono(n, e, p - 1);
    assert n * (p - 1) == n * p - n;
  }

  // ---------------------------------------------------------------------
  // What calcAccurateNextTime computes

  /** Moving one level up divides the quotients by the finest slot count. */
  lemma {:induction false} QuotientShift(num: seq<nat>, v: nat, i: nat)
    requires Positive(num) && 0 < |num| && i < |num|
    ensures Quotient(num, v, i + 1) == Quotient(num[1..], v / num[0], i)
  {
    if i > 0 {
      QuotientShift(num, v, i - 1);
    }
  }

  /** Index i is the cursor of level i offset by the quotient q_i, modulo the level's size. */
  lemma {:induction false} CoordsAt(num: seq<nat>, cur: seq<nat>, v: nat, i: nat)
    requires Positive(num) && |cur| == |num|
    requires i < |Coords(num, cur, v)|
    ensures Coords(num, cur, v)[i] == (cur[i] + Quotient(num, v, i)) % num[i]
  {
    if i > 0 {
      var q := v / num[0];
      CoordsAt(num[1..], cur[1..], q, i - 1);
      QuotientShift(num, v, i - 1);
    }
  }

  /**
   * The list stops right after the first level whose quotient becomes 0:
   * every level after the first is listed only because its quotient is
   * non-zero, and the list is cut short only by a zero quotient.
   */
  lemma {:induction false} CoordsLength(num: seq<nat>, cur: seq<nat>, v: nat)
    requires Positive(num) && |cur| == |num|
    ensures var r := Coords(num, cur, v);
      && (forall i :: 0 < i < |r| ==> Quotient(num, v, i) > 0)
      && (|r| == |num| || Quotient(num, v, |r|) == 0)
  {
    if num != [] {
      var q := v / num[0];
      var r := Coords(num, cur, v);
      if q != 0 {
        var r' := Coords(num[1..], cur[1..], q);
        CoordsLength(num[1..], cur[1..], q);
        assert r == [(cur[0] + v) % num[0]] + r';
        forall i | 0 < i < |r|
          ensures Quotient(num, v, i) > 0
        {
          QuotientShift(num, v, i - 1);
        }
        if |r| < |num| {
          QuotientShift(num, v, |r'|);
        }
      }
    }
  }

  /**
   * With every cursor at 0 the indices are the mixed-radix digits of v,
   * finest first: they denote v itself when v fits on the wheel, and v
   * reduced modulo the wheel's size when it does not (the silent truncation
   * of delays beyond the coarsest level).
   */
  lemma {:induction false} CoordsDigits(num: seq<nat>, cur: seq<nat>, v: nat)
    requires Positive(num) && |cur| == |num|
    requires forall k :: 0 <= k < |cur| ==> cur[k] == 0
    ensures Eval(Coords(num, cur, v), num) == v % Product(num)
  {
    if num == [] {
    } else {
      var n, q := num[0], v / num[0];
      var P := Product(num[1..]);
      var r := Coords(num, cur, v);
      var tail := if q == 0 then [] else Coords(num[1..], cur[1..], q);
      assert r == [v % n] + tail;
      assert r[1..] == tail;
      var e := Eval(tail, num[1..]);
      assert Eval(r, num) == v % n + n * e;
      assert e == q % P by {
        if q != 0 {
          CoordsDigits(num[1..], cur[1..], q);
        }
      }
      assert Product(num) == n * P;
      ModProduct(v, n, P);
    }
  }

  /** A delay that fits on a fresh wheel is placed at exactly its own digits. */
  lemma CoordsDigitsFit(num: seq<nat>, cur: seq<nat>, v: nat)
    requires Positive(num) && |cur| == |num|
    requires forall k :: 0 <= k < |cur| ==> cur[k] == 0
    requires v < Product(num)
    ensures Eval(Coords(num, cur, v), num) == v
  {
    CoordsDigits(num, cur, v);
    DivModUnique(v, Product(num), 0, v);
  }

  // ---------------------------------------------------------------------
  // The carry that calcAccurateNextTime drops

  /**
   * The coordinates with the carry out of each level's addition kept:
   * q_{i+1} = (cur[i] + q_i) / num[i] instead of q_i / num[i].
   */
  function CarryCoords(num: seq<nat>, cur: seq<nat>, v: nat): (r: seq<nat>)
    requires Positive(num) && |cur| == |num|
    ensures |r| <= |num|
    ensures |num| > 0 ==> |r| >= 1
    ensures forall i :: 0 <= i < |r| ==> r[i] < num[i]
  {
    if num == [] then []
    else
      var acc := cur[0] + v;
      var q := acc / num[0];
      [acc % num[0]] + (if q == 0 then [] else CarryCoords(num[1..], cur[1..], q))
  }

  /**
   * The cursors the corrected coordinates aim at: the listed indices, then
   * the current cursors of the coarser levels left unlisted.
   */
  function CarryTarget(num: seq<nat>, cur: seq<nat>, v: nat): (t: seq<nat>)
    requires Positive(num) && |cur| == |num|
    ensures |t| == |num|
  {
    var r := CarryCoords(num, cur, v);
    r + cur[|r|..]
  }

  lemma CarryTargetCons(num: seq<nat>, cur: seq<nat>, v: nat, d0: nat, q: nat, t: seq<nat>)
    requires Positive(num) && |cur| == |num| && 0 < |num|
    requires d0 == (cur[0] + v) % num[0] && q == (cur[0] + v) / num[0]
    requires t == if q == 0 then cur[1..] else CarryTarget(num[1..], cur[1..], q)
    ensures CarryTarget(num, cur, v) == [d0] + t
  {
  }

  /**
   * The corrected coordinates are the position v ticks ahead of the
   * cursors: read as digits, with the unlisted coarser levels keeping
   * their current cursors, they denote cursors + v modulo the wheel's size.
   */
  lemma {:induction false} CarryCoordsTarget(num: seq<nat>, cur: seq<nat>, v: nat)
    requires Positive(num) && InRange(num, cur)
    ensures Eval(CarryTarget(num, cur, v), num) == (Eval(cur, num) + v) % Product(num)
  {
    if num != [] {
      var n, c := num[0], cur[0];
      DivModBounds(c + v, n);
      var q: nat := (c + v) / n;
      var P := Product(num[1..]);
      var E' := Eval(cur[1..], num[1..]);
      var padded := if q == 0 then cur[1..] else CarryTarget(num[1..], cur[1..], q);
      var X := Eval(padded, num[1..]);
      assert X == (E' + q) % P by {
        if q != 0 {
          CarryCoordsTarget(num[1..], cur[1..], q);
        } else {
          EvalBound(cur[1..], num[1..]);
          DivModUnique(E', P, 0, E');
        }
      }
      DivModBounds(c + v, n);
      CarryTargetCons(num, cur, v, (c + v) % n, q, padded);
      EvalCons((c + v) % n, padded, num);
      EvalHead(cur, num);
      CarryStep(c, v, n, E', P, X, Eval(CarryTarget(num, cur, v), num), Eval(cur, num), Product(num));
    }
  }

  /** A wheel of at least one level: its finest digit plus its size times the rest. */
  lemma EvalHead(d: seq<nat>, num: seq<nat>)
    requires 0 < |d| <= |num|
    ensures Eval(d, num) == d[0] + num[0] * Eval(d[1..], num[1..])
    ensures Positive(num) ==> Product(num) == num[0] * Product(num[1..])
  {
  }

  /**
   * The arithmetic of one level of CarryCoordsTarget: digit c plus v, with
   * the coarser levels worth e out of p, lands at (c + n * e + v) mod (n * p).
   */
  lemma CarryStep(c: nat, v: nat, n: nat, e: nat, p: nat, x: nat, y: nat, a: nat, b: nat)
    requires n > 0 && p > 0
    requires x == (e + (c + v) / n) % p
    requires y == (c + v) % n + n * x
    requires a == c + n * e && b == n * p
    ensures y == (a + v) % b
  {
    var acc := c + v;
    var q, d0 := acc / n, acc % n;
    var z := d0 + n * (q + e);
    assert a + v == z by {
      assert acc == n * q + d0;
      assert n * (q + e) == n * q + n * e;
    }
    DivModUnique(z, n, q + e, d0);
    ModProduct(z, n, p);
  }

  /** On a wheel whose cursors are all 0 the carry never matters. */
  lemma {:induction false} CarryCoordsAtZero(num: seq<nat>, cur: seq<nat>, v: nat)
    requires Positive(num) && |cur| == |num|
    requires forall k :: 0 <= k < |cur| ==> cur[k] == 0
    ensures CarryCoords(num, cur, v) == Coords(num, cur, v)
  {
    if num != [] && v / num[0] != 0 {
      CarryCoordsAtZero(num[1..], cur[1..], v / num[0]);
    }
  }

  /**
   * As written, the carry is lost: two levels of 60 slots with cursors
   * (30, 0) and a delay of 90 ticks give level-1 index 1, which matures 30
   * ticks later, instead of 2, the position 90 ticks ahead.
   */
  lemma CoordsDropsCarry()
    ensures Coords([60, 60], [30, 0], 90) == [0, 1]
    ensures CarryCoords([60, 60], [30, 0], 90) == [0, 2]
    ensures Eval(Coords([60, 60], [30, 0], 90), [60, 60])
         != (Eval([30, 0], [60, 60]) + 90) % Product([60, 60])
  {
    assert Coords([60, 60][1..], [30, 0][1..], 1) == [1];
    assert CarryCoords([60, 60][1..], [30, 0][1..], 2) == [2];
    assert Product([60, 60][1..]) == 60 by {
      assert [60, 60][1..][1..] == [];
    }
  }
}
