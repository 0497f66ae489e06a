/** Minimum and maximum of a non-empty sequence of reals, as Python's `min`/`max` and numpy's
    `ndarray.min`/`ndarray.max` compute them on NaN-free data. */
module Extrema {

  function Min(a: real, b: real): real { if a <= b then a else b }

  function Max(a: real, b: real): real { if a >= b then a else b }

  /** The smallest element: it occurs in `xs` and no element is below it. */
  function Least(xs: seq<real>): (m: real)
    requires |xs| > 0
    ensures m in xs
    ensures forall i :: 0 <= i < |xs| ==> m <= xs[i]
  {
    if |xs| == 1 then xs[0] else Min(xs[0], Least(xs[1..]))
  }

  /** The largest element: it occurs in `xs` and no element is above it. */
  function Greatest(xs: seq<real>): (m: real)
    requires |xs| > 0
    ensures m in xs
    ensures forall i :: 0 <= i < |xs| ==> xs[i] <= m
  {
    if |xs| == 1 then xs[0] else Max(xs[0], Greatest(xs[1..]))
  }

  /** The least element is determined by the set of values alone: order and repetition do not matter. */
  lemma LeastDependsOnlyOnElements(xs: seq<real>, ys: seq<real>)
    requires |xs| > 0 && |ys| > 0
    requires forall v :: v in xs <==> v in ys
    ensures Least(xs) == Least(ys)
  {
    var a, b := Least(xs), Least(ys);
    var i :| 0 <= i < |ys| && ys[i] == a;
    var j :| 0 <= j < |xs| && xs[j] == b;
    assert b <= ys[i] && a <= xs[j];
  }

  lemma GreatestDependsOnlyOnElements(xs: seq<real>, ys: seq<real>)
    requires |xs| > 0 && |ys| > 0
    requires forall v :: v in xs <==> v in ys
    ensures Greatest(xs) == Greatest(ys)
  {
    var a, b := Greatest(xs), Greatest(ys);
    var i :| 0 <= i < |ys| && ys[i] == a;
    var j :| 0 <= j < |xs| && xs[j] == b;
    assert ys[i] <= b && xs[j] <= a;
  }

  /** The least element of a concatenation is the smaller of the two parts' least elements. */
  lemma LeastConcat(xs: seq<real>, ys: seq<real>)
    requires |xs| > 0 && |ys| > 0
    ensures Least(xs + ys) == Min(Least(xs), Least(ys))
  {
    var m := Least(xs + ys);
    var k :| 0 <= k < |xs + ys| && (xs + ys)[k] == m;
    forall i | 0 <= i < |xs| ensures m <= xs[i] { assert xs[i] == (xs + ys)[i]; }
    forall i | 0 <= i < |ys| ensures m <= ys[i] { assert ys[i] == (xs + ys)[|xs| + i]; }
    if k < |xs| { assert xs[k] == m; } else { assert ys[k - |xs|] == m; }
  }

  lemma GreatestConcat(xs: seq<real>, ys: seq<real>)
    requires |xs| > 0 && |ys| > 0
    ensures Greatest(xs + ys) == Max(Greatest(xs), Greatest(ys))
  {
    var m := Greatest(xs + ys);
    var k :| 0 <= k < |xs + ys| && (xs + ys)[k] == m;
    forall i | 0 <= i < |xs| ensures xs[i] <= m { assert xs[i] == (xs + ys)[i]; }
    forall i | 0 <= i < |ys| ensures ys[i] <= m { assert ys[i] == (xs + ys)[|xs| + i]; }
    if k < |xs| { assert xs[k] == m; } else { assert ys[k - |xs|] == m; }
  }
}
