// Resource vectors and matrices as values, with the sums the safety check
// keeps track of: column sums of an allocation matrix, and the resources
// released by a list of finished processes.

module Vectors {

  /** One entry per resource type. */
  type Vector = seq<int>

  /** One row per process, one column per resource type. */
  type Matrix = seq<seq<int>>

  predicate IsMatrix(a: Matrix, n: nat, m: nat)
  {
    |a| == n && forall i :: 0 <= i < n ==> |a[i]| == m
  }

  function Zeros(m: nat): Vector
  {
    seq(m, _ => 0)
  }

  function Add(a: Vector, b: Vector): Vector
    requires |a| == |b|
  {
    seq(|a|, j requires 0 <= j < |a| => a[j] + b[j])
  }

  function Sub(a: Vector, b: Vector): Vector
    requires |a| == |b|
  {
    seq(|a|, j requires 0 <= j < |a| => a[j] - b[j])
  }

  /** `need` can be granted from `pool`: component by component, need <= pool. */
  predicate Fits(need: Vector, pool: Vector)
    requires |need| == |pool|
  {
    forall j :: 0 <= j < |pool| ==> need[j] <= pool[j]
  }

  predicate NonNegative(a: Matrix)
  {
    forall i, j :: 0 <= i < |a| && 0 <= j < |a[i]| ==> 0 <= a[i][j]
  }

  /** The rows of `a` named by `ps` all exist and have a column `j`. */
  predicate Indexes(a: Matrix, ps: seq<nat>, j: nat)
  {
    forall k :: 0 <= k < |ps| ==> ps[k] < |a| && j < |a[ps[k]]|
  }

  /** Sum of column `j` over all rows of `a`. */
  function ColumnSum(a: Matrix, j: nat): int
    requires forall i :: 0 <= i < |a| ==> j < |a[i]|
  {
    if a == [] then 0 else ColumnSum(a[..|a| - 1], j) + a[|a| - 1][j]
  }

  /** Replacing row `i` by `r` changes the column sum by r[j] - a[i][j]. */
  lemma {:induction false} ColumnSumUpdate(a: Matrix, i: nat, r: Vector, j: nat)
    requires i < |a| && j < |r|
    requires forall k :: 0 <= k < |a| ==> j < |a[k]|
    ensures ColumnSum(a[i := r], j) == ColumnSum(a, j) - a[i][j] + r[j]
  {
    var last := |a| - 1;
    if i == last {
      assert a[i := r][..last] == a[..last];
    } else {
      assert a[i := r][..last] == a[..last][i := r];
      ColumnSumUpdate(a[..last], i, r, j);
    }
  }

  /** Column `j` of the rows of `a` named by `ps`, summed (with repetition). */
  function Released(a: Matrix, ps: seq<nat>, j: nat): int
    requires Indexes(a, ps, j)
  {
    if ps == [] then 0 else Released(a, ps[..|ps| - 1], j) + a[ps[|ps| - 1]][j]
  }

  lemma ReleasedSnoc(a: Matrix, ps: seq<nat>, p: nat, j: nat)
    requires Indexes(a, ps + [p], j)
    ensures Indexes(a, ps, j) && p < |a| && j < |a[p]|
    ensures Released(a, ps + [p], j) == Released(a, ps, j) + a[p][j]
  {
    assert (ps + [p])[|ps|] == p;
    assert (ps + [p])[..|ps|] == ps;
  }

  lemma {:induction false} ReleasedAppend(a: Matrix, ps: seq<nat>, qs: seq<nat>, j: nat)
    requires Indexes(a, ps + qs, j)
    ensures Indexes(a, ps, j) && Indexes(a, qs, j)
    ensures Released(a, ps + qs, j) == Released(a, ps, j) + Released(a, qs, j)
  {
    assert forall k :: 0 <= k < |ps| ==> ps[k] == (ps + qs)[k];
    assert forall k :: 0 <= k < |qs| ==> qs[k] == (ps + qs)[|ps| + k];
    if qs != [] {
      var init, p := qs[..|qs| - 1], qs[|qs| - 1];
      assert qs == init + [p];
      assert ps + qs == (ps + init) + [p];
      ReleasedSnoc(a, ps + init, p, j);
      ReleasedAppend(a, ps, init, j);
      ReleasedSnoc(a, init, p, j);
    } else {
      assert ps + qs == ps;
    }
  }

  lemma {:induction false} ReleasedNonNegative(a: Matrix, ps: seq<nat>, j: nat)
    requires NonNegative(a) && Indexes(a, ps, j)
    ensures 0 <= Released(a, ps, j)
  {
    if ps != [] {
      ReleasedNonNegative(a, ps[..|ps| - 1], j);
    }
  }

  predicate Distinct(ps: seq<nat>)
  {
    forall k, l :: 0 <= k < l < |ps| ==> ps[k] != ps[l]
  }

  /** Taking row `qs[x]` out of the list lowers the release by that row. */
  lemma ReleasedRemove(a: Matrix, qs: seq<nat>, x: nat, j: nat)
    requires Indexes(a, qs, j) && x < |qs|
    ensures Indexes(a, qs[..x] + qs[x + 1..], j)
    ensures Released(a, qs, j) == Released(a, qs[..x] + qs[x + 1..], j) + a[qs[x]][j]
  {
    assert qs == qs[..x] + [qs[x]] + qs[x + 1..];
    ReleasedAppend(a, qs[..x] + [qs[x]], qs[x + 1..], j);
    ReleasedAppend(a, qs[..x], [qs[x]], j);
    ReleasedAppend(a, qs[..x], qs[x + 1..], j);
    assert [qs[x]][..0] == [];
  }

  lemma DistinctRemove(qs: seq<nat>, x: nat)
    requires Distinct(qs) && x < |qs|
    ensures Distinct(qs[..x] + qs[x + 1..])
    ensures forall e :: e in qs && e != qs[x] ==> e in qs[..x] + qs[x + 1..]
  {
    var rest := qs[..x] + qs[x + 1..];
    forall k, l | 0 <= k < l < |rest|
      ensures rest[k] != rest[l]
    {
      var k' := if k < x then k else k + 1;
      var l' := if l < x then l else l + 1;
      assert rest[k] == qs[k'] && rest[l] == qs[l'];
    }
    forall e | e in qs && e != qs[x]
      ensures e in rest
    {
      var y :| 0 <= y < |qs| && qs[y] == e;
      if y < x {
        assert rest[y] == e;
      } else {
        assert rest[y - 1] == e;
      }
    }
  }

  /**
   * With non-negative rows, releasing a duplicate-free list of rows that all
   * occur in another duplicate-free list releases no more than that list.
   */
  lemma {:induction false} ReleasedSubset(a: Matrix, ps: seq<nat>, qs: seq<nat>, j: nat)
    requires NonNegative(a) && Indexes(a, qs, j)
    requires Distinct(ps) && Distinct(qs)
    requires forall k :: 0 <= k < |ps| ==> ps[k] in qs
    ensures Indexes(a, ps, j)
    ensures Released(a, ps, j) <= Released(a, qs, j)
    decreases |ps|
  {
    if ps == [] {
      ReleasedNonNegative(a, qs, j);
    } else {
      var init, p := ps[..|ps| - 1], ps[|ps| - 1];
      assert ps == init + [p];
      var x :| 0 <= x < |qs| && qs[x] == p;
      var rest := qs[..x] + qs[x + 1..];
      ReleasedRemove(a, qs, x, j);
      DistinctRemove(qs, x);
      forall k | 0 <= k < |init|
        ensures init[k] in rest
      {
        assert init[k] == ps[k] && ps[k] != ps[|ps| - 1];
      }
      ReleasedSubset(a, init, rest, j);
      ReleasedSnoc(a, init, p, j);
    }
  }

  /** Number of processes marked finished. */
  function CountTrue(f: seq<bool>): nat
  {
    if f == [] then 0 else CountTrue(f[..|f| - 1]) + (if f[|f| - 1] then 1 else 0)
  }

  lemma {:induction false} CountTrueSet(f: seq<bool>, i: nat)
    requires i < |f| && !f[i]
    ensures CountTrue(f[i := true]) == CountTrue(f) + 1
  {
    var last := |f| - 1;
    if i == last {
      assert f[i := true][..last] == f[..last];
    } else {
      assert f[i := true][..last] == f[..last][i := true];
      CountTrueSet(f[..last], i);
    }
  }

  /** The count reaches the length exactly when every flag is set. */
  lemma {:induction false} CountTrueFull(f: seq<bool>)
    ensures CountTrue(f) <= |f|
    ensures CountTrue(f) == |f| <==> forall i :: 0 <= i < |f| ==> f[i]
  {
    if f != [] {
      var last := |f| - 1;
      CountTrueFull(f[..last]);
      assert forall i :: 0 <= i < last ==> f[..last][i] == f[i];
    }
  }
}
