// Worked examples of the safety check: the sample data the visualiser
// fills in, and the two smallest outcomes (stuck at once, done in one turn).

module Scenarios {
  import opened Vectors
  import opened SafetySpec
  import opened SafetyProofs
  import opened GreedyOrder

  /** The sample allocation matrix: five processes, three resource types. */
  const SampleAllocation: Matrix := [[0, 1, 0], [2, 0, 0], [3, 0, 2], [2, 1, 1], [0, 0, 2]]

  /** The sample maximum-demand matrix. */
  const SampleMax: Matrix := [[7, 5, 3], [3, 2, 2], [9, 0, 2], [2, 2, 2], [4, 3, 3]]

  /** The sample available vector. */
  const SampleAvailable: Vector := [3, 3, 2]

  /** The sample has five processes and three resource types. */
  lemma SampleShape()
    ensures IsMatrix(SampleAllocation, 5, 3) && IsMatrix(SampleMax, 5, 3) && |SampleAvailable| == 3
  {
  }

  /** With three resource types, fitting is three comparisons. */
  lemma FitsThree(need: Vector, pool: Vector)
    requires |need| == |pool| == 3
    ensures Fits(need, pool) <==> need[0] <= pool[0] && need[1] <= pool[1] && need[2] <= pool[2]
  {
    if need[0] <= pool[0] && need[1] <= pool[1] && need[2] <= pool[2] {
      forall j | 0 <= j < 3
        ensures need[j] <= pool[j]
      {
        assert j == 0 || j == 1 || j == 2;
      }
    }
  }

  /**
   * The first scan of the sample up to P2, with the pool starting at
   * [3, 3, 2]: P0 needs [7, 4, 3] and waits; P1 needs [1, 2, 2] and is taken
   * (pool [5, 3, 2]); P2 needs [6, 0, 0] and waits.
   */
  lemma SampleFirstScanStart()
    ensures Scan(SampleAllocation, SampleMax, [], SampleAvailable, 0) == Scan(SampleAllocation, SampleMax, [1], [5, 3, 2], 3)
  {
    SampleShape();
    var A, M := SampleAllocation, SampleMax;
    var w0, w1: Vector := [3, 3, 2], [5, 3, 2];
    FitsThree(Sub(M[0], A[0]), w0);
    assert Scan(A, M, [], w0, 0) == Scan(A, M, [], w0, 1);
    FitsThree(Sub(M[1], A[1]), w0);
    assert Add(w0, A[1]) == w1;
    assert [] + [1] == [1];
    assert Scan(A, M, [], w0, 1) == Scan(A, M, [1], w1, 2);
    FitsThree(Sub(M[2], A[2]), w1);
  }

  /**
   * The whole first scan of the sample: after P0 to P2, P3 needs [0, 1, 1]
   * and is taken (pool [7, 4, 3]), and P4 needs [4, 3, 1] and is taken
   * ([7, 4, 5]).
   */
  lemma SampleFirstScan()
    ensures Scan(SampleAllocation, SampleMax, [], SampleAvailable, 0) == ([1, 3, 4], [7, 4, 5])
  {
    SampleShape();
    SampleFirstScanStart();
    var A, M := SampleAllocation, SampleMax;
    var w1, w2, w3: Vector := [5, 3, 2], [7, 4, 3], [7, 4, 5];
    FitsThree(Sub(M[3], A[3]), w1);
    assert Add(w1, A[3]) == w2;
    assert [1] + [3] == [1, 3];
    assert Scan(A, M, [1], w1, 3) == Scan(A, M, [1, 3], w2, 4);
    FitsThree(Sub(M[4], A[4]), w2);
    assert Add(w2, A[4]) == w3;
    assert [1, 3] + [4] == [1, 3, 4];
    assert Scan(A, M, [1, 3], w2, 4) == Scan(A, M, [1, 3, 4], w3, 5);
  }

  /**
   * The second scan of the sample: P0 now fits [7, 4, 5] and is taken (pool
   * [7, 5, 5]); P1 is already taken; P2 now fits and is taken ([10, 5, 7]);
   * P3 and P4 are already taken.
   */
  lemma SampleSecondScan()
    ensures Scan(SampleAllocation, SampleMax, [1, 3, 4], [7, 4, 5], 0) == ([1, 3, 4, 0, 2], [10, 5, 7])
  {
    SampleShape();
    var A, M := SampleAllocation, SampleMax;
    var w3, w4, w5: Vector := [7, 4, 5], [7, 5, 5], [10, 5, 7];
    FitsThree(Sub(M[0], A[0]), w3);
    assert Add(w3, A[0]) == w4;
    assert [1, 3, 4] + [0] == [1, 3, 4, 0];
    assert Scan(A, M, [1, 3, 4], w3, 0) == Scan(A, M, [1, 3, 4, 0], w4, 1);
    assert Scan(A, M, [1, 3, 4, 0], w4, 1) == Scan(A, M, [1, 3, 4, 0], w4, 2);
    FitsThree(Sub(M[2], A[2]), w4);
    assert Add(w4, A[2]) == w5;
    assert [1, 3, 4, 0] + [2] == [1, 3, 4, 0, 2];
    assert Scan(A, M, [1, 3, 4, 0], w4, 2) == Scan(A, M, [1, 3, 4, 0, 2], w5, 3);
    assert Scan(A, M, [1, 3, 4, 0, 2], w5, 3) == Scan(A, M, [1, 3, 4, 0, 2], w5, 4);
  }

  /** On the sample the repeated scans take P1, P3, P4 and then P0, P2. */
  lemma SampleGreedy()
    ensures Greedy(SampleAllocation, SampleMax, [], SampleAvailable) == [1, 3, 4, 0, 2]
  {
    SampleShape();
    var A, M := SampleAllocation, SampleMax;
    SampleFirstScan();
    SampleSecondScan();
    assert Greedy(A, M, [], SampleAvailable) == Greedy(A, M, [1, 3, 4], [7, 4, 5]);
  }

  /** The sample is safe, and the check finds P1, P3, P4, P0, P2. */
  lemma SampleIsSafe()
    ensures Shaped(SampleAllocation, SampleMax, SampleAvailable)
    ensures var r := Simulate(SampleAllocation, SampleMax, SampleAvailable);
      r.safe && r.sequence == [1, 3, 4, 0, 2] && |r.steps| == 10
  {
    SampleShape();
    SampleGreedy();
    SimulateIsGreedy(SampleAllocation, SampleMax, SampleAvailable);
    StepsComeInPairs(SampleAllocation, SampleMax, SampleAvailable);
  }

  /** One process whose remaining need exceeds what is available: nothing runs, unsafe. */
  lemma SingleProcessStuck()
    ensures var r := Simulate([[0]], [[2]], [1]);
      !r.safe && r.sequence == [] && r.steps == []
  {
    var s0 := Init([[0]], [[2]], [1]);
    assert s0.need[0][0] == 2;
    assert Pass(s0, [[2]], 0) == Pass(s0, [[2]], 1) == s0;
  }

  /** One process that needs nothing more: it runs, with one snapshot pair, and the state is safe. */
  lemma SingleProcessRuns()
    ensures var r := Simulate([[1]], [[1]], [0]);
      r.safe && r.sequence == [0] && |r.steps| == 2 &&
      r.steps[0].work == [0] && r.steps[1].work == [1] && r.steps[1].requested == Some([0])
  {
    var M := [[1]];
    var s0 := Init([[1]], M, [0]);
    assert s0.need[0][0] == 0;
    var s1 := Execute(s0, M, 0);
    assert Pass(s0, M, 0) == Pass(s1, M, 1) == s1;
    assert s0.need[0] == [0];
    assert s1.work == [1];
  }
}
