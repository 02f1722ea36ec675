// The order the safety check schedules processes in, stated on the caller's
// matrices alone: repeated scans in index order that take every process
// whose remaining need fits the pool, with no need matrix, no flags and no
// snapshots. The run is proved to follow it exactly.

module GreedyOrder {
  import opened Vectors
  import opened SafetySpec
  import opened SafetyProofs

  /**
   * The rest of one scan from process `i`: a process not yet taken whose
   * remaining need (max - allocation) fits the pool is taken, and its
   * allocation joins the pool.
   */
  function Scan(A0: Matrix, M: Matrix, taken: seq<nat>, pool: Vector, i: nat): (r: (seq<nat>, Vector))
    requires IsMatrix(A0, |A0|, |pool|) && IsMatrix(M, |A0|, |pool|) && i <= |A0|
    ensures taken <= r.0 && |r.1| == |pool|
    decreases |A0| - i
  {
    if i == |A0| then (taken, pool)
    else if i !in taken && Fits(Sub(M[i], A0[i]), pool) then
      Scan(A0, M, taken + [i], Add(pool, A0[i]), i + 1)
    else Scan(A0, M, taken, pool, i + 1)
  }

  /** Scans are repeated while some process is left and the last scan took one. */
  function Greedy(A0: Matrix, M: Matrix, taken: seq<nat>, pool: Vector): (r: seq<nat>)
    requires IsMatrix(A0, |A0|, |pool|) && IsMatrix(M, |A0|, |pool|)
    ensures taken <= r
    decreases |A0| - |taken|
  {
    if |taken| < |A0| then
      var (taken', pool') := Scan(A0, M, taken, pool, 0);
      if |taken'| == |taken| then taken' else Greedy(A0, M, taken', pool')
    else taken
  }

  /** A pass of the run takes the processes a scan takes, and leaves `work` as the scan leaves the pool. */
  lemma {:induction false} PassIsScan(s: State, A0: Matrix, M: Matrix, V0: Vector, i: nat)
    requires Inv(s, A0, M, V0) && i <= |A0|
    ensures Scan(A0, M, s.sequence, s.work, i) == (Pass(s, M, i).sequence, Pass(s, M, i).work)
    decreases |A0| - i
  {
    if i < |A0| {
      if i in s.sequence {
        assert s.finish[i];
        PassIsScan(s, A0, M, V0, i + 1);
      } else {
        CoreUnfinished(s, A0, M, V0, i);
        assert s.allocation[i] == A0[i];
        if Fits(Sub(M[i], A0[i]), s.work) {
          ExecuteInv(s, A0, M, V0, i);
          PassIsScan(Execute(s, M, i), A0, M, V0, i + 1);
        } else {
          PassIsScan(s, A0, M, V0, i + 1);
        }
      }
    }
  }

  /** The passes of the run take the processes the repeated scans take. */
  lemma {:induction false} LoopIsGreedy(s: State, A0: Matrix, M: Matrix, V0: Vector)
    requires Inv(s, A0, M, V0)
    ensures Greedy(A0, M, s.sequence, s.work) == Loop(s, M).sequence
    decreases |A0| - |s.sequence|
  {
    if |s.sequence| < |A0| {
      PassIsScan(s, A0, M, V0, 0);
      PassInv(s, A0, M, V0, 0);
      var next := Pass(s, M, 0);
      if |next.sequence| != |s.sequence| {
        LoopIsGreedy(next, A0, M, V0);
      }
    }
  }

  /**
   * The run's sequence is the greedy order from nothing taken and the
   * caller's `available` as the pool; the state is safe exactly when that
   * order takes every process.
   */
  lemma SimulateIsGreedy(A0: Matrix, M: Matrix, V0: Vector)
    requires Shaped(A0, M, V0)
    ensures var r := Simulate(A0, M, V0);
      r.sequence == Greedy(A0, M, [], V0) && (r.safe <==> |Greedy(A0, M, [], V0)| == |A0|)
  {
    InitInv(A0, M, V0);
    LoopIsGreedy(Init(A0, M, V0), A0, M, V0);
  }
}
