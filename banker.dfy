// The safety check as the source runs it: local copies of the caller's
// matrices held in arrays and updated in place, a pass loop guarded by a
// progress flag, and snapshots taken as values.

module BankerAlgorithm {
  import opened Vectors
  import opened SafetySpec
  import opened SafetyProofs

  function Row(a: array2<int>, i: nat): (r: Vector)
    requires i < a.Length0
    reads a
    ensures |r| == a.Length1 && forall j :: 0 <= j < a.Length1 ==> r[j] == a[i, j]
  {
    seq(a.Length1, j requires 0 <= j < a.Length1 reads a => a[i, j])
  }

  /** The contents of a matrix array, as a value. */
  function Grid(a: array2<int>): (g: Matrix)
    reads a
    ensures IsMatrix(g, a.Length0, a.Length1)
    ensures forall i, j :: 0 <= i < a.Length0 && 0 <= j < a.Length1 ==> g[i][j] == a[i, j]
  {
    seq(a.Length0, i requires 0 <= i < a.Length0 reads a => Row(a, i))
  }

  /** Two matrix arrays with the same cells hold the same matrix. */
  lemma SameGrid(a: array2<int>, b: array2<int>)
    requires a.Length0 == b.Length0 && a.Length1 == b.Length1
    requires forall i, j :: 0 <= i < a.Length0 && 0 <= j < a.Length1 ==> a[i, j] == b[i, j]
    ensures Grid(a) == Grid(b)
  {
    forall i | 0 <= i < a.Length0
      ensures Grid(a)[i] == Grid(b)[i]
    {
      assert forall j :: 0 <= j < a.Length1 ==> Grid(a)[i][j] == Grid(b)[i][j];
    }
  }

  /** The local variables of a run, read as a State of the reference model. */
  function Working(allocationLocal: array2<int>, needLocal: array2<int>, availableLocal: array<int>,
                   work: array<int>, finish: array<bool>, safeSeq: seq<nat>, steps: seq<Step>): State
    reads allocationLocal, needLocal, availableLocal, work, finish
  {
    State(Grid(allocationLocal), Grid(needLocal), availableLocal[..], work[..], finish[..], safeSeq, steps)
  }

  /** Rewrites `needLocal` cell by cell: max - allocation, zero for finished rows. */
  method RecomputeNeed(needLocal: array2<int>, max: array2<int>, allocationLocal: array2<int>, finish: array<bool>)
    requires needLocal != max && needLocal != allocationLocal
    requires needLocal.Length0 == max.Length0 == allocationLocal.Length0 == finish.Length
    requires needLocal.Length1 == max.Length1 == allocationLocal.Length1
    modifies needLocal
    ensures Grid(needLocal) == NeedOf(Grid(max), Grid(allocationLocal), finish[..])
  {
    var n, m := needLocal.Length0, needLocal.Length1;
    for i := 0 to n
      invariant forall r, c :: 0 <= r < i && 0 <= c < m ==>
        needLocal[r, c] == if finish[r] then 0 else max[r, c] - allocationLocal[r, c]
    {
      for j := 0 to m
        invariant forall r, c :: 0 <= r < i && 0 <= c < m ==>
          needLocal[r, c] == if finish[r] then 0 else max[r, c] - allocationLocal[r, c]
        invariant forall c :: 0 <= c < j ==>
          needLocal[i, c] == if finish[i] then 0 else max[i, c] - allocationLocal[i, c]
      {
        needLocal[i, j] := if finish[i] then 0 else max[i, j] - allocationLocal[i, j];
      }
    }
    ghost var want := NeedOf(Grid(max), Grid(allocationLocal), finish[..]);
    forall r | 0 <= r < n
      ensures Grid(needLocal)[r] == want[r]
    {
      assert forall c :: 0 <= c < m ==> Grid(needLocal)[r][c] == want[r][c];
    }
  }

  /** Process `i` may run when every cell of its need row is at most `work`, and it is unfinished. */
  method CanExecute(needLocal: array2<int>, work: array<int>, finish: array<bool>, i: nat) returns (ok: bool)
    requires i < needLocal.Length0 == finish.Length && needLocal.Length1 == work.Length
    ensures ok == Eligible(Grid(needLocal), work[..], finish[..], i)
  {
    for j := 0 to work.Length
      invariant forall c :: 0 <= c < j ==> needLocal[i, c] <= work[c]
    {
      if needLocal[i, j] > work[j] {
        return false;
      }
    }
    return !finish[i];
  }

  /** Adds the allocation row of process `i` into `work`, one resource at a time. */
  method ReleaseIntoWork(work: array<int>, allocationLocal: array2<int>, i: nat)
    requires i < allocationLocal.Length0 && allocationLocal.Length1 == work.Length
    modifies work
    ensures work[..] == Add(old(work[..]), Row(allocationLocal, i))
  {
    for j := 0 to work.Length
      invariant forall c :: 0 <= c < work.Length ==>
        work[c] == if c < j then old(work[c]) + allocationLocal[i, c] else old(work[c])
    {
      work[j] := work[j] + allocationLocal[i, j];
    }
  }

  /**
   * Moves the allocation row of process `i` into the available pool through
   * a scratch copy of `availableLocal`, zeroing the row as it goes.
   */
  method ReleaseAllocation(allocationLocal: array2<int>, availableLocal: array<int>, i: nat)
    requires i < allocationLocal.Length0 && allocationLocal.Length1 == availableLocal.Length
    modifies allocationLocal, availableLocal
    ensures availableLocal[..] == Add(old(availableLocal[..]), old(Row(allocationLocal, i)))
    ensures Grid(allocationLocal) == old(Grid(allocationLocal))[i := Zeros(availableLocal.Length)]
  {
    var m := availableLocal.Length;
    var availableAfter := new int[m](j requires 0 <= j < m reads availableLocal => availableLocal[j]);
    for j := 0 to m
      modifies availableAfter, allocationLocal
      invariant forall c :: 0 <= c < m ==>
        availableAfter[c] == if c < j then old(availableLocal[c] + allocationLocal[i, c]) else old(availableLocal[c])
      invariant forall r, c :: 0 <= r < allocationLocal.Length0 && 0 <= c < m ==>
        allocationLocal[r, c] == if r == i && c < j then 0 else old(allocationLocal[r, c])
    {
      availableAfter[j] := availableAfter[j] + allocationLocal[i, j];
      allocationLocal[i, j] := 0;
    }
    for j := 0 to m
      modifies availableLocal
      invariant forall c :: 0 <= c < j ==> availableLocal[c] == availableAfter[c]
    {
      availableLocal[j] := availableAfter[j];
    }
    ghost var zeroed := old(Grid(allocationLocal))[i := Zeros(m)];
    forall r | 0 <= r < allocationLocal.Length0
      ensures Grid(allocationLocal)[r] == zeroed[r]
    {
      assert forall c :: 0 <= c < m ==> Grid(allocationLocal)[r][c] == zeroed[r][c];
    }
  }

  /**
   * Schedules process `i`: snapshot, release of its allocation into `work`
   * and `availableLocal`, zeroing of its row, `finish[i]`, need recomputed,
   * snapshot. The caller has checked that `i` is eligible.
   */
  method ExecuteProcess(i: nat, max: array2<int>, allocationLocal: array2<int>, needLocal: array2<int>,
                        availableLocal: array<int>, work: array<int>, finish: array<bool>,
                        safeSeq: seq<nat>, steps: seq<Step>)
    returns (safeSeq': seq<nat>, steps': seq<Step>)
    requires needLocal != max && needLocal != allocationLocal && allocationLocal != max
    requires availableLocal != work
    requires allocationLocal.Length0 == needLocal.Length0 == max.Length0 == finish.Length
    requires allocationLocal.Length1 == needLocal.Length1 == max.Length1 == availableLocal.Length == work.Length
    requires i < max.Length0
    modifies allocationLocal, needLocal, availableLocal, work, finish
    ensures Working(allocationLocal, needLocal, availableLocal, work, finish, safeSeq', steps')
         == Execute(old(Working(allocationLocal, needLocal, availableLocal, work, finish, safeSeq, steps)), Grid(max), i)
  {
    ghost var s := Working(allocationLocal, needLocal, availableLocal, work, finish, safeSeq, steps);
    assert Fitted(s, Grid(max));
    steps' := steps + [Step(i, Grid(allocationLocal), Grid(needLocal), None, availableLocal[..], work[..], false)];

    ReleaseIntoWork(work, allocationLocal, i);
    finish[i] := true;
    safeSeq' := safeSeq + [i];
    ReleaseAllocation(allocationLocal, availableLocal, i);

    var requested := Row(needLocal, i);
    RecomputeNeed(needLocal, max, allocationLocal, finish);

    steps' := steps' + [Step(i, Grid(allocationLocal), Grid(needLocal), Some(requested), availableLocal[..], work[..], true)];
    assert finish[..] == s.finish[i := true];
  }

  /**
   * One pass over the processes in index order, scheduling each unfinished
   * process whose need fits in `work` at the moment the scan reaches it.
   */
  method SchedulePass(max: array2<int>, allocationLocal: array2<int>, needLocal: array2<int>,
                      availableLocal: array<int>, work: array<int>, finish: array<bool>,
                      safeSeq: seq<nat>, steps: seq<Step>)
    returns (madeProgress: bool, safeSeq': seq<nat>, steps': seq<Step>)
    requires needLocal != max && needLocal != allocationLocal && allocationLocal != max
    requires availableLocal != work
    requires allocationLocal.Length0 == needLocal.Length0 == max.Length0 == finish.Length
    requires allocationLocal.Length1 == needLocal.Length1 == max.Length1 == availableLocal.Length == work.Length
    modifies allocationLocal, needLocal, availableLocal, work, finish
    ensures Working(allocationLocal, needLocal, availableLocal, work, finish, safeSeq', steps')
         == Pass(old(Working(allocationLocal, needLocal, availableLocal, work, finish, safeSeq, steps)), Grid(max), 0)
    ensures madeProgress == (|safeSeq'| != |safeSeq|)
  {
    ghost var M := Grid(max);
    ghost var start := Working(allocationLocal, needLocal, availableLocal, work, finish, safeSeq, steps);
    assert Fitted(start, M);
    madeProgress, safeSeq', steps' := false, safeSeq, steps;
    for i := 0 to max.Length0
      invariant Fitted(Working(allocationLocal, needLocal, availableLocal, work, finish, safeSeq', steps'), M)
      invariant Pass(Working(allocationLocal, needLocal, availableLocal, work, finish, safeSeq', steps'), M, i) == Pass(start, M, 0)
      invariant |safeSeq| <= |safeSeq'|
      invariant madeProgress == (|safeSeq'| != |safeSeq|)
    {
      if !finish[i] {
        var ok := CanExecute(needLocal, work, finish, i);
        if ok {
          safeSeq', steps' := ExecuteProcess(i, max, allocationLocal, needLocal, availableLocal, work, finish, safeSeq', steps');
          madeProgress := true;
        }
      }
    }
  }

  /**
   * The safety check on the caller's matrices. The caller's arrays are never
   * written (the method has no modifies clause): it works on fresh copies.
   */
  /**
   * The local copies a run starts from: the caller's allocation and
   * available copied, work equal to available, no process finished, and
   * the need matrix computed from max and the copied allocation.
   */
  method Setup(allocation: array2<int>, max: array2<int>, available: array<int>)
    returns (allocationLocal: array2<int>, needLocal: array2<int>, availableLocal: array<int>,
             work: array<int>, finish: array<bool>)
    requires allocation.Length0 == max.Length0
    requires allocation.Length1 == max.Length1 == available.Length
    ensures fresh(allocationLocal) && fresh(needLocal) && fresh(availableLocal) && fresh(work) && fresh(finish)
    ensures allocationLocal != needLocal && availableLocal != work
    ensures allocationLocal.Length0 == needLocal.Length0 == max.Length0 == finish.Length
    ensures allocationLocal.Length1 == needLocal.Length1 == max.Length1 == availableLocal.Length == work.Length
    ensures Working(allocationLocal, needLocal, availableLocal, work, finish, [], [])
         == Init(Grid(allocation), Grid(max), available[..])
  {
    var n, m := allocation.Length0, available.Length;
    allocationLocal := new int[n, m]((i, j) requires 0 <= i < n && 0 <= j < m reads allocation => allocation[i, j]);
    availableLocal := new int[m](j requires 0 <= j < m reads available => available[j]);
    work := new int[m](j requires 0 <= j < m reads availableLocal => availableLocal[j]);
    needLocal := new int[n, m]((i, j) => 0);
    finish := new bool[n](_ => false);
    RecomputeNeed(needLocal, max, allocationLocal, finish);
    SameGrid(allocationLocal, allocation);
    assert finish[..] == seq(n, _ => false);
  }

  method RunBankersAlgorithm(allocation: array2<int>, max: array2<int>, available: array<int>)
    returns (safe: bool, sequence: seq<nat>, steps: seq<Step>)
    requires allocation.Length0 == max.Length0
    requires allocation.Length1 == max.Length1 == available.Length
    ensures Outcome(safe, sequence, steps) == Simulate(Grid(allocation), Grid(max), available[..])
    ensures safe <==> forall p :: 0 <= p < allocation.Length0 ==> p in sequence
    ensures |steps| == 2 * |sequence|
    ensures SafeOrder(Grid(allocation), Grid(max), available[..], sequence)
    ensures !safe ==> forall p :: 0 <= p < allocation.Length0 && p !in sequence ==>
      !Fits(Sub(Grid(max)[p], Grid(allocation)[p]), Pool(Grid(allocation), available[..], sequence))
  {
    var n := allocation.Length0;
    var allocationLocal, needLocal, availableLocal, work, finish := Setup(allocation, max, available);
    var safeSeq: seq<nat> := [];
    steps := [];

    ghost var M := Grid(max);
    ghost var init := Working(allocationLocal, needLocal, availableLocal, work, finish, safeSeq, steps);

    var madeProgress := true;
    while |safeSeq| < n && madeProgress
      invariant Fitted(Working(allocationLocal, needLocal, availableLocal, work, finish, safeSeq, steps), M)
      invariant Loop(init, M) == if madeProgress then Loop(Working(allocationLocal, needLocal, availableLocal, work, finish, safeSeq, steps), M)
                                 else Working(allocationLocal, needLocal, availableLocal, work, finish, safeSeq, steps)
      decreases n - |safeSeq|, if madeProgress then 1 else 0
    {
      madeProgress, safeSeq, steps := SchedulePass(max, allocationLocal, needLocal, availableLocal, work, finish, safeSeq, steps);
    }

    safe := |safeSeq| == n;
    sequence := safeSeq;

    ghost var A0, V0 := Grid(allocation), available[..];
    SafeIffAllSequenced(A0, M, V0);
    StepsComeInPairs(A0, M, V0);
    SequenceIsSafeOrder(A0, M, V0);
    UnsafeMeansStuck(A0, M, V0);
  }
}
