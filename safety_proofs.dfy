// Properties of the safety check, proved about the reference model in
// SafetySpec. Throughout, A0, M and V0 are the caller's allocation matrix,
// maximum-demand matrix and available vector; n = |A0| processes and
// m = |V0| resource types.

module SafetyProofs {
  import opened Vectors
  import opened SafetySpec

  predicate InRange(ps: seq<nat>, n: nat)
  {
    forall k :: 0 <= k < |ps| ==> ps[k] < n
  }

  /** The pool after the processes in `done` have released what they hold. */
  function Pool(A0: Matrix, V0: Vector, done: seq<nat>): (pool: Vector)
    requires IsMatrix(A0, |A0|, |V0|) && InRange(done, |A0|)
    ensures |pool| == |V0|
  {
    seq(|V0|, j requires 0 <= j < |V0| => V0[j] + Released(A0, done, j))
  }

  /**
   * The textbook condition on an ordering of processes: no repeats, and each
   * process's remaining need (max - allocation) fits in the pool left by the
   * processes before it.
   */
  ghost predicate SafeOrder(A0: Matrix, M: Matrix, V0: Vector, order: seq<nat>)
    requires Shaped(A0, M, V0)
  {
    Distinct(order) && InRange(order, |A0|) &&
    forall k :: 0 <= k < |order| ==> Fits(Sub(M[order[k]], A0[order[k]]), Pool(A0, V0, order[..k]))
  }

  /** A safe ordering of all the processes: the system is in a safe state. */
  ghost predicate CompleteSafeOrder(A0: Matrix, M: Matrix, V0: Vector, order: seq<nat>)
    requires Shaped(A0, M, V0)
  {
    SafeOrder(A0, M, V0, order) && forall p :: 0 <= p < |A0| ==> p in order
  }

  // ---------------------------------------------------------------------
  // The state invariant of a run

  /** The sequence holds exactly the finished processes, each once. */
  ghost predicate Scheduled(finish: seq<bool>, sequence: seq<nat>)
  {
    InRange(sequence, |finish|) && Distinct(sequence) &&
    (forall p :: 0 <= p < |finish| ==> (finish[p] <==> p in sequence)) &&
    |sequence| == CountTrue(finish)
  }

  /** Everything a run keeps true of its working variables, apart from the steps. */
  ghost predicate Core(s: State, A0: Matrix, M: Matrix, V0: Vector)
  {
    var n, m := |A0|, |V0|;
    Shaped(A0, M, V0) && Fitted(s, M) && |s.work| == m &&
    Scheduled(s.finish, s.sequence) &&
    (forall p {:trigger s.allocation[p]} :: 0 <= p < n ==> s.allocation[p] == if s.finish[p] then Zeros(m) else A0[p]) &&
    s.need == NeedOf(M, s.allocation, s.finish) &&
    s.available == s.work && s.work == Pool(A0, V0, s.sequence) &&
    Conserved(s.allocation, s.available, A0, V0)
  }

  /** Available plus everything still allocated equals what there was at the start. */
  ghost predicate Conserved(allocation: Matrix, available: Vector, A0: Matrix, V0: Vector)
    requires IsMatrix(A0, |A0|, |V0|) && IsMatrix(allocation, |A0|, |V0|) && |available| == |V0|
  {
    forall j :: 0 <= j < |V0| ==> available[j] + ColumnSum(allocation, j) == V0[j] + ColumnSum(A0, j)
  }

  /**
   * What a snapshot taken after the processes in `done` have finished
   * shows: their rows zero, every other row as given, work equal to
   * available and equal to the pool they left, resources conserved.
   */
  ghost predicate SnapshotAt(st: Step, done: seq<nat>, A0: Matrix, M: Matrix, V0: Vector)
  {
    var n, m := |A0|, |V0|;
    Shaped(A0, M, V0) && InRange(done, n) &&
    IsMatrix(st.allocation, n, m) && IsMatrix(st.need, n, m) &&
    st.available == st.work && st.work == Pool(A0, V0, done) &&
    (forall p {:trigger st.allocation[p]} :: 0 <= p < n ==> st.allocation[p] == if p in done then Zeros(m) else A0[p]) &&
    (forall p {:trigger st.need[p]} :: 0 <= p < n ==> st.need[p] == if p in done then Zeros(m) else Sub(M[p], A0[p])) &&
    Conserved(st.allocation, st.available, A0, V0)
  }

  /** The two snapshots of the turn of process `p`, scheduled after those in `done`. */
  ghost predicate Turn(p: nat, before: Step, after: Step, done: seq<nat>, A0: Matrix, M: Matrix, V0: Vector)
  {
    Shaped(A0, M, V0) && p < |A0| &&
    before.process == p && !before.completed && before.requested == None &&
    after.process == p && after.completed && after.requested == Some(Sub(M[p], A0[p])) &&
    SnapshotAt(before, done, A0, M, V0) && SnapshotAt(after, done + [p], A0, M, V0) &&
    Fits(Sub(M[p], A0[p]), before.work)
  }

  /** The steps are one turn per sequenced process, in order. */
  ghost predicate Trace(steps: seq<Step>, sequence: seq<nat>, A0: Matrix, M: Matrix, V0: Vector)
  {
    |steps| == 2 * |sequence| &&
    forall k {:trigger steps[2 * k]} :: 0 <= k < |sequence| ==> Turn(sequence[k], steps[2 * k], steps[2 * k + 1], sequence[..k], A0, M, V0)
  }

  ghost predicate Inv(s: State, A0: Matrix, M: Matrix, V0: Vector)
  {
    Core(s, A0, M, V0) && Trace(s.steps, s.sequence, A0, M, V0)
  }

  /** The state in which a run ends. */
  function Final(A0: Matrix, M: Matrix, V0: Vector): State
    requires Shaped(A0, M, V0)
  {
    Loop(Init(A0, M, V0), M)
  }

  lemma {:induction false} CountTrueNone(f: seq<bool>)
    requires forall i :: 0 <= i < |f| ==> !f[i]
    ensures CountTrue(f) == 0
  {
    if f != [] {
      CountTrueNone(f[..|f| - 1]);
    }
  }

  lemma InitInv(A0: Matrix, M: Matrix, V0: Vector)
    requires Shaped(A0, M, V0)
    ensures Inv(Init(A0, M, V0), A0, M, V0)
  {
    var s := Init(A0, M, V0);
    CountTrueNone(s.finish);
    assert s.work == Pool(A0, V0, []);
  }

  /** A snapshot of a state that satisfies Core shows what SnapshotAt says. */
  lemma CoreSnapshot(s: State, A0: Matrix, M: Matrix, V0: Vector, p: nat, requested: Option<Vector>, completed: bool)
    requires Core(s, A0, M, V0)
    ensures SnapshotAt(Step(p, s.allocation, s.need, requested, s.available, s.work, completed), s.sequence, A0, M, V0)
  {
    var m := |V0|;
    forall q | 0 <= q < |A0|
      ensures s.need[q] == if q in s.sequence then Zeros(m) else Sub(M[q], A0[q])
    {
      assert s.need[q] == if s.finish[q] then Zeros(|M[q]|) else Sub(M[q], s.allocation[q]);
    }
  }

  /** Finishing an unfinished process and appending it keeps the sequence in step with the flags. */
  lemma ScheduleOne(finish: seq<bool>, sequence: seq<nat>, i: nat)
    requires Scheduled(finish, sequence) && i < |finish| && !finish[i]
    ensures Scheduled(finish[i := true], sequence + [i])
  {
    var sequence' := sequence + [i];
    assert i !in sequence;
    CountTrueSet(finish, i);
    forall p | 0 <= p < |finish|
      ensures finish[i := true][p] <==> p in sequence'
    {
      assert p in sequence' <==> p in sequence || p == i;
    }
  }

  /** Releasing the rows of `done + [i]` is releasing those of `done`, then row `i`. */
  lemma PoolSnoc(A0: Matrix, V0: Vector, done: seq<nat>, i: nat)
    requires IsMatrix(A0, |A0|, |V0|) && InRange(done, |A0|) && i < |A0|
    ensures InRange(done + [i], |A0|)
    ensures Pool(A0, V0, done + [i]) == Add(Pool(A0, V0, done), A0[i])
  {
    forall j | 0 <= j < |V0|
      ensures Pool(A0, V0, done + [i])[j] == Pool(A0, V0, done)[j] + A0[i][j]
    {
      ReleasedSnoc(A0, done, i, j);
    }
  }

  /** Moving row `i` of the allocation into `available` conserves every resource. */
  lemma ConservedRelease(allocation: Matrix, available: Vector, A0: Matrix, V0: Vector, i: nat)
    requires IsMatrix(A0, |A0|, |V0|) && IsMatrix(allocation, |A0|, |V0|) && |available| == |V0|
    requires Conserved(allocation, available, A0, V0) && i < |A0|
    ensures Conserved(allocation[i := Zeros(|V0|)], Add(available, allocation[i]), A0, V0)
  {
    forall j | 0 <= j < |V0|
      ensures Add(available, allocation[i])[j] + ColumnSum(allocation[i := Zeros(|V0|)], j) == V0[j] + ColumnSum(A0, j)
    {
      ColumnSumUpdate(allocation, i, Zeros(|V0|), j);
    }
  }

  lemma ExecuteCore(s: State, A0: Matrix, M: Matrix, V0: Vector, i: nat)
    requires Core(s, A0, M, V0) && i < |A0| && !s.finish[i]
    ensures Core(Execute(s, M, i), A0, M, V0)
  {
    assert s.allocation[i] == A0[i];
    ScheduleOne(s.finish, s.sequence, i);
    PoolSnoc(A0, V0, s.sequence, i);
    ConservedRelease(s.allocation, s.available, A0, V0, i);
  }

  /** Appending to the steps and the sequence leaves the turns already recorded in place. */
  lemma TurnKept(steps: seq<Step>, sequence: seq<nat>, more: seq<Step>, p: nat, k: nat, A0: Matrix, M: Matrix, V0: Vector)
    requires |steps| == 2 * |sequence| && k < |sequence|
    requires Turn(sequence[k], steps[2 * k], steps[2 * k + 1], sequence[..k], A0, M, V0)
    ensures var steps', sequence' := steps + more, sequence + [p];
      Turn(sequence'[k], steps'[2 * k], steps'[2 * k + 1], sequence'[..k], A0, M, V0)
  {
    var steps', sequence' := steps + more, sequence + [p];
    assert sequence'[k] == sequence[k] && sequence'[..k] == sequence[..k];
    assert steps'[2 * k] == steps[2 * k] && steps'[2 * k + 1] == steps[2 * k + 1];
  }

  lemma TraceSnoc(steps: seq<Step>, sequence: seq<nat>, before: Step, after: Step, p: nat, A0: Matrix, M: Matrix, V0: Vector)
    requires Trace(steps, sequence, A0, M, V0)
    requires Turn(p, before, after, sequence, A0, M, V0)
    ensures Trace(steps + [before, after], sequence + [p], A0, M, V0)
  {
    var steps', sequence' := steps + [before, after], sequence + [p];
    forall k | 0 <= k < |sequence'|
      ensures Turn(sequence'[k], steps'[2 * k], steps'[2 * k + 1], sequence'[..k], A0, M, V0)
    {
      if k < |sequence| {
        TurnKept(steps, sequence, [before, after], p, k, A0, M, V0);
      } else {
        assert sequence'[k] == p && sequence'[..k] == sequence;
        assert steps'[2 * k] == before && steps'[2 * k + 1] == after;
      }
    }
  }

  /** The turn that Execute appends. */
  lemma ExecuteTurn(s: State, A0: Matrix, M: Matrix, V0: Vector, i: nat)
    requires Core(s, A0, M, V0) && i < |A0|
    requires !s.finish[i] && Eligible(s.need, s.work, s.finish, i)
    ensures var t := Execute(s, M, i);
      Core(t, A0, M, V0) && t.sequence[..|s.sequence|] == s.sequence &&
      Turn(i, t.steps[|s.steps|], t.steps[|s.steps| + 1], s.sequence, A0, M, V0)
  {
    var t := Execute(s, M, i);
    ExecuteCore(s, A0, M, V0, i);
    CoreSnapshot(s, A0, M, V0, i, None, false);
    CoreSnapshot(t, A0, M, V0, i, Some(s.need[i]), true);
    assert s.need[i] == Sub(M[i], A0[i]);
    assert t.sequence[..|s.sequence|] == s.sequence;
  }

  lemma ExecuteInv(s: State, A0: Matrix, M: Matrix, V0: Vector, i: nat)
    requires Inv(s, A0, M, V0) && i < |A0|
    requires !s.finish[i] && Eligible(s.need, s.work, s.finish, i)
    ensures Inv(Execute(s, M, i), A0, M, V0)
  {
    var t := Execute(s, M, i);
    ExecuteTurn(s, A0, M, V0, i);
    TraceSnoc(s.steps, s.sequence, t.steps[|s.steps|], t.steps[|s.steps| + 1], i, A0, M, V0);
    assert t.steps == s.steps + [t.steps[|s.steps|], t.steps[|s.steps| + 1]];
  }

  /** One step of a pass keeps the invariant (the scan moves from `i` to `i + 1`). */
  lemma PassStep(s: State, A0: Matrix, M: Matrix, V0: Vector, i: nat) returns (next: State)
    requires Inv(s, A0, M, V0) && i < |A0|
    ensures Inv(next, A0, M, V0) && Fitted(next, M)
    ensures Pass(s, M, i) == Pass(next, M, i + 1)
  {
    if !s.finish[i] && Eligible(s.need, s.work, s.finish, i) {
      next := Execute(s, M, i);
      ExecuteInv(s, A0, M, V0, i);
    } else {
      next := s;
    }
  }

  lemma {:induction false} PassInv(s: State, A0: Matrix, M: Matrix, V0: Vector, i: nat)
    requires Inv(s, A0, M, V0) && i <= |A0|
    ensures Inv(Pass(s, M, i), A0, M, V0)
    decreases |A0| - i
  {
    if i < |A0| {
      var next := PassStep(s, A0, M, V0, i);
      PassInv(next, A0, M, V0, i + 1);
    } else {
      assert Pass(s, M, i) == s;
    }
  }

  lemma {:induction false} LoopInv(s: State, A0: Matrix, M: Matrix, V0: Vector)
    requires Inv(s, A0, M, V0)
    ensures Inv(Loop(s, M), A0, M, V0)
    decreases |A0| - |s.sequence|
  {
    if |s.sequence| < |A0| {
      PassInv(s, A0, M, V0, 0);
      var next := Pass(s, M, 0);
      if |next.sequence| != |s.sequence| {
        LoopInv(next, A0, M, V0);
      }
    }
  }

  lemma FinalInv(A0: Matrix, M: Matrix, V0: Vector)
    requires Shaped(A0, M, V0)
    ensures Inv(Final(A0, M, V0), A0, M, V0)
  {
    InitInv(A0, M, V0);
    LoopInv(Init(A0, M, V0), A0, M, V0);
  }

  /** A pass that schedules nothing changes nothing, and found nobody eligible. */
  lemma {:induction false} PassWithoutProgress(s: State, M: Matrix, i: nat)
    requires Fitted(s, M) && i <= |M|
    ensures |Pass(s, M, i).sequence| == |s.sequence| ==>
      Pass(s, M, i) == s && forall k :: i <= k < |M| ==> s.finish[k] || !Eligible(s.need, s.work, s.finish, k)
    decreases |M| - i
  {
    if i < |M| {
      if !s.finish[i] && Eligible(s.need, s.work, s.finish, i) {
        var next := Execute(s, M, i);
        assert |Pass(next, M, i + 1).sequence| >= |next.sequence| == |s.sequence| + 1;
      } else {
        PassWithoutProgress(s, M, i + 1);
      }
    }
  }

  /** A run ends with every process sequenced, or with no unfinished process eligible. */
  lemma {:induction false} LoopEndsStuck(s: State, M: Matrix)
    requires Fitted(s, M)
    ensures var r := Loop(s, M);
      |r.sequence| >= |M| || forall k :: 0 <= k < |M| ==> r.finish[k] || !Eligible(r.need, r.work, r.finish, k)
    decreases |M| - |s.sequence|
  {
    if |s.sequence| < |M| {
      var next := Pass(s, M, 0);
      if |next.sequence| == |s.sequence| {
        PassWithoutProgress(s, M, 0);
      } else {
        LoopEndsStuck(next, M);
      }
    }
  }

  // ---------------------------------------------------------------------
  // What a run returns

  /** The sequence names each process at most once, so it is never longer than n. */
  lemma SequenceIsDistinct(A0: Matrix, M: Matrix, V0: Vector)
    requires Shaped(A0, M, V0)
    ensures var r := Simulate(A0, M, V0);
      Distinct(r.sequence) && InRange(r.sequence, |A0|) && |r.sequence| <= |A0|
  {
    FinalInv(A0, M, V0);
    CountTrueFull(Final(A0, M, V0).finish);
  }

  /** `safe` holds exactly when every process has been sequenced. */
  lemma SafeIffAllSequenced(A0: Matrix, M: Matrix, V0: Vector)
    requires Shaped(A0, M, V0)
    ensures var r := Simulate(A0, M, V0);
      r.safe <==> forall p :: 0 <= p < |A0| ==> p in r.sequence
  {
    var f := Final(A0, M, V0);
    FinalInv(A0, M, V0);
    CountTrueFull(f.finish);
  }

  /** Each scheduled process has a "before" then an "after" snapshot, in sequence order. */
  lemma StepsComeInPairs(A0: Matrix, M: Matrix, V0: Vector)
    requires Shaped(A0, M, V0)
    ensures var r := Simulate(A0, M, V0);
      |r.steps| == 2 * |r.sequence| &&
      forall k :: 0 <= k < |r.sequence| ==>
        r.steps[2 * k].process == r.sequence[k] && !r.steps[2 * k].completed &&
        r.steps[2 * k].requested == None &&
        r.steps[2 * k + 1].process == r.sequence[k] && r.steps[2 * k + 1].completed
  {
    FinalInv(A0, M, V0);
  }

  /**
   * The `requested` vector of an "after" snapshot is the process's need
   * (max - allocation), and it fits in the `work` of its "before" snapshot.
   */
  lemma RequestedFitsWork(A0: Matrix, M: Matrix, V0: Vector)
    requires Shaped(A0, M, V0)
    ensures var r := Simulate(A0, M, V0);
      |r.steps| == 2 * |r.sequence| &&
      forall k :: 0 <= k < |r.sequence| ==>
        var p := r.sequence[k];
        p < |A0| && |r.steps[2 * k].work| == |V0| &&
        r.steps[2 * k + 1].requested == Some(Sub(M[p], A0[p])) &&
        Fits(Sub(M[p], A0[p]), r.steps[2 * k].work)
  {
    FinalInv(A0, M, V0);
    var r := Simulate(A0, M, V0);
    forall k | 0 <= k < |r.sequence|
      ensures r.sequence[k] < |A0| && |r.steps[2 * k].work| == |V0|
    {
      assert Turn(r.sequence[k], r.steps[2 * k], r.steps[2 * k + 1], r.sequence[..k], A0, M, V0);
    }
  }

  /** The two snapshots of turn `k` show the state before and after that turn. */
  lemma TraceSnapshots(steps: seq<Step>, sequence: seq<nat>, A0: Matrix, M: Matrix, V0: Vector, k: nat)
    requires Trace(steps, sequence, A0, M, V0) && k < |sequence|
    ensures |steps| == 2 * |sequence|
    ensures SnapshotAt(steps[2 * k], sequence[..k], A0, M, V0)
    ensures SnapshotAt(steps[2 * k + 1], sequence[..k + 1], A0, M, V0)
  {
    PrefixSnoc(sequence, k);
    assert Turn(sequence[k], steps[2 * k], steps[2 * k + 1], sequence[..k], A0, M, V0);
  }

  /** Step `t` belongs to turn `k`; (t + 1) / 2 turns are complete at it. */
  lemma Half(t: nat) returns (k: nat)
    ensures (t == 2 * k && (t + 1) / 2 == k) || (t == 2 * k + 1 && (t + 1) / 2 == k + 1)
  {
    k := t / 2;
  }

  lemma PrefixSnoc(ps: seq<nat>, k: nat)
    requires k < |ps|
    ensures ps[..k + 1] == ps[..k] + [ps[k]]
  {
  }

  /** Snapshot `t` of a trace shows the state after the first (t + 1) / 2 turns. */
  lemma TraceSnapshot(steps: seq<Step>, sequence: seq<nat>, A0: Matrix, M: Matrix, V0: Vector, t: nat)
    requires Trace(steps, sequence, A0, M, V0) && t < |steps|
    ensures SnapshotAt(steps[t], sequence[..(t + 1) / 2], A0, M, V0)
  {
    var k := Half(t);
    TraceSnapshots(steps, sequence, A0, M, V0, k);
    if t == 2 * k {
      assert steps[t] == steps[2 * k] && (t + 1) / 2 == k;
    } else {
      assert steps[t] == steps[2 * k + 1] && (t + 1) / 2 == k + 1;
    }
  }

  /** The steps of a run form a trace of its sequence. */
  lemma SimulateTrace(A0: Matrix, M: Matrix, V0: Vector)
    requires Shaped(A0, M, V0)
    ensures var r := Simulate(A0, M, V0); Trace(r.steps, r.sequence, A0, M, V0)
  {
    FinalInv(A0, M, V0);
  }

  /** Snapshot `t` shows the state after the first (t + 1) / 2 processes of the sequence. */
  lemma SnapshotsConsistent(A0: Matrix, M: Matrix, V0: Vector)
    requires Shaped(A0, M, V0)
    ensures var r := Simulate(A0, M, V0);
      |r.steps| == 2 * |r.sequence| &&
      forall t :: 0 <= t < |r.steps| ==> SnapshotAt(r.steps[t], r.sequence[..(t + 1) / 2], A0, M, V0)
  {
    var r := Simulate(A0, M, V0);
    SimulateTrace(A0, M, V0);
    forall t | 0 <= t < |r.steps|
      ensures SnapshotAt(r.steps[t], r.sequence[..(t + 1) / 2], A0, M, V0)
    {
      TraceSnapshot(r.steps, r.sequence, A0, M, V0, t);
    }
  }

  /** In every snapshot `work` and `available` are the same vector. */
  lemma WorkEqualsAvailable(A0: Matrix, M: Matrix, V0: Vector)
    requires Shaped(A0, M, V0)
    ensures var r := Simulate(A0, M, V0);
      forall t :: 0 <= t < |r.steps| ==> r.steps[t].work == r.steps[t].available
  {
    SnapshotsConsistent(A0, M, V0);
  }

  /**
   * In every snapshot, available plus the column sums of the allocation
   * matrix equal the caller's available plus the caller's column sums.
   */
  lemma ResourcesConserved(A0: Matrix, M: Matrix, V0: Vector)
    requires Shaped(A0, M, V0)
    ensures var r := Simulate(A0, M, V0);
      forall t :: 0 <= t < |r.steps| ==>
        IsMatrix(r.steps[t].allocation, |A0|, |V0|) && |r.steps[t].available| == |V0| &&
        forall j :: 0 <= j < |V0| ==>
          r.steps[t].available[j] + ColumnSum(r.steps[t].allocation, j) == V0[j] + ColumnSum(A0, j)
  {
    SnapshotsConsistent(A0, M, V0);
  }

  /**
   * Once a process is in the sequence its allocation and need rows are zero
   * in every later snapshot; before that they are the caller's allocation row
   * and max - allocation.
   */
  lemma FinishedRowsStayZero(A0: Matrix, M: Matrix, V0: Vector)
    requires Shaped(A0, M, V0)
    ensures var r := Simulate(A0, M, V0);
      |r.steps| == 2 * |r.sequence| &&
      forall t :: 0 <= t < |r.steps| ==>
        var done := r.sequence[..(t + 1) / 2];
        IsMatrix(r.steps[t].allocation, |A0|, |V0|) && IsMatrix(r.steps[t].need, |A0|, |V0|) &&
        forall p :: 0 <= p < |A0| ==>
          r.steps[t].allocation[p] == (if p in done then Zeros(|V0|) else A0[p]) &&
          r.steps[t].need[p] == (if p in done then Zeros(|V0|) else Sub(M[p], A0[p]))
  {
    SnapshotsConsistent(A0, M, V0);
  }

  /** When no process holds more than its maximum, no need cell is ever negative. */
  lemma NeedNonNegative(A0: Matrix, M: Matrix, V0: Vector)
    requires Shaped(A0, M, V0)
    requires forall p, j :: 0 <= p < |A0| && 0 <= j < |V0| ==> A0[p][j] <= M[p][j]
    ensures var r := Simulate(A0, M, V0);
      forall t :: 0 <= t < |r.steps| ==>
        IsMatrix(r.steps[t].need, |A0|, |V0|) &&
        forall p, j :: 0 <= p < |A0| && 0 <= j < |V0| ==> 0 <= r.steps[t].need[p][j]
  {
    SnapshotsConsistent(A0, M, V0);
    var r := Simulate(A0, M, V0);
    forall t, p, j | 0 <= t < |r.steps| && 0 <= p < |A0| && 0 <= j < |V0|
      ensures 0 <= r.steps[t].need[p][j]
    {
      assert SnapshotAt(r.steps[t], r.sequence[..(t + 1) / 2], A0, M, V0);
    }
  }

  /** With non-negative allocations, `work` never drops below the caller's `available`. */
  lemma WorkAtLeastAvailable(A0: Matrix, M: Matrix, V0: Vector)
    requires Shaped(A0, M, V0) && NonNegative(A0)
    ensures var r := Simulate(A0, M, V0);
      (forall t :: 0 <= t < |r.steps| ==> |r.steps[t].work| == |V0|) &&
      (forall t, j :: 0 <= t < |r.steps| && 0 <= j < |V0| ==> V0[j] <= r.steps[t].work[j])
  {
    SnapshotsConsistent(A0, M, V0);
    var r := Simulate(A0, M, V0);
    forall t, j | 0 <= t < |r.steps| && 0 <= j < |V0|
      ensures V0[j] <= r.steps[t].work[j]
    {
      assert SnapshotAt(r.steps[t], r.sequence[..(t + 1) / 2], A0, M, V0);
      ReleasedNonNegative(A0, r.sequence[..(t + 1) / 2], j);
    }
  }

  /** With non-negative allocations, `work` never decreases from one snapshot to a later one. */
  lemma WorkNeverDecreases(A0: Matrix, M: Matrix, V0: Vector)
    requires Shaped(A0, M, V0) && NonNegative(A0)
    ensures var r := Simulate(A0, M, V0);
      (forall t :: 0 <= t < |r.steps| ==> |r.steps[t].work| == |V0|) &&
      (forall t, u, j :: 0 <= t <= u < |r.steps| && 0 <= j < |V0| ==> r.steps[t].work[j] <= r.steps[u].work[j])
  {
    SnapshotsConsistent(A0, M, V0);
    var r := Simulate(A0, M, V0);
    forall t, u, j | 0 <= t <= u < |r.steps| && 0 <= j < |V0|
      ensures r.steps[t].work[j] <= r.steps[u].work[j]
    {
      var a, b := (t + 1) / 2, (u + 1) / 2;
      assert SnapshotAt(r.steps[t], r.sequence[..a], A0, M, V0);
      assert SnapshotAt(r.steps[u], r.sequence[..b], A0, M, V0);
      PoolGrows(A0, V0, r.sequence[..a], r.sequence[a..b], j);
      assert r.sequence[..a] + r.sequence[a..b] == r.sequence[..b];
    }
  }

  /** Releasing more processes only adds to the pool, given non-negative rows. */
  lemma PoolGrows(A0: Matrix, V0: Vector, ps: seq<nat>, qs: seq<nat>, j: nat)
    requires IsMatrix(A0, |A0|, |V0|) && NonNegative(A0) && InRange(ps + qs, |A0|) && j < |V0|
    ensures InRange(ps, |A0|) && Pool(A0, V0, ps)[j] <= Pool(A0, V0, ps + qs)[j]
  {
    assert forall k :: 0 <= k < |ps| ==> ps[k] == (ps + qs)[k];
    ReleasedAppend(A0, ps, qs, j);
    ReleasedNonNegative(A0, qs, j);
  }

  /** The sequence is a safe ordering in the textbook sense. */
  lemma SequenceIsSafeOrder(A0: Matrix, M: Matrix, V0: Vector)
    requires Shaped(A0, M, V0)
    ensures SafeOrder(A0, M, V0, Simulate(A0, M, V0).sequence)
  {
    FinalInv(A0, M, V0);
    var r := Simulate(A0, M, V0);
    forall k | 0 <= k < |r.sequence|
      ensures Fits(Sub(M[r.sequence[k]], A0[r.sequence[k]]), Pool(A0, V0, r.sequence[..k]))
    {
      assert Turn(r.sequence[k], r.steps[2 * k], r.steps[2 * k + 1], r.sequence[..k], A0, M, V0);
    }
  }

  /** An unscheduled process still has its whole need, and `work` is the pool. */
  lemma CoreUnfinished(s: State, A0: Matrix, M: Matrix, V0: Vector, p: nat)
    requires Core(s, A0, M, V0) && p < |A0| && p !in s.sequence
    ensures !s.finish[p] && s.need[p] == Sub(M[p], A0[p]) && s.work == Pool(A0, V0, s.sequence)
  {
    assert s.need[p] == NeedOf(M, s.allocation, s.finish)[p];
  }

  /**
   * When the run is unsafe some process is left out, and no process left
   * out can have its need met from the pool the sequenced ones leave.
   */
  lemma UnsafeMeansStuck(A0: Matrix, M: Matrix, V0: Vector)
    requires Shaped(A0, M, V0)
    ensures var r := Simulate(A0, M, V0);
      InRange(r.sequence, |A0|) &&
      (!r.safe ==>
        (exists p :: 0 <= p < |A0| && p !in r.sequence) &&
        forall p :: 0 <= p < |A0| && p !in r.sequence ==> !Fits(Sub(M[p], A0[p]), Pool(A0, V0, r.sequence)))
  {
    var f := Final(A0, M, V0);
    FinalInv(A0, M, V0);
    CountTrueFull(f.finish);
    SafeIffAllSequenced(A0, M, V0);
    LoopEndsStuck(Init(A0, M, V0), M);
    if |f.sequence| < |A0| {
      forall p | 0 <= p < |A0| && p !in f.sequence
        ensures !Fits(Sub(M[p], A0[p]), Pool(A0, V0, f.sequence))
      {
        CoreUnfinished(f, A0, M, V0, p);
        assert !Eligible(f.need, f.work, f.finish, p);
      }
    }
  }

  // ---------------------------------------------------------------------
  // The run against the textbook definition of a safe state

  /** The first process of `order` that `sq` leaves out, given that `p` is one. */
  lemma {:induction false} FirstOutside(order: seq<nat>, sq: seq<nat>, p: nat) returns (k: nat)
    requires p in order && p !in sq
    ensures k < |order| && order[k] !in sq
    ensures forall l :: 0 <= l < k ==> order[l] in sq
  {
    if order[0] !in sq {
      k := 0;
    } else {
      var k' := FirstOutside(order[1..], sq, p);
      k := k' + 1;
      forall l | 0 <= l < k
        ensures order[l] in sq
      {
        if l > 0 {
          assert order[l] == order[1..][l - 1];
        }
      }
    }
  }

  /**
   * With non-negative allocations, the pool left by a duplicate-free list of
   * processes is no larger than the pool left by a duplicate-free list that
   * contains all of them.
   */
  lemma PoolMonotone(A0: Matrix, V0: Vector, ps: seq<nat>, qs: seq<nat>)
    requires IsMatrix(A0, |A0|, |V0|) && NonNegative(A0)
    requires InRange(qs, |A0|) && Distinct(ps) && Distinct(qs)
    requires forall k :: 0 <= k < |ps| ==> ps[k] in qs
    ensures InRange(ps, |A0|)
    ensures forall j :: 0 <= j < |V0| ==> Pool(A0, V0, ps)[j] <= Pool(A0, V0, qs)[j]
  {
    forall k | 0 <= k < |ps|
      ensures ps[k] < |A0|
    {
      var x :| 0 <= x < |qs| && qs[x] == ps[k];
    }
    forall j | 0 <= j < |V0|
      ensures Pool(A0, V0, ps)[j] <= Pool(A0, V0, qs)[j]
    {
      ReleasedSubset(A0, ps, qs, j);
    }
  }

  /**
   * With non-negative allocations, whenever some ordering of all processes
   * is safe the check reports a safe state: a stuck run would leave out a
   * process whose need fits the pool of the ones the ordering puts first,
   * and that pool is no larger than the pool the run ended with.
   */
  lemma SafeOrderMeansSafe(A0: Matrix, M: Matrix, V0: Vector, order: seq<nat>)
    requires Shaped(A0, M, V0) && NonNegative(A0) && CompleteSafeOrder(A0, M, V0, order)
    ensures Simulate(A0, M, V0).safe
  {
    var r := Simulate(A0, M, V0);
    SafeIffAllSequenced(A0, M, V0);
    if !r.safe {
      UnsafeMeansStuck(A0, M, V0);
      SequenceIsDistinct(A0, M, V0);
      var p :| 0 <= p < |A0| && p !in r.sequence;
      var k := FirstOutside(order, r.sequence, p);
      var q := order[k];
      var before := order[..k];
      assert Fits(Sub(M[q], A0[q]), Pool(A0, V0, before));
      assert Distinct(before) by {
        assert forall l :: 0 <= l < k ==> before[l] == order[l];
      }
      PoolMonotone(A0, V0, before, r.sequence);
      assert false;
    }
  }

  /**
   * With non-negative allocations the check is exact: it reports a safe
   * state precisely when some ordering of all processes is safe.
   */
  lemma SafeIffSafeOrderExists(A0: Matrix, M: Matrix, V0: Vector)
    requires Shaped(A0, M, V0) && NonNegative(A0)
    ensures Simulate(A0, M, V0).safe <==> exists order :: CompleteSafeOrder(A0, M, V0, order)
  {
    var r := Simulate(A0, M, V0);
    if order :| CompleteSafeOrder(A0, M, V0, order) {
      SafeOrderMeansSafe(A0, M, V0, order);
    }
    if r.safe {
      SequenceIsSafeOrder(A0, M, V0);
      SafeIffAllSequenced(A0, M, V0);
      assert CompleteSafeOrder(A0, M, V0, r.sequence);
    }
  }

  /** The processes 0, 1, ..., n - 1 in index order. */
  function Upto(n: nat): (r: seq<nat>)
    ensures |r| == n && forall k :: 0 <= k < n ==> r[k] == k
  {
    seq(n, k requires 0 <= k => k)
  }

  /**
   * A pass that reaches process `i` with exactly 0, ..., i - 1 scheduled,
   * when every later need fits the starting pool, schedules all the rest.
   */
  lemma {:induction false} PassTakesAll(s: State, A0: Matrix, M: Matrix, V0: Vector, i: nat)
    requires Inv(s, A0, M, V0) && NonNegative(A0) && i <= |A0| && s.sequence == Upto(i)
    requires forall p :: i <= p < |A0| ==> Fits(Sub(M[p], A0[p]), V0)
    ensures Pass(s, M, i).sequence == Upto(|A0|)
    decreases |A0| - i
  {
    if i < |A0| {
      assert i !in s.sequence;
      CoreUnfinished(s, A0, M, V0, i);
      forall j | 0 <= j < |V0|
        ensures V0[j] <= s.work[j]
      {
        ReleasedNonNegative(A0, s.sequence, j);
      }
      assert Eligible(s.need, s.work, s.finish, i);
      ExecuteInv(s, A0, M, V0, i);
      var next := Execute(s, M, i);
      assert next.sequence == Upto(i + 1);
      PassTakesAll(next, A0, M, V0, i + 1);
    }
  }

  /**
   * When every process's remaining need fits the caller's `available`
   * (and allocations are non-negative) the first pass schedules every
   * process in index order and the state is safe.
   */
  lemma AllFitRunInIndexOrder(A0: Matrix, M: Matrix, V0: Vector)
    requires Shaped(A0, M, V0) && NonNegative(A0)
    requires forall p :: 0 <= p < |A0| ==> Fits(Sub(M[p], A0[p]), V0)
    ensures Simulate(A0, M, V0).safe && Simulate(A0, M, V0).sequence == Upto(|A0|)
  {
    var init := Init(A0, M, V0);
    InitInv(A0, M, V0);
    if |A0| > 0 {
      PassTakesAll(init, A0, M, V0, 0);
      var next := Pass(init, M, 0);
      assert Loop(next, M) == next;
    }
  }
}
