// The safety check of the Banker's Algorithm as pure functions on values:
// the reference definition that the imperative BankerAlgorithm module is
// proved to compute, and that SafetyProofs states properties of.

module SafetySpec {
  import opened Vectors

  datatype Option<T> = None | Some(value: T)

  /**
   * A snapshot pushed onto `steps`. A "before" snapshot (completed = false)
   * has no `requested` vector; an "after" snapshot carries the need row that
   * process `process` had when it was scheduled.
   */
  datatype Step = Step(
    process: nat,
    allocation: Matrix,
    need: Matrix,
    requested: Option<Vector>,
    available: Vector,
    work: Vector,
    completed: bool)

  /** The working variables of one run: its local copies and accumulators. */
  datatype State = State(
    allocation: Matrix,
    need: Matrix,
    available: Vector,
    work: Vector,
    finish: seq<bool>,
    sequence: seq<nat>,
    steps: seq<Step>)

  /** What a run returns. */
  datatype Outcome = Outcome(safe: bool, sequence: seq<nat>, steps: seq<Step>)

  /** n processes, one row of `allocation` and `max` each, m = |available| resources. */
  predicate Shaped(allocation: Matrix, max: Matrix, available: Vector)
  {
    IsMatrix(allocation, |allocation|, |available|) && IsMatrix(max, |allocation|, |available|)
  }

  /** The working state has the shape that `max` gives the run. */
  predicate Fitted(s: State, max: Matrix)
  {
    var n, m := |max|, |s.work|;
    IsMatrix(max, n, m) && IsMatrix(s.allocation, n, m) && IsMatrix(s.need, n, m) &&
    |s.available| == m && |s.finish| == n
  }

  /** The need matrix: max - allocation, with the rows of finished processes zero. */
  function NeedOf(max: Matrix, allocation: Matrix, finish: seq<bool>): Matrix
    requires |allocation| == |max| == |finish|
    requires forall i :: 0 <= i < |max| ==> |allocation[i]| == |max[i]|
  {
    seq(|max|, i requires 0 <= i < |max| =>
      if finish[i] then Zeros(|max[i]|) else Sub(max[i], allocation[i]))
  }

  /** Process `i` can run: its need row fits in `work`, and it has not finished. */
  predicate Eligible(need: Matrix, work: Vector, finish: seq<bool>, i: nat)
    requires i < |need| && i < |finish| && |need[i]| == |work|
  {
    Fits(need[i], work) && !finish[i]
  }

  /** The state in which the first pass starts. */
  function Init(allocation: Matrix, max: Matrix, available: Vector): State
    requires Shaped(allocation, max, available)
  {
    var finish := seq(|allocation|, _ => false);
    State(allocation, NeedOf(max, allocation, finish), available, available, finish, [], [])
  }

  /**
   * Schedule process `i`: a "before" snapshot, its allocation released into
   * `work` and `available`, its row zeroed, `finish[i]` set, `i` appended to
   * the sequence, need recomputed, and an "after" snapshot.
   */
  function Execute(s: State, max: Matrix, i: nat): State
    requires Fitted(s, max) && i < |max|
  {
    var m := |s.work|;
    var before := Step(i, s.allocation, s.need, None, s.available, s.work, false);
    var work := Add(s.work, s.allocation[i]);
    var finish := s.finish[i := true];
    var available := Add(s.available, s.allocation[i]);
    var allocation := s.allocation[i := Zeros(m)];
    var requested := s.need[i];
    var need := NeedOf(max, allocation, finish);
    var after := Step(i, allocation, need, Some(requested), available, work, true);
    State(allocation, need, available, work, finish, s.sequence + [i], s.steps + [before, after])
  }

  /**
   * The rest of one pass, from process `i` on: every process that is
   * eligible when the scan reaches it is scheduled. The pass only ever adds
   * to the sequence and to the steps.
   */
  function Pass(s: State, max: Matrix, i: nat): (r: State)
    requires Fitted(s, max) && i <= |max|
    ensures Fitted(r, max) && |r.work| == |s.work|
    ensures s.sequence <= r.sequence && s.steps <= r.steps
    decreases |max| - i
  {
    if i == |max| then s
    else if !s.finish[i] && Eligible(s.need, s.work, s.finish, i) then
      var next := Execute(s, max, i);
      assert s.sequence <= next.sequence && s.steps <= next.steps;
      Pass(next, max, i + 1)
    else Pass(s, max, i + 1)
  }

  /**
   * Passes are repeated while some process is unscheduled and the last pass
   * scheduled something.
   */
  function Loop(s: State, max: Matrix): (r: State)
    requires Fitted(s, max)
    ensures Fitted(r, max) && s.sequence <= r.sequence && s.steps <= r.steps
    decreases |max| - |s.sequence|
  {
    if |s.sequence| < |max| then
      var next := Pass(s, max, 0);
      if |next.sequence| == |s.sequence| then next else Loop(next, max)
    else s
  }

  /** The whole run: safe exactly when every process made it into the sequence. */
  function Simulate(allocation: Matrix, max: Matrix, available: Vector): Outcome
    requires Shaped(allocation, max, available)
  {
    var last := Loop(Init(allocation, max, available), max);
    Outcome(|last.sequence| == |allocation|, last.sequence, last.steps)
  }
}
