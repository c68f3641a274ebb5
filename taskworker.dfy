// The benchmark's task runner (bench/taskworker/task.go): a score task runs
// a step of the benchmark and keeps the score it earned; a serial task runs
// its tasks in order, adding up their scores until one fails or the
// context is done. A runner is given here by what it returns.
module TaskWorker {
  import opened Common

  /** The errors a task sees: the context's two, the runner's "no score", and any other. */
  datatype Error = DeadlineExceeded | Canceled | NoScore | Failed(message: string)

  /** What a runner returns: the score earned and its error. */
  datatype Runner = Runner(score: int, err: Option<Error>)

  /** taskBase.Score: an error other than a passed deadline voids the score. */
  function ScoreOf(score: int, err: Option<Error>): (s: int)
    ensures err.None? || err == Some(DeadlineExceeded) ==> s == score
    ensures err.Some? && err != Some(DeadlineExceeded) ==> s == 0
  {
    if err.Some? && err != Some(DeadlineExceeded) then 0 else score
  }

  /** NewExecTask: a runner that reports a fixed score next to the step's own error. */
  function ExecRunner(score: int, stepErr: Option<Error>): (r: Runner)
    ensures r.score == score && r.err == stepErr
  {
    Runner(score, stepErr)
  }

  /** The score a score task keeps after running: none when its runner failed. */
  function KeptScore(r: Runner): (s: int)
    ensures r.err.None? ==> s == r.score
    ensures r.err.Some? ==> s == 0
  {
    if r.err.Some? then 0 else r.score
  }

  /** A runner's failure ends a serial run unless it only says there is no score. */
  predicate Stops(r: Runner)
  {
    r.err.Some? && r.err != Some(NoScore)
  }

  /** An exec task's failure always stops a serial run, though its fixed score is reported. */
  lemma ExecFailureStops(score: int, stepErr: Error)
    requires stepErr != NoScore
    ensures Stops(ExecRunner(score, Some(stepErr)))
    ensures KeptScore(ExecRunner(score, Some(stepErr))) == 0
  {
  }

  class ScoreTask {
    var score: int
    var err: Option<Error>
    const runner: Runner

    constructor (runner: Runner)
      ensures score == 0 && err.None? && this.runner == runner
    {
      score := 0;
      err := None;
      this.runner := runner;
    }

    method WriteError(e: Option<Error>)
      modifies this
      ensures err == e && score == old(score)
    {
      err := e;
    }

    function Score(): (s: int)
      reads this
      ensures s == ScoreOf(score, err)
    {
      ScoreOf(score, err)
    }

    /**
     * scoreTask.Run: the runner's score is kept, or zeroed when the
     * runner failed; "no score" is not reported as a failure.
     */
    method Run() returns (e: Option<Error>)
      modifies this
      ensures score == KeptScore(runner)
      ensures e == (if Stops(runner) then runner.err else None)
      ensures err == old(err)
    {
      score := runner.score;
      if runner.err.Some? {
        score := 0;
        if runner.err == Some(NoScore) {
          return None;
        }
        return runner.err;
      }
      return None;
    }
  }

  /** What a task brings to a serial run: its runner and the error written on it. */
  datatype Entry = Entry(runner: Runner, written: Option<Error>)

  /** The score a task that ran adds to the serial task's total. */
  function Gain(e: Entry): int
  {
    ScoreOf(KeptScore(e.runner), e.written)
  }

  function GainSum(es: seq<Entry>): int
  {
    if es == [] then 0 else GainSum(es[..|es| - 1]) + Gain(es[|es| - 1])
  }

  lemma {:induction false} GainSumAppend(a: seq<Entry>, b: seq<Entry>)
    ensures GainSum(a + b) == GainSum(a) + GainSum(b)
    decreases |b|
  {
    if b == [] {
      assert a + b == a;
    } else {
      GainSumAppend(a, b[..|b| - 1]);
      assert (a + b)[..|a + b| - 1] == a + b[..|b| - 1];
    }
  }

  /** Tasks that earned nothing negative add nothing negative. */
  lemma {:induction false} GainSumNonNegative(es: seq<Entry>)
    requires forall i :: 0 <= i < |es| ==> es[i].runner.score >= 0
    ensures GainSum(es) >= 0
  {
    if es != [] {
      GainSumNonNegative(es[..|es| - 1]);
    }
  }

  /** No task from index from up to k is met once the context is done, and none fails. */
  predicate RunsThrough(es: seq<Entry>, doneAt: nat, from: nat, k: nat)
    requires from <= k <= |es|
  {
    forall i :: from <= i < k ==> i != doneAt && !Stops(es[i].runner)
  }

  /**
   * Where a serial run that has reached task from stops: the first task met
   * once the context is done (doneAt) or whose runner fails; |es| when it
   * runs to the end.
   */
  function StopFrom(es: seq<Entry>, doneAt: nat, from: nat): (k: nat)
    requires from <= |es|
    ensures from <= k <= |es|
    ensures RunsThrough(es, doneAt, from, k)
    ensures k < |es| ==> k == doneAt || Stops(es[k].runner)
    decreases |es| - from
  {
    if from == |es| || from == doneAt || Stops(es[from].runner) then from
    else
      var k := StopFrom(es, doneAt, from + 1);
      assert RunsThrough(es, doneAt, from + 1, k);
      k
  }

  function StopAt(es: seq<Entry>, doneAt: nat): (k: nat)
    ensures k <= |es|
    ensures RunsThrough(es, doneAt, 0, k)
    ensures k < |es| ==> k == doneAt || Stops(es[k].runner)
  {
    StopFrom(es, doneAt, 0)
  }

  /** A run not cut short by the context ends only at a failing task. */
  lemma ErrorIsFirstFailure(es: seq<Entry>, doneAt: nat)
    requires doneAt >= |es|
    ensures StopAt(es, doneAt) == |es| <==> forall i :: 0 <= i < |es| ==> !Stops(es[i].runner)
  {
  }

  class SerialTask {
    var score: int
    var err: Option<Error>
    var tasks: seq<ScoreTask>

    constructor ()
      ensures score == 0 && err.None? && tasks == []
    {
      score := 0;
      err := None;
      tasks := [];
    }

    /** Add: a task added goes to the end of the list. */
    method Add(t: ScoreTask)
      modifies this
      ensures tasks == old(tasks) + [t]
      ensures score == old(score) && err == old(err)
    {
      tasks := tasks + [t];
    }

    function Entries(): seq<Entry>
      reads this, set t | t in tasks
    {
      seq(|tasks|, i reads this, set t | t in tasks requires 0 <= i < |tasks| =>
        Entry(tasks[i].runner, tasks[i].err))
    }

    /**
     * SerialTask.Run, with the context found done on reaching the entry at
     * index doneAt (with the context's error ctxErr): its tasks run in
     * order, each success adding its score, and the run stops at the
     * context or at the first failure, whose score is not added.
     */
    method Run(doneAt: nat, ctxErr: Error) returns (e: Option<Error>)
      requires ctxErr == DeadlineExceeded || ctxErr == Canceled
      modifies set t | t in tasks, this
      ensures var es := old(Entries()); var k := StopAt(es, doneAt);
        score == old(score) + GainSum(es[..k])
        && (k == |es| ==> e.None?)
        && (k < |es| && k == doneAt ==> e == Some(ctxErr))
        && (k < |es| && k != doneAt ==> e == es[k].runner.err)
      ensures tasks == old(tasks) && err == old(err)
      ensures forall t :: t in tasks ==> t.err == old(t.err)
    {
      ghost var es := Entries();
      var i := 0;
      while i < |tasks|
        invariant 0 <= i <= |tasks| == |es|
        invariant tasks == old(tasks) && err == old(err)
        invariant forall t :: t in tasks ==> t.err == old(t.err)
        invariant StopFrom(es, doneAt, i) == StopAt(es, doneAt)
        invariant score == old(score) + GainSum(es[..i])
      {
        if i == doneAt {
          return Some(ctxErr);
        }
        var task := tasks[i];
        assert es[i] == Entry(task.runner, task.err);
        var r := task.Run();
        if r.Some? {
          return r;
        }
        assert es[..i + 1][..i] == es[..i];
        score := score + task.Score();
        i := i + 1;
      }
      assert es[..i] == es;
      return None;
    }
  }
}
