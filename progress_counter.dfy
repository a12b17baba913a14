/**
 * The static `ProgressCounter` class: a counter of completed work, the target
 * it counts toward, and the background job that redraws the progress line
 * until the two are equal.
 *
 * The static fields become the fields of one `ProgressCounter` object. Thread
 * creation, `Thread.Abort` and the end of the thread become changes of the
 * `job` field; the `lock` survives only as the exception it raises when no
 * job was ever created.
 */
module ProgressCounter {
  import opened Wrappers
  import opened Progress

  /** Range and modulus of C#'s `long`. */
  const Int64Min: int := -0x8000_0000_0000_0000
  const Int64Max: int := 0x7FFF_FFFF_FFFF_FFFF
  const Modulus64: int := 0x1_0000_0000_0000_0000

  predicate InInt64(x: int) {
    Int64Min <= x <= Int64Max
  }

  /** Unchecked `long` arithmetic: the value congruent to `x` modulo 2^64 that a `long` can hold. */
  function Wrap64(x: int): (r: int)
    ensures InInt64(r)
    ensures (r - x) % Modulus64 == 0
    ensures InInt64(x) ==> r == x
  {
    (x - Int64Min) % Modulus64 + Int64Min
  }

  /** State of `ProgressJob`. */
  datatype Job =
    | NoJob    // `ProgressJob == null`: `Start` never got past its validation
    | Alive    // the reporter thread is running its loop
    | Ended    // the reporter loop returned, or threw
    | Aborted  // `Stop` aborted the reporter thread

  /** The exceptions the counter's operations raise. */
  datatype Fault =
    | InvalidArgument(max: int)  // `Start` with `max <= 0`
    | NullLock                   // `lock (ProgressJob)` with no job
    | NullReference              // `ProgressJob.IsAlive` with no job

  /** Sum of a sequence of steps. */
  function Sum(steps: seq<int>): int {
    if steps == [] then 0 else Sum(steps[..|steps| - 1]) + steps[|steps| - 1]
  }

  /** `CurrentProgress` after `Increase(s)` for each `s` of `steps`, in order, starting from `c`. */
  function AfterIncreases(c: int, steps: seq<int>): int {
    if steps == [] then c
    else Wrap64(AfterIncreases(c, steps[..|steps| - 1]) + steps[|steps| - 1])
  }

  /**
   * The values the reporter reads at its successive polls, when between poll
   * `k` and poll `k + 1` the workers' `Increase` calls add `arrivals[k]`.
   */
  function Observed(c: int, arrivals: seq<int>): (polls: seq<int>)
    ensures |polls| == |arrivals| + 1
  {
    seq(|arrivals| + 1, k requires 0 <= k <= |arrivals| => AfterIncreases(c, arrivals[..k]))
  }

  /** Between two polls the count moves by that interval's arrivals. */
  lemma ObservedNext(c: int, arrivals: seq<int>, i: nat)
    requires i < |arrivals|
    ensures Observed(c, arrivals)[i + 1] == Wrap64(Observed(c, arrivals)[i] + arrivals[i])
  {
    assert arrivals[..i + 1][..i] == arrivals[..i];
  }

  /** `n` calls of `Increase()` with its default step. */
  function Ones(n: nat): (s: seq<int>)
    ensures |s| == n
  {
    seq(n, _ => 1)
  }

  class ProgressCounter {
    var current: int  // CurrentProgress
    var target: int   // TargetProgress
    var job: Job      // ProgressJob

    /** Both counters fit a `long`, and a target above zero was set before any job exists. */
    ghost predicate Valid()
      reads this
    {
      InInt64(current) && 0 <= target <= Int64Max && (job != NoJob ==> target > 0)
    }

    /** The static fields' initial values. */
    constructor ()
      ensures Valid()
      ensures current == 0 && target == 0 && job == NoJob
    {
      current, target, job := 0, 0, NoJob;
    }

    /**
     * Stops a running reporter first, then rejects a `max` that is not
     * positive; otherwise sets the target and launches a new reporter.
     * The count of completed work is kept as it was.
     */
    method Start(max: int) returns (r: Outcome<Fault>)
      requires Valid() && InInt64(max)
      modifies this
      ensures Valid()
      ensures r == if max <= 0 then Fail(InvalidArgument(max)) else Pass
      ensures current == old(current)
      ensures target == if max <= 0 then old(target) else max
      ensures job == if 0 < max then Alive
                     else if old(job) == Alive then Aborted
                     else old(job)
    {
      if job == Alive {
        var _ := Stop();
      }
      if max <= 0 {
        return Fail(InvalidArgument(max));
      }
      target := max;
      job := Alive;
      r := Pass;
    }

    /** Adds `step` to the count, with `long` wrap-around; fails when no job was ever created. */
    method Increase(step: int := 1) returns (r: Outcome<Fault>)
      requires Valid() && InInt64(step)
      modifies this`current
      ensures Valid()
      ensures r == if job == NoJob then Fail(NullLock) else Pass
      ensures current == if job == NoJob then old(current) else Wrap64(old(current) + step)
    {
      if job == NoJob {
        return Fail(NullLock);
      }
      current := Wrap64(current + step);
      r := Pass;
    }

    /** Aborts a running reporter; fails when no job was ever created. */
    method Stop() returns (r: Outcome<Fault>)
      requires Valid()
      modifies this`job
      ensures Valid()
      ensures r == if old(job) == NoJob then Fail(NullReference) else Pass
      ensures job == if old(job) == Alive then Aborted else old(job)
    {
      if job == NoJob {
        return Fail(NullReference);
      }
      if job == Alive {
        job := Aborted;
      }
      r := Pass;
    }

    /**
     * The reporter thread's loop. Between its polls the workers add
     * `arrivals[k]` to the count; the loop draws a line at every poll and
     * leaves after the first one that finds the count equal to the target
     * (or whose line throws), which ends the job.
     */
    method ProgressBar(arrivals: seq<int>) returns (rep: Report)
      requires Valid() && job == Alive
      modifies this`current, this`job
      ensures Valid()
      ensures rep == Trace(target, Observed(old(current), arrivals))
      ensures rep.end != Crashed(DivideByZero)
      ensures 0 < PollsTaken(rep) <= |arrivals| + 1
      ensures current == Observed(old(current), arrivals)[PollsTaken(rep) - 1]
      ensures job == if rep.end == Polling then Alive else Ended
    {
      ghost var polls := Observed(current, arrivals);
      var frames: seq<Frame> := [];
      var i := 0;
      while true
        invariant Valid() && job == Alive && target == old(target)
        invariant 0 <= i <= |arrivals| && |frames| == i
        invariant current == polls[i]
        invariant Trace(target, polls) ==
                  Report(frames + Trace(target, polls[i..]).frames, Trace(target, polls[i..]).end)
        decreases |arrivals| - i
      {
        TraceStep(target, polls, i, frames);
        var line := Render(current, target);
        if line.Err? {
          job := Ended;
          return Report(frames, Crashed(line.error));
        }
        frames := frames + [line.value];
        if Done(current, target) {
          job := Ended;
          return Report(frames, Finished);
        }
        if i == |arrivals| {
          TraceExhausted(target, polls, frames);
          return Report(frames, Polling);
        }
        ObservedNext(old(current), arrivals, i);
        current := Wrap64(current + arrivals[i]);
        i := i + 1;
      }
    }
  }

  // ---------------------------------------------------------------------------
  // Properties of the counter

  /** Two values a `long` can hold that agree modulo 2^64 are equal. */
  lemma WrapUnique(x: int, r: int)
    requires InInt64(r) && (r - x) % Modulus64 == 0
    ensures r == Wrap64(x)
  {
    var w := Wrap64(x);
    assert (r - w) % Modulus64 == 0;
  }

  /** Wrapping an intermediate sum does not change the final wrapped sum. */
  lemma WrapComposes(a: int, b: int)
    ensures Wrap64(Wrap64(a) + b) == Wrap64(a + b)
  {
    var w := Wrap64(a);
    assert (Wrap64(w + b) - (a + b)) % Modulus64 == 0 by {
      assert Wrap64(w + b) - (a + b) == (Wrap64(w + b) - (w + b)) + (w - a);
    }
    WrapUnique(a + b, Wrap64(w + b));
  }

  /**
   * Successive `Increase` calls lose nothing: the count ends at the starting
   * count plus the sum of the steps, wrapped to a `long`.
   */
  lemma {:induction false} IncreasesAddUp(c: int, steps: seq<int>)
    requires InInt64(c)
    ensures AfterIncreases(c, steps) == Wrap64(c + Sum(steps))
    decreases |steps|
  {
    if steps != [] {
      var init := steps[..|steps| - 1];
      IncreasesAddUp(c, init);
      WrapComposes(c + Sum(init), steps[|steps| - 1]);
    }
  }

  lemma {:induction false} SumOnes(n: nat)
    ensures Sum(Ones(n)) == n
  {
    if n > 0 {
      assert Ones(n)[..n - 1] == Ones(n - 1);
      SumOnes(n - 1);
    }
  }

  /** `n` calls of `Increase()` from a count of `c` leave `c + n`, while that fits a `long`. */
  lemma UnitIncreases(c: int, n: nat)
    requires InInt64(c) && c + n <= Int64Max
    ensures AfterIncreases(c, Ones(n)) == c + n
  {
    IncreasesAddUp(c, Ones(n));
    SumOnes(n);
  }

  /**
   * A run from a count of 0 toward a target `t`, with one `Increase()`
   * between consecutive polls: the reporter sees 0, 1, ..., t, draws `t + 1`
   * lines and finishes on a line showing 100 percent and a full bar.
   */
  lemma UnitRunFinishes(t: int)
    requires 0 < t <= Int64Max
    ensures var rep := Trace(t, Observed(0, Ones(t)));
            && rep.end == Finished
            && |rep.frames| == t + 1
            && rep.frames[t].percent == 100
            && rep.frames[t].bar == Repeat('#', TotalBlocks)
  {
    var polls := Observed(0, Ones(t));
    forall k | 0 <= k < |polls|
      ensures polls[k] == k
    {
      assert Ones(t)[..k] == Ones(k);
      UnitIncreases(0, k);
    }
    TraceFinishes(t, polls, t);
    TraceStopsAtFirstMatch(t, polls);
  }

  /**
   * `Start` keeps the count of an earlier run: after `Start(5)`, five calls
   * of `Increase()` and `Start(3)`, the count is 5 against a target of 3,
   * and drawing the line throws, as 166 percent needs a negative number of
   * `'-'` cells.
   */
  method RestartKeepsCount() returns (count: int, goal: int, line: Result<Frame, BarError>)
    ensures count == 5 && goal == 3
    ensures line == Err(NegativeLength)
  {
    var counter := new ProgressCounter();
    var r := counter.Start(5);
    r := counter.Increase();
    r := counter.Increase();
    r := counter.Increase();
    r := counter.Increase();
    r := counter.Increase();
    r := counter.Start(3);
    count, goal := counter.current, counter.target;
    line := Render(count, goal);
  }
}
