/**
 * The arithmetic of the progress line and the reporter loop that draws it.
 *
 * `Program.ProgressBar` and `ProgressCounter.ProgressBar` carry the same code:
 * a whole-number percentage truncated from `processed / total * 100` (C#
 * `decimal` followed by an `(int)` cast), a 20-cell bar of `'#'` cells for
 * every full 5 percent and `'-'` cells for the rest, and a loop that repeats
 * until the polled count equals the total.
 */
module Progress {
  import opened Wrappers

  /** Number of cells in the bar (`totalBlocks`). */
  const TotalBlocks: int := 20

  /** Range of C#'s `int`, the target type of the `(int)` casts. */
  const Int32Min: int := -0x8000_0000
  const Int32Max: int := 0x7FFF_FFFF

  function Abs(x: int): nat {
    if x < 0 then -x else x
  }

  /**
   * Quotient rounded toward zero, as C#'s `(int)` cast does to a decimal
   * quotient (Dafny's own `/` rounds toward negative infinity).
   */
  function TruncDiv(a: int, b: int): (q: int)
    requires b != 0
    ensures Abs(q) * Abs(b) <= Abs(a) < (Abs(q) + 1) * Abs(b)
    ensures q != 0 ==> (q < 0 <==> (a < 0) != (b < 0))
  {
    var m := Abs(a) / Abs(b);
    FloorDivBounds(Abs(a), Abs(b));
    if (a < 0) != (b < 0) then -m else m
  }

  // ---------------------------------------------------------------------------
  // Facts about multiplication and floor division

  lemma FloorDivBounds(x: int, y: int)
    requires x >= 0 && y > 0
    ensures 0 <= x / y
    ensures (x / y) * y <= x < (x / y + 1) * y
  {
    var q := x / y;
    assert x == y * q + x % y;
    assert (q + 1) * y == q * y + y;
  }

  lemma MulMonotone(a: int, b: int, c: int)
    requires a <= b && c >= 0
    ensures a * c <= b * c
  {
    assert b * c - a * c == (b - a) * c;
  }

  /** `x / y < c` says the same as `x < c * y`, for floor division by a positive `y`. */
  lemma FloorLessIff(x: int, y: int, c: int)
    requires x >= 0 && y > 0
    ensures x / y < c <==> x < c * y
  {
    FloorDivBounds(x, y);
    if x / y < c {
      MulMonotone(x / y + 1, c, y);
    } else {
      MulMonotone(c, x / y, y);
    }
  }

  lemma FloorDivMonotone(x: int, x': int, y: int)
    requires 0 <= x <= x' && y > 0
    ensures x / y <= x' / y
  {
    FloorDivBounds(x, y);
    FloorDivBounds(x', y);
    FloorLessIff(x, y, x' / y + 1);
  }

  /** What makes the drawing of one progress line throw. */
  datatype BarError =
    | DivideByZero    // the decimal division by a total of 0
    | CastOverflow    // the percentage does not fit the `(int)` cast
    | NegativeLength  // `new string(c, n)` with `n < 0`

  /** One drawn progress line: the percentage, the number of `'#'` cells and the bar itself. */
  datatype Frame = Frame(percent: int, filled: int, bar: string)

  /** The whole-number percentage, before the range check of the cast. */
  function PercentOf(processed: int, total: int): int
    requires total != 0
  {
    TruncDiv(100 * processed, total)
  }

  /** Cells filled for a percentage: `(int)(percent / 100m * 20)`, exact in decimal. */
  function BlocksOf(percent: int): int {
    TruncDiv(percent, 5)
  }

  function Repeat(c: char, n: nat): (s: string)
    ensures |s| == n
    ensures forall k :: 0 <= k < n ==> s[k] == c
  {
    seq(n, _ => c)
  }

  /**
   * The progress line drawn for `processed` out of `total`, or the exception
   * raised while drawing it.
   */
  function Render(processed: int, total: int): (r: Result<Frame, BarError>)
    ensures r == Err(DivideByZero) <==> total == 0
    ensures r.Ok? ==> 0 <= r.value.filled <= TotalBlocks && |r.value.bar| == TotalBlocks
    ensures r.Ok? ==> forall k :: 0 <= k < TotalBlocks ==>
                        r.value.bar[k] == if k < r.value.filled then '#' else '-'
  {
    if total == 0 then Err(DivideByZero)
    else
      var percent := PercentOf(processed, total);
      if percent < Int32Min || Int32Max < percent then Err(CastOverflow)
      else
        var filled := BlocksOf(percent);
        if filled < 0 || TotalBlocks - filled < 0 then Err(NegativeLength)
        else Ok(Frame(percent, filled, Repeat('#', filled) + Repeat('-', TotalBlocks - filled)))
  }

  /** The loop's exit test, evaluated after the line is drawn. */
  predicate Done(processed: int, total: int) {
    processed == total
  }

  /** How a run of the reporter loop ends. */
  datatype LoopEnd =
    | Finished               // the exit test held; the loop broke out
    | Crashed(error: BarError)  // drawing a line threw
    | Polling                // no poll so far passed the exit test; the loop goes on

  /** The lines a run of the reporter drew, and how it ended. */
  datatype Report = Report(frames: seq<Frame>, end: LoopEnd)

  /**
   * The reporter loop, given the successive values the counter showed when
   * it was polled: draw a line for each, stop after the first one that
   * passes the exit test, or at the first one whose line throws.
   */
  function Trace(total: int, polls: seq<int>): Report
    decreases |polls|
  {
    if polls == [] then Report([], Polling)
    else
      match Render(polls[0], total)
      case Err(e) => Report([], Crashed(e))
      case Ok(f) =>
        if Done(polls[0], total) then Report([f], Finished)
        else
          var rest := Trace(total, polls[1..]);
          Report([f] + rest.frames, rest.end)
  }

  /** Number of polls the loop made: one per line drawn, plus the one whose line threw. */
  function PollsTaken(rep: Report): nat {
    |rep.frames| + if rep.end.Crashed? then 1 else 0
  }

  // ---------------------------------------------------------------------------
  // Properties of the arithmetic

  /** Rounding toward zero never reverses the order of two numerators. */
  lemma TruncDivMonotone(a: int, a': int, b: int)
    requires b > 0 && a <= a'
    ensures TruncDiv(a, b) <= TruncDiv(a', b)
  {
    if 0 <= a {
      FloorDivMonotone(a, a', b);
    } else if a' < 0 {
      FloorDivMonotone(-a', -a, b);
    } else {
      FloorDivBounds(a', b);
    }
  }

  /**
   * For a total above zero and `0 <= processed <= total` the line is always
   * drawn; its percentage is the floor of `100 * processed / total`, between
   * 0 and 100, and a cell is filled per whole 5 percent.
   */
  lemma PercentIsFloor(processed: int, total: int)
    requires total > 0 && 0 <= processed <= total
    ensures Render(processed, total).Ok?
    ensures var f := Render(processed, total).value;
            && f.percent == (100 * processed) / total
            && f.percent * total <= 100 * processed < (f.percent + 1) * total
            && 0 <= f.percent <= 100
            && f.filled == f.percent / 5
  {
    var a := 100 * processed;
    FloorDivBounds(a, total);
    MulMonotone(processed, total, 100);
    FloorLessIff(a, total, 101);
  }

  /** The bar's cell count lies in `0..20` exactly when the percentage lies in `-4..104`. */
  lemma BlocksInRangeIff(percent: int)
    ensures 0 <= BlocksOf(percent) <= TotalBlocks <==> -5 < percent < 105
  {
  }

  /**
   * With a positive total, the line is drawn exactly when the truncated
   * percentage lies strictly between -5 and 105; otherwise a cell count is
   * negative (or the cast overflows first) and drawing throws.
   */
  lemma RenderDefinedIff(processed: int, total: int)
    requires total > 0
    ensures Render(processed, total).Ok? <==> -5 * total < 100 * processed < 105 * total
  {
    var a := 100 * processed;
    BlocksInRangeIff(PercentOf(processed, total));
    if 0 <= a {
      FloorLessIff(a, total, 105);
    } else {
      FloorLessIff(-a, total, 5);
    }
  }

  /**
   * Within `0 <= processed <= total`, the bar shows 100 percent, and is full,
   * exactly when all items are processed.
   */
  lemma FullExactlyWhenDone(processed: int, total: int)
    requires total > 0 && 0 <= processed <= total
    ensures Render(processed, total).Ok?
    ensures Render(processed, total).value.percent == 100 <==> Done(processed, total)
    ensures Render(processed, total).value.filled == TotalBlocks <==> Done(processed, total)
  {
    PercentIsFloor(processed, total);
    FloorLessIff(100 * processed, total, 100);
  }

  /**
   * With the total fixed, neither the percentage nor the number of filled
   * cells ever decreases as the processed count grows.
   */
  lemma RenderMonotone(processed: int, processed': int, total: int)
    requires total > 0 && processed <= processed'
    requires Render(processed, total).Ok? && Render(processed', total).Ok?
    ensures Render(processed, total).value.percent <= Render(processed', total).value.percent
    ensures Render(processed, total).value.filled <= Render(processed', total).value.filled
  {
    TruncDivMonotone(100 * processed, 100 * processed', total);
    TruncDivMonotone(PercentOf(processed, total), PercentOf(processed', total), 5);
  }

  /** One of three files: 33 percent, six filled cells. */
  lemma RenderOneOfThree()
    ensures Render(1, 3) == Ok(Frame(33, 6, "######--------------"))
  {
    assert PercentOf(1, 3) == 33;
    var f := Render(1, 3).value;
    assert f.bar == "######--------------";
  }

  /** Ten of twenty: ten `'#'` cells and ten `'-'` cells. */
  lemma RenderTenOfTwenty()
    ensures Render(10, 20) == Ok(Frame(50, 10, "##########----------"))
  {
    assert PercentOf(10, 20) == 50;
    var f := Render(10, 20).value;
    assert f.bar == "##########----------";
  }

  // ---------------------------------------------------------------------------
  // Properties of the reporter loop

  /** The loop drew, in order, the line of each poll it took, one per poll. */
  lemma {:induction false} TraceDrawsEachPoll(total: int, polls: seq<int>)
    ensures var rep := Trace(total, polls);
            && PollsTaken(rep) <= |polls|
            && forall k :: 0 <= k < |rep.frames| ==> Render(polls[k], total) == Ok(rep.frames[k])
    decreases |polls|
  {
    if polls != [] && Render(polls[0], total).Ok? && !Done(polls[0], total) {
      TraceDrawsEachPoll(total, polls[1..]);
      var rest := Trace(total, polls[1..]);
      var rep := Trace(total, polls);
      assert rep.frames == [Render(polls[0], total).value] + rest.frames;
      assert rep.end == rest.end;
      forall k | 1 <= k < |rep.frames|
        ensures Render(polls[k], total) == Ok(rep.frames[k])
      {
        assert polls[k] == polls[1..][k - 1];
        assert rep.frames[k] == rest.frames[k - 1];
      }
    }
  }

  /**
   * The loop stops after the first poll equal to the total; if a line throws
   * first, it ends at that poll; if neither happens, it has drawn every poll
   * and is still running.
   */
  lemma {:induction false} TraceStopsAtFirstMatch(total: int, polls: seq<int>)
    ensures var rep := Trace(total, polls);
            var n := |rep.frames|;
            && (rep.end == Finished ==>
                  0 < n <= |polls| && Done(polls[n - 1], total) &&
                  forall k :: 0 <= k < n - 1 ==> !Done(polls[k], total))
            && (rep.end.Crashed? ==>
                  n < |polls| && Render(polls[n], total) == Err(rep.end.error) &&
                  forall k :: 0 <= k < n ==> !Done(polls[k], total))
            && (rep.end == Polling ==>
                  n == |polls| && forall k :: 0 <= k < n ==> !Done(polls[k], total))
    decreases |polls|
  {
    if polls != [] && Render(polls[0], total).Ok? && !Done(polls[0], total) {
      TraceStopsAtFirstMatch(total, polls[1..]);
      var rest := Trace(total, polls[1..]);
      var rep := Trace(total, polls);
      assert |rep.frames| == 1 + |rest.frames|;
      assert rep.end == rest.end;
      forall k | 1 <= k < |polls|
        ensures polls[k] == polls[1..][k - 1]
      {
      }
    }
  }

  /**
   * When the total is above zero, every poll lies in `0..total` and some
   * poll reaches the total, the loop finishes, and its last line shows 100
   * percent and a full bar.
   */
  lemma TraceFinishes(total: int, polls: seq<int>, j: nat)
    requires total > 0
    requires forall k :: 0 <= k < |polls| ==> 0 <= polls[k] <= total
    requires j < |polls| && polls[j] == total
    ensures var rep := Trace(total, polls);
            && rep.end == Finished
            && PollsTaken(rep) <= j + 1
            && rep.frames[|rep.frames| - 1].percent == 100
            && rep.frames[|rep.frames| - 1].bar == Repeat('#', TotalBlocks)
  {
    TraceDrawsEachPoll(total, polls);
    TraceStopsAtFirstMatch(total, polls);
    var rep := Trace(total, polls);
    var n := |rep.frames|;
    if rep.end.Crashed? {
      PercentIsFloor(polls[n], total);
    }
    assert rep.end == Finished && j + 1 >= n;
    FullExactlyWhenDone(polls[n - 1], total);
    assert rep.frames[n - 1].bar == Repeat('#', TotalBlocks);
  }

  /**
   * One step of a loop that has drawn `frames` for the polls before `i`:
   * how the whole run continues from poll `i`.
   */
  lemma TraceStep(total: int, polls: seq<int>, i: nat, frames: seq<Frame>)
    requires i < |polls|
    requires Trace(total, polls) ==
             Report(frames + Trace(total, polls[i..]).frames, Trace(total, polls[i..]).end)
    ensures var line := Render(polls[i], total);
            && (line.Err? ==> Trace(total, polls) == Report(frames, Crashed(line.error)))
            && (line.Ok? && Done(polls[i], total) ==>
                  Trace(total, polls) == Report(frames + [line.value], Finished))
            && (line.Ok? && !Done(polls[i], total) ==>
                  Trace(total, polls) == Report((frames + [line.value]) + Trace(total, polls[i + 1..]).frames,
                                                Trace(total, polls[i + 1..]).end))
  {
    assert polls[i..][0] == polls[i] && polls[i..][1..] == polls[i + 1..];
    assert frames + [] == frames;
    var line := Render(polls[i], total);
    if line.Ok? && !Done(polls[i], total) {
      var rest := Trace(total, polls[i + 1..]);
      assert frames + ([line.value] + rest.frames) == (frames + [line.value]) + rest.frames;
    }
  }

  /** A loop that has drawn a line for every poll without finishing is still polling. */
  lemma TraceExhausted(total: int, polls: seq<int>, frames: seq<Frame>)
    requires Trace(total, polls) ==
             Report(frames + Trace(total, polls[|polls|..]).frames, Trace(total, polls[|polls|..]).end)
    ensures Trace(total, polls) == Report(frames, Polling)
  {
    assert polls[|polls|..] == [];
    assert frames + [] == frames;
  }

  /** A total of zero makes the very first line throw, before the exit test is reached. */
  lemma ZeroTotalCrashes(polls: seq<int>)
    requires polls != []
    ensures Trace(0, polls) == Report([], Crashed(DivideByZero))
  {
  }
}
