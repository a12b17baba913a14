# ConsoleHash in Dafny

ConsoleHash is a console tool. It walks a directory tree, hands the files to a
bounded number of parallel workers, and redraws a one-line progress bar until
every file is processed. This project models the sequential parts of that tool
and proves what they do:

- **The progress line** (`progress.dfy`, module `Progress`). `Program.ProgressBar`
  and `ProgressCounter.ProgressBar` contain the same code. It computes a whole
  percentage by truncating `processed / total * 100` (C# `decimal`, then an
  `(int)` cast). It fills one of 20 cells with `'#'` per whole 5 percent and the
  rest with `'-'`. It repeats until the polled count equals the total. `Render`
  draws one line, or gives the exception that drawing raises:
  - a total of 0 divides by zero;
  - a percentage outside `int` overflows the cast;
  - a negative cell count makes `new string` throw.
  `Trace` is the loop, given the values the count showed at successive polls.
- **`ProgressCounter`** (`progress_counter.dfy`). The static fields become one
  object with `current`, `target` and the state of the reporter `job`. `Start`,
  `Increase` and `Stop` are methods that update those fields. Starting,
  aborting and ending the reporter thread become changes of `job`. The `lock` in
  `Increase` survives only as the exception it raises when no job exists.
  `Increase` adds with `long` wrap-around (C# arithmetic is unchecked). The
  reporter loop is a method. It takes the amounts the workers add between two
  polls as its input.
- **Start-up in `Main`** (`program.dfy`, module `Program`):
  - The argument loop recognises `-h`, `-t` and `-d` in any case. `-t` and `-d`
    consume the next argument, and every other argument is skipped. The result
    is the settings, a stop for help, or a usage error.
  - The file collection keeps the enumerated files in order and drops the
    executable itself. It sets `TotalFiles` to the number kept.
  - The operating system's answers are parameters: the executable's directory
    and name, `Directory.Exists`, `int.Parse`, `Directory.GetFiles`,
    `Path.GetRelativePath` and `Path.GetFileName`.

Four behaviours of the code are easy to miss. The model follows the code:
- `Start` does not reset the count to 0. A second run keeps the count of the
  first (`RestartKeepsCount`).
- A count slightly above the target still draws a full bar. The percentage
  101 to 104 gives 20 cells and 0 dashes. The line throws only from 105 percent
  on (`RenderDefinedIff`).
- An empty file list is not handled. With `TotalFiles == 0`, the program's
  reporter divides by zero before it reaches its exit test (`ZeroTotalCrashes`).
- No exception is caught anywhere in `Main`.

## Model

| member | source | states |
|---|---|---|
| `Progress.TruncDiv` | ConsoleHash/Program.cs:112 | The `(int)` cast rounds toward zero: `Abs(q)*Abs(b) <= Abs(a) < (Abs(q)+1)*Abs(b)`, and a non-zero `q` is negative exactly when the signs of `a` and `b` differ |
| `Progress.Render` | ConsoleHash/Program.cs:110-123 | Drawing fails with a division by zero exactly when the total is 0. A drawn bar has exactly 20 cells: `filled` cells of `'#'`, then `'-'` |
| `Progress.PercentIsFloor` | ConsoleHash/Program.cs:112-114 | For `total > 0` and `0 <= processed <= total`, the line is drawn. Its percent is `floor(100*processed/total)`, between 0 and 100, and `filled == percent / 5` |
| `Progress.RenderDefinedIff` | ConsoleHash/ProgressCounter.cs:55-66 | For `target > 0`, the line is drawn if and only if `-5*target < 100*current < 105*target`. Otherwise a cell count is negative or the cast overflows |
| `Progress.FullExactlyWhenDone` | ConsoleHash/Program.cs:112-129 | For `0 <= processed <= total`, the percent is 100 if and only if `processed == total`, and the bar is full if and only if `processed == total` |
| `Progress.RenderMonotone` | ConsoleHash/Program.cs:112-114 | With the total fixed, a larger processed count never gives a smaller percent or fewer filled cells |
| `Progress.RenderOneOfThree` | ConsoleHash/Program.cs:112-123 | 1 of 3 gives 33 percent and six `'#'` then fourteen `'-'` |
| `Progress.RenderTenOfTwenty` | ConsoleHash/ProgressCounter.cs:55-66 | 10 of 20 gives 50 percent, ten `'#'` and ten `'-'` |
| `Progress.TraceDrawsEachPoll` | ConsoleHash/Program.cs:104-132 | The loop draws, in order, the line of each poll it takes, and takes no more polls than it is given |
| `Progress.TraceStopsAtFirstMatch` | ConsoleHash/Program.cs:104-132 | The loop finishes right after the first poll whose count equals the total. It ends at the first line that throws if that comes earlier. Otherwise every poll was drawn and it is still polling |
| `Progress.TraceFinishes` | ConsoleHash/ProgressCounter.cs:47-75 | If the total is above 0, every poll lies in `0..total` and some poll reaches the total, then the loop finishes by that poll on a line with 100 percent and 20 `'#'` |
| `Progress.ZeroTotalCrashes` | ConsoleHash/Program.cs:112-129 | With a total of 0, the first line throws a division by zero before the exit test |
| `ProgressCounter.Wrap64` | ConsoleHash/ProgressCounter.cs:35 | Unchecked `long` addition: the result fits a `long`, is congruent to the exact sum modulo 2^64, and equals it when it fits |
| `ProgressCounter.ProgressCounter.constructor` | ConsoleHash/ProgressCounter.cs:11-15 | Initially both counters are 0 and no job exists |
| `ProgressCounter.ProgressCounter.Start` | ConsoleHash/ProgressCounter.cs:17-30 | A running reporter is aborted first. Then `max <= 0` fails and leaves the target unchanged. Otherwise the target becomes `max` and a new job runs. The count never changes |
| `ProgressCounter.ProgressCounter.Increase` | ConsoleHash/ProgressCounter.cs:31-37 | With no job it fails and changes nothing. Otherwise it adds `step` (default 1) to the count with `long` wrap-around and changes nothing else |
| `ProgressCounter.ProgressCounter.Stop` | ConsoleHash/ProgressCounter.cs:38-43 | With no job it fails. A running job becomes aborted; a finished one stays as it is |
| `ProgressCounter.ProgressCounter.ProgressBar` | ConsoleHash/ProgressCounter.cs:45-77 | Its report is `Trace` of the target over the counts it polls. It never divides by zero. The count ends at the value of the last poll. The job ends exactly when the loop leaves |
| `ProgressCounter.IncreasesAddUp` | ConsoleHash/ProgressCounter.cs:31-37 | Successive `Increase` calls lose no update: the count ends at the start plus the sum of the steps, wrapped to a `long` |
| `ProgressCounter.UnitIncreases` | ConsoleHash/ProgressCounter.cs:31-37 | `n` calls of `Increase()` from `c` give `c + n` while that fits a `long` |
| `ProgressCounter.UnitRunFinishes` | ConsoleHash/ProgressCounter.cs:45-77 | From a count of 0 with one `Increase()` between polls, the reporter draws `target + 1` lines and finishes on 100 percent with a full bar |
| `ProgressCounter.RestartKeepsCount` | ConsoleHash/ProgressCounter.cs:17-30 | After `Start(5)`, five `Increase()` calls and `Start(3)`, the count is 5 against a target of 3, and drawing the line throws |
| `Program.Classify` | ConsoleHash/Program.cs:27-49 | An argument is the help, thread or directory switch if and only if it equals `-h`/`--help`, `-t`/`--thread` or `-d`/`--dir` up to the case of its letters |
| `Program.ParseArgs` | ConsoleHash/Program.cs:21-55 | The loop's result is the scan `Scan` of all arguments from the defaults: 2 threads and the executable's directory |
| `Program.ScanSkipsPlain` | ConsoleHash/Program.cs:24-55 | Arguments that are no switch leave the settings unchanged: if none follows, the scan ends with the settings it had |
| `Program.ScanDefaults` | ConsoleHash/Program.cs:19-21 | With no switch among the arguments, the program runs with 2 threads in its own directory |
| `Program.ScanKeepsSettingsValid` | ConsoleHash/Program.cs:43-53 | A scan that does not fail has a thread count above 0, and a root directory that is the starting one or exists |
| `Program.HelpIgnoresRest` | ConsoleHash/Program.cs:29-42 | Once `-h` stops the scan, arguments after it are never read: appending any arguments gives the same result |
| `Program.ThreadSwitchSets` | ConsoleHash/Program.cs:43-47 | `-t n` in any case, with `n > 0` and only non-switch arguments after it, ends the scan with `n` threads and the directory unchanged |
| `Program.DirectorySwitchSets` | ConsoleHash/Program.cs:48-53 | `-d path` in any case, naming an existing directory and with only non-switch arguments after it, ends the scan with `path` as the root and the thread count unchanged |
| `Program.ThreadCountRejected` | ConsoleHash/Program.cs:43-47 | A thread switch in any spelling (`-t`, `--thread`, any case) whose value does not parse fails with `NotANumber` of that text; one whose value is not above 0 fails with `NonPositiveThreads` of that number |
| `Program.DirectoryRejected` | ConsoleHash/Program.cs:48-53 | A directory switch in any spelling (`-d`, `--dir`, any case) naming no existing directory fails with `MissingDirectory` of that path |
| `Program.SwitchWithoutValue` | ConsoleHash/Program.cs:43-53 | A `-t` or `-d` that is the last argument reads past the end (`args[++i]`): the scan fails with `MissingValue` at the index one beyond the last argument |
| `Program.Program.constructor` | ConsoleHash/Program.cs:12 | Before `Main` runs, `TotalFiles` is 0 |
| `Program.Program.CollectFiles` | ConsoleHash/Program.cs:61-72 | The list is `Collected` of the enumerated files, and `TotalFiles` is set to its length |
| `Program.CollectedAppend` | ConsoleHash/Program.cs:62-69 | Enumeration order is kept: collecting a concatenation gives the concatenation of the collections |
| `Program.CollectedExactly` | ConsoleHash/Program.cs:62-68 | An entry is collected if and only if some enumerated file has a relative path other than the executable's name. The entry holds that relative path and the file's name |
| `Program.CollectedCount` | ConsoleHash/Program.cs:62-72 | `TotalFiles` plus the number of entries dropped as the executable equals the number of enumerated files |
| `Program.Program.Prepare` | ConsoleHash/Program.cs:15-72 | On help, `Main` stops with no work and `TotalFiles` unchanged. On a usage error it stops with that error and `TotalFiles` unchanged. Otherwise it collects the files under the chosen root and sets `TotalFiles` |
| `Program.Program.ProgressBar` | ConsoleHash/Program.cs:99-134 | Its report is `Trace` of `TotalFiles` over the polled `ProcessedCount` values. With no files, the first line throws a division by zero |

## Left out

- The parallel hashing loop (`Parallel.ForEach`) and its unsynchronised `ProcessedCount++` are not modelled. They are about concurrency, and the increment can lose updates. The values the reporter reads are an input (`polls`), so a run that lost updates shows up as a loop that is still polling.
- `Program.Program.ProgressBar`: the C# loop reads `ProcessedCount` twice in each pass, once for the line and once for the exit test. A concurrent worker can change it between the two reads. The model takes one poll per pass.
- `ProgressCounter.ProgressCounter.ProgressBar`: the C# loop reads `CurrentProgress` twice in each pass, once for the line and once for the exit test, without taking the lock that `Increase` takes. An `Increase` between the two reads can end the loop on a line below 100 percent. The model takes one read per pass (`Observed`), so `TraceFinishes` and `UnitRunFinishes` promise a final 100 percent line only for that one-read loop, not for the C# loop under a concurrent `Increase`.
- `ProgressCounter.Join` and its polling of `IsAlive` every 10 ms are not modelled. Waiting on a thread has no sequential meaning. Its only other effect is the null dereference when no job exists, which `Stop` already shows.
- `ProgressCounter.ProgressCounter.Stop`: on .NET Core and later, `Thread.Abort` throws `PlatformNotSupportedException`. The model treats the abort as ending the job, as the code intends. The stopwatch `sw` is not modelled.
- `ProgressCounter.ProgressCounter.Start` and `ProgressCounter.RestartKeepsCount`: `Start` reaches the same abort through its own `Stop()` call. On .NET Core, `Start` with a live reporter would therefore throw before the target is set. Both contracts assume the abort succeeds.
- Thread creation, `Thread.Sleep`, the `lock` itself, the stopwatch, `WaitToContinue`/`ReadLine`, and all console output are not modelled. This includes cursor moves and the formats `#,##0`, `P0` and `TimeSpan.ToString`. They are timing, interactive I/O or terminal rendering.
- `Progress.Render`: the percentage is the exact truncated quotient, and C#'s 28-digit `decimal` rounding is not modelled. For operands that fit a `long` the two agree. A whole `100*processed/total` is computed exactly. A fractional one lies at least `1/total` from the next whole number, and that gap is far larger than the rounding error, which is about `processed * 10^-28`.
- `Program.Classify`: upper-casing covers ASCII letters only. `ToUpper` depends on the current culture (for example, the Turkish dotted capital I), and culture is not modelled.
- `int.Parse`, `Directory.Exists`, `Directory.GetFiles`, `Path.GetRelativePath`, `Path.GetFileName` and `Process.GetCurrentProcess` are parameters. The model assumes that these calls return normally and places no constraint on their results. For example, it does not bound `parseInt`'s results to the `int` range.
- `Program.Program.Prepare`: exceptions from `Directory.GetFiles` are not modelled. It can throw on an unreadable subdirectory, or on a root removed after the `Directory.Exists` check. In the model, a successful argument scan always reaches `Ready`.
- How an unhandled exception ends the process is not modelled. The exceptions of the modelled code are returned as values (`Failed`, `Fail`, `Crashed`). The exceptions of the operating-system calls above are not.
- Hashing: the code computes no digest, so none is modelled.
