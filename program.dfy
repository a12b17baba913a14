/**
 * Start-up of the console program: the scan of the command-line arguments,
 * the collection of the files to hash, and the program's own copy of the
 * progress reporter.
 *
 * What the program asks of the operating system is given to the model:
 * the executable's directory and file name, `Directory.Exists` as
 * `dirExists`, `int.Parse` as `parseInt` (`None` where it throws),
 * `Directory.GetFiles` as `listFiles`, `Path.GetRelativePath` as
 * `relativePath` and `Path.GetFileName` as `fileName`.
 */
module Program {
  import opened Wrappers
  import opened Progress

  /** Number of files hashed at once when no `-t` is given. */
  const DefaultThreads: int := 2

  /** The settings the argument scan produces. */
  datatype Settings = Settings(threadCount: int, rootDir: string)

  /** The exceptions the argument scan raises. */
  datatype UsageError =
    | MissingValue(at: nat)          // `args[++i]` past the last argument
    | NotANumber(text: string)       // `int.Parse` throws
    | NonPositiveThreads(count: int) // "Thread Count must > 0"
    | MissingDirectory(path: string) // "... Directory not exists"

  /** How the argument scan ends. */
  datatype Startup =
    | Run(settings: Settings)   // all arguments read; the work goes ahead
    | Help(settings: Settings)  // `-h`: usage shown with these settings as defaults, then return
    | Failed(error: UsageError)

  /** The four kinds of argument the scan tells apart. */
  datatype Switch = HelpSwitch | ThreadSwitch | DirSwitch | Plain

  /** Upper-casing of one character (ASCII letters only). */
  function UpperChar(c: char): char {
    if 'a' <= c <= 'z' then (c as int - 32) as char else c
  }

  function Upper(s: string): (u: string)
    ensures |u| == |s|
    ensures forall k :: 0 <= k < |s| ==> u[k] == UpperChar(s[k])
  {
    seq(|s|, k requires 0 <= k < |s| => UpperChar(s[k]))
  }

  /** `a` and `b` differ at most in the case of their letters. */
  predicate SameIgnoringCase(a: string, b: string) {
    |a| == |b| && forall k :: 0 <= k < |a| ==> UpperChar(a[k]) == UpperChar(b[k])
  }

  /** Two strings are equal up to case exactly when their upper-case forms are equal. */
  lemma SameIgnoringCaseIff(a: string, b: string)
    ensures SameIgnoringCase(a, b) <==> Upper(a) == Upper(b)
  {
    if SameIgnoringCase(a, b) {
      assert forall k :: 0 <= k < |a| ==> Upper(a)[k] == Upper(b)[k];
    }
  }

  lemma ClassifyCases(arg: string)
    ensures SameIgnoringCase(arg, "-h") <==> Upper(arg) == "-H"
    ensures SameIgnoringCase(arg, "--help") <==> Upper(arg) == "--HELP"
    ensures SameIgnoringCase(arg, "-t") <==> Upper(arg) == "-T"
    ensures SameIgnoringCase(arg, "--thread") <==> Upper(arg) == "--THREAD"
    ensures SameIgnoringCase(arg, "-d") <==> Upper(arg) == "-D"
    ensures SameIgnoringCase(arg, "--dir") <==> Upper(arg) == "--DIR"
  {
    SameIgnoringCaseIff(arg, "-h");
    assert Upper("-h") == "-H";
    SameIgnoringCaseIff(arg, "--help");
    assert Upper("--help") == "--HELP";
    SameIgnoringCaseIff(arg, "-t");
    assert Upper("-t") == "-T";
    SameIgnoringCaseIff(arg, "--thread");
    assert Upper("--thread") == "--THREAD";
    SameIgnoringCaseIff(arg, "-d");
    assert Upper("-d") == "-D";
    SameIgnoringCaseIff(arg, "--dir");
    assert Upper("--dir") == "--DIR";
  }

  /** The `switch (arg.ToUpper())` of the scan: a switch is recognised in any mix of cases. */
  function Classify(arg: string): (s: Switch)
    ensures s == HelpSwitch <==> SameIgnoringCase(arg, "-h") || SameIgnoringCase(arg, "--help")
    ensures s == ThreadSwitch <==> SameIgnoringCase(arg, "-t") || SameIgnoringCase(arg, "--thread")
    ensures s == DirSwitch <==> SameIgnoringCase(arg, "-d") || SameIgnoringCase(arg, "--dir")
  {
    ClassifyCases(arg);
    var u := Upper(arg);
    if u == "-H" || u == "--HELP" then HelpSwitch
    else if u == "-T" || u == "--THREAD" then ThreadSwitch
    else if u == "-D" || u == "--DIR" then DirSwitch
    else Plain
  }

  /**
   * The scan from argument `i` on, with `s` the settings so far: `-h` stops,
   * `-t` and `-d` consume the next argument, anything else is skipped.
   */
  function Scan(args: seq<string>, i: nat, s: Settings,
                parseInt: string -> Option<int>, dirExists: string -> bool): Startup
    decreases |args| - i
  {
    if |args| <= i then Run(s)
    else
      match Classify(args[i])
      case HelpSwitch => Help(s)
      case ThreadSwitch =>
        if |args| <= i + 1 then Failed(MissingValue(i + 1))
        else
          match parseInt(args[i + 1]) {
            case None => Failed(NotANumber(args[i + 1]))
            case Some(n) =>
              if n <= 0 then Failed(NonPositiveThreads(n))
              else Scan(args, i + 2, s.(threadCount := n), parseInt, dirExists)
          }
      case DirSwitch =>
        if |args| <= i + 1 then Failed(MissingValue(i + 1))
        else if !dirExists(args[i + 1]) then Failed(MissingDirectory(args[i + 1]))
        else Scan(args, i + 2, s.(rootDir := args[i + 1]), parseInt, dirExists)
      case Plain => Scan(args, i + 1, s, parseInt, dirExists)
  }

  /** The argument loop of `Main`, from the defaults: two threads and the executable's directory. */
  method ParseArgs(args: seq<string>, exeDir: string,
                   parseInt: string -> Option<int>, dirExists: string -> bool)
    returns (r: Startup)
    ensures r == Scan(args, 0, Settings(DefaultThreads, exeDir), parseInt, dirExists)
  {
    var threadCount := DefaultThreads;
    var rootDir := exeDir;
    var i := 0;
    while i < |args|
      invariant 0 <= i <= |args|
      invariant Scan(args, 0, Settings(DefaultThreads, exeDir), parseInt, dirExists)
                == Scan(args, i, Settings(threadCount, rootDir), parseInt, dirExists)
      decreases |args| - i
    {
      match Classify(args[i]) {
      case HelpSwitch =>
        return Help(Settings(threadCount, rootDir));
      case ThreadSwitch =>
        i := i + 1;
        if |args| <= i {
          return Failed(MissingValue(i));
        }
        var parsed := parseInt(args[i]);
        if parsed.None? {
          return Failed(NotANumber(args[i]));
        }
        threadCount := parsed.value;
        if threadCount <= 0 {
          return Failed(NonPositiveThreads(threadCount));
        }
      case DirSwitch =>
        i := i + 1;
        if |args| <= i {
          return Failed(MissingValue(i));
        }
        var assignRootDir := args[i];
        if !dirExists(assignRootDir) {
          return Failed(MissingDirectory(assignRootDir));
        }
        rootDir := assignRootDir;
      case Plain =>
      }
      i := i + 1;
    }
    r := Run(Settings(threadCount, rootDir));
  }

  /** One file to hash: its path relative to the root directory, and its name. */
  datatype HashFile = HashFile(filePath: string, fileName: string)

  /**
   * The collection loop: each enumerated file, in order, except the one
   * whose path relative to the root is the executable's file name.
   */
  function Collected(files: seq<string>, rootDir: string, exeFileName: string,
                     relativePath: (string, string) -> string,
                     fileName: string -> string): seq<HashFile>
  {
    if files == [] then []
    else
      var earlier := Collected(files[..|files| - 1], rootDir, exeFileName, relativePath, fileName);
      var last := files[|files| - 1];
      var relative := relativePath(rootDir, last);
      if exeFileName == relative then earlier
      else earlier + [HashFile(relative, fileName(last))]
  }

  /** Number of enumerated files that the collection leaves out as the executable. */
  function ExeEntries(files: seq<string>, rootDir: string, exeFileName: string,
                      relativePath: (string, string) -> string): nat
  {
    if files == [] then 0
    else
      ExeEntries(files[..|files| - 1], rootDir, exeFileName, relativePath)
      + if exeFileName == relativePath(rootDir, files[|files| - 1]) then 1 else 0
  }

  /** How `Main` ends before the hashing starts. */
  datatype Launch =
    | NoWork(settings: Settings)                     // `-h`: usage shown, nothing hashed
    | Rejected(error: UsageError)                    // the scan threw
    | Ready(settings: Settings, files: seq<HashFile>) // the list to hash, `TotalFiles` set

  /** The static state of the `Program` class. */
  class Program {
    var totalFiles: int  // TotalFiles

    constructor ()
      ensures totalFiles == 0
    {
      totalFiles := 0;
    }

    /** Collects the files to hash, in enumeration order, and sets `TotalFiles` to their number. */
    method CollectFiles(rootDir: string, files: seq<string>, exeFileName: string,
                        relativePath: (string, string) -> string, fileName: string -> string)
      returns (hfs: seq<HashFile>)
      modifies this`totalFiles
      ensures hfs == Collected(files, rootDir, exeFileName, relativePath, fileName)
      ensures totalFiles == |hfs|
    {
      hfs := [];
      for i := 0 to |files|
        invariant hfs == Collected(files[..i], rootDir, exeFileName, relativePath, fileName)
      {
        assert files[..i + 1][..i] == files[..i];
        var relativeFilePath := relativePath(rootDir, files[i]);
        if exeFileName == relativeFilePath {
          continue;
        }
        hfs := hfs + [HashFile(relativeFilePath, fileName(files[i]))];
      }
      assert files[..|files|] == files;
      totalFiles := |hfs|;
    }

    /**
     * `Main` up to the start of the hashing: scan the arguments, stop on
     * `-h` or on a usage error, otherwise collect the files under the chosen
     * root directory.
     */
    method Prepare(args: seq<string>, exeDir: string, exeFileName: string,
                   parseInt: string -> Option<int>, dirExists: string -> bool,
                   listFiles: string -> seq<string>,
                   relativePath: (string, string) -> string, fileName: string -> string)
      returns (r: Launch)
      modifies this`totalFiles
      ensures match Scan(args, 0, Settings(DefaultThreads, exeDir), parseInt, dirExists)
              case Help(s) => r == NoWork(s) && totalFiles == old(totalFiles)
              case Failed(e) => r == Rejected(e) && totalFiles == old(totalFiles)
              case Run(s) =>
                && r == Ready(s, Collected(listFiles(s.rootDir), s.rootDir, exeFileName, relativePath, fileName))
                && totalFiles == |r.files|
    {
      var startup := ParseArgs(args, exeDir, parseInt, dirExists);
      match startup
      case Help(s) =>
        return NoWork(s);
      case Failed(e) =>
        return Rejected(e);
      case Run(s) =>
        var hfs := CollectFiles(s.rootDir, listFiles(s.rootDir), exeFileName, relativePath, fileName);
        return Ready(s, hfs);
    }

    /**
     * The program's reporter loop, given the values `ProcessedCount` showed
     * at its successive polls. An empty file list makes the first line
     * throw before the exit test is reached.
     */
    method ProgressBar(polls: seq<int>) returns (rep: Report)
      ensures rep == Trace(totalFiles, polls)
      ensures totalFiles == 0 && polls != [] ==> rep == Report([], Crashed(DivideByZero))
    {
      var frames: seq<Frame> := [];
      var i := 0;
      while i < |polls|
        invariant 0 <= i <= |polls| && |frames| == i
        invariant Trace(totalFiles, polls) ==
                  Report(frames + Trace(totalFiles, polls[i..]).frames, Trace(totalFiles, polls[i..]).end)
        decreases |polls| - i
      {
        TraceStep(totalFiles, polls, i, frames);
        var processedCount := polls[i];
        var line := Render(processedCount, totalFiles);
        if line.Err? {
          return Report(frames, Crashed(line.error));
        }
        frames := frames + [line.value];
        if Done(processedCount, totalFiles) {
          return Report(frames, Finished);
        }
        i := i + 1;
      }
      TraceExhausted(totalFiles, polls, frames);
      rep := Report(frames, Polling);
    }
  }

  // ---------------------------------------------------------------------------
  // Properties of the argument scan

  /** Arguments that are no switch are skipped: with none, the scan ends with the settings it had. */
  lemma {:induction false} ScanSkipsPlain(args: seq<string>, i: nat, s: Settings,
                                          parseInt: string -> Option<int>, dirExists: string -> bool)
    requires forall k :: i <= k < |args| ==> Classify(args[k]) == Plain
    ensures Scan(args, i, s, parseInt, dirExists) == Run(s)
    decreases |args| - i
  {
    if i < |args| {
      ScanSkipsPlain(args, i + 1, s, parseInt, dirExists);
    }
  }

  /** With no switch among the arguments, the program runs with two threads in its own directory. */
  lemma ScanDefaults(args: seq<string>, exeDir: string,
                     parseInt: string -> Option<int>, dirExists: string -> bool)
    requires forall k :: 0 <= k < |args| ==> Classify(args[k]) == Plain
    ensures Scan(args, 0, Settings(DefaultThreads, exeDir), parseInt, dirExists)
            == Run(Settings(2, exeDir))
  {
    ScanSkipsPlain(args, 0, Settings(DefaultThreads, exeDir), parseInt, dirExists);
  }

  /**
   * Whatever the arguments, a scan that does not fail has a thread count
   * above zero and a root directory that is the starting one or exists.
   */
  lemma {:induction false} ScanKeepsSettingsValid(args: seq<string>, i: nat, s: Settings,
                                                  parseInt: string -> Option<int>, dirExists: string -> bool)
    requires s.threadCount > 0
    ensures var r := Scan(args, i, s, parseInt, dirExists);
            !r.Failed? ==> r.settings.threadCount > 0 &&
                           (r.settings.rootDir == s.rootDir || dirExists(r.settings.rootDir))
    decreases |args| - i
  {
    if i < |args| {
      match Classify(args[i])
      case HelpSwitch =>
      case ThreadSwitch =>
        if i + 1 < |args| && parseInt(args[i + 1]).Some? && parseInt(args[i + 1]).value > 0 {
          ScanKeepsSettingsValid(args, i + 2, s.(threadCount := parseInt(args[i + 1]).value), parseInt, dirExists);
        }
      case DirSwitch =>
        if i + 1 < |args| && dirExists(args[i + 1]) {
          ScanKeepsSettingsValid(args, i + 2, s.(rootDir := args[i + 1]), parseInt, dirExists);
        }
      case Plain =>
        ScanKeepsSettingsValid(args, i + 1, s, parseInt, dirExists);
    }
  }

  /** A `-h` switch ends the scan: arguments after it are never read. */
  lemma {:induction false} HelpIgnoresRest(args: seq<string>, rest: seq<string>, i: nat, s: Settings,
                                           parseInt: string -> Option<int>, dirExists: string -> bool)
    requires Scan(args, i, s, parseInt, dirExists).Help?
    ensures Scan(args + rest, i, s, parseInt, dirExists) == Scan(args, i, s, parseInt, dirExists)
    decreases |args| - i
  {
    var all := args + rest;
    assert i < |args|;
    assert all[i] == args[i];
    match Classify(args[i])
    case HelpSwitch =>
    case ThreadSwitch =>
      assert all[i + 1] == args[i + 1];
      HelpIgnoresRest(args, rest, i + 2, s.(threadCount := parseInt(args[i + 1]).value), parseInt, dirExists);
    case DirSwitch =>
      assert all[i + 1] == args[i + 1];
      HelpIgnoresRest(args, rest, i + 2, s.(rootDir := args[i + 1]), parseInt, dirExists);
    case Plain =>
      HelpIgnoresRest(args, rest, i + 1, s, parseInt, dirExists);
  }

  /**
   * `-t n` (in any case) with `n > 0`, followed only by arguments that are no
   * switch, ends the scan with `n` threads and the directory unchanged.
   */
  lemma ThreadSwitchSets(args: seq<string>, i: nat, s: Settings, n: int,
                         parseInt: string -> Option<int>, dirExists: string -> bool)
    requires i + 1 < |args| && (SameIgnoringCase(args[i], "-t") || SameIgnoringCase(args[i], "--thread"))
    requires parseInt(args[i + 1]) == Some(n) && n > 0
    requires forall k :: i + 2 <= k < |args| ==> Classify(args[k]) == Plain
    ensures Scan(args, i, s, parseInt, dirExists) == Run(Settings(n, s.rootDir))
  {
    ScanSkipsPlain(args, i + 2, s.(threadCount := n), parseInt, dirExists);
  }

  /**
   * `-d path` (in any case) naming an existing directory, followed only by
   * arguments that are no switch, ends the scan with `path` as the root and
   * the thread count unchanged.
   */
  lemma DirectorySwitchSets(args: seq<string>, i: nat, s: Settings,
                            parseInt: string -> Option<int>, dirExists: string -> bool)
    requires i + 1 < |args| && (SameIgnoringCase(args[i], "-d") || SameIgnoringCase(args[i], "--dir"))
    requires dirExists(args[i + 1])
    requires forall k :: i + 2 <= k < |args| ==> Classify(args[k]) == Plain
    ensures Scan(args, i, s, parseInt, dirExists) == Run(Settings(s.threadCount, args[i + 1]))
  {
    ScanSkipsPlain(args, i + 2, s.(rootDir := args[i + 1]), parseInt, dirExists);
  }

  /**
   * A thread switch (in any spelling) whose value does not parse stops the
   * scan with that text; one that parses to a number not above zero stops it
   * with that number.
   */
  lemma ThreadCountRejected(args: seq<string>, i: nat, s: Settings,
                            parseInt: string -> Option<int>, dirExists: string -> bool)
    requires i + 1 < |args| && Classify(args[i]) == ThreadSwitch
    requires parseInt(args[i + 1]).Some? ==> parseInt(args[i + 1]).value <= 0
    ensures Scan(args, i, s, parseInt, dirExists)
            == if parseInt(args[i + 1]).None? then Failed(NotANumber(args[i + 1]))
               else Failed(NonPositiveThreads(parseInt(args[i + 1]).value))
  {
  }

  /** A directory switch (in any spelling) naming no existing directory stops the scan with that path. */
  lemma DirectoryRejected(args: seq<string>, i: nat, s: Settings,
                          parseInt: string -> Option<int>, dirExists: string -> bool)
    requires i + 1 < |args| && Classify(args[i]) == DirSwitch && !dirExists(args[i + 1])
    ensures Scan(args, i, s, parseInt, dirExists) == Failed(MissingDirectory(args[i + 1]))
  {
  }

  /**
   * A `-t` or `-d` with no argument after it reads past the end of the
   * arguments: the scan fails at the index one beyond the last argument.
   */
  lemma SwitchWithoutValue(args: seq<string>, s: Settings,
                           parseInt: string -> Option<int>, dirExists: string -> bool)
    requires |args| > 0 && Classify(args[|args| - 1]) in {ThreadSwitch, DirSwitch}
    ensures Scan(args, |args| - 1, s, parseInt, dirExists) == Failed(MissingValue(|args|))
  {
  }

  // ---------------------------------------------------------------------------
  // Properties of the file collection

  /** The collection keeps enumeration order: collecting a concatenation concatenates the collections. */
  lemma {:induction false} CollectedAppend(a: seq<string>, b: seq<string>, rootDir: string, exeFileName: string,
                                           relativePath: (string, string) -> string, fileName: string -> string)
    ensures Collected(a + b, rootDir, exeFileName, relativePath, fileName)
            == Collected(a, rootDir, exeFileName, relativePath, fileName)
               + Collected(b, rootDir, exeFileName, relativePath, fileName)
    decreases |b|
  {
    if b != [] {
      var b' := b[..|b| - 1];
      assert (a + b)[..|a + b| - 1] == a + b';
      assert (a + b)[|a + b| - 1] == b[|b| - 1];
      CollectedAppend(a, b', rootDir, exeFileName, relativePath, fileName);
    } else {
      assert a + b == a;
    }
  }

  /**
   * A file is collected exactly when some enumerated file has a relative
   * path other than the executable's name; its entry holds that relative
   * path and its file name.
   */
  lemma {:induction false} CollectedExactly(files: seq<string>, rootDir: string, exeFileName: string,
                                            relativePath: (string, string) -> string, fileName: string -> string,
                                            hf: HashFile)
    ensures hf in Collected(files, rootDir, exeFileName, relativePath, fileName)
            <==> exists k :: 0 <= k < |files| && relativePath(rootDir, files[k]) != exeFileName &&
                             hf == HashFile(relativePath(rootDir, files[k]), fileName(files[k]))
    decreases |files|
  {
    if files != [] {
      var init := files[..|files| - 1];
      CollectedExactly(init, rootDir, exeFileName, relativePath, fileName, hf);
      forall k | 0 <= k < |init|
        ensures init[k] == files[k]
      {
      }
    }
  }

  /** `TotalFiles` counts every enumerated file except those taken for the executable. */
  lemma {:induction false} CollectedCount(files: seq<string>, rootDir: string, exeFileName: string,
                                          relativePath: (string, string) -> string, fileName: string -> string)
    ensures |Collected(files, rootDir, exeFileName, relativePath, fileName)|
            + ExeEntries(files, rootDir, exeFileName, relativePath) == |files|
    decreases |files|
  {
    if files != [] {
      CollectedCount(files[..|files| - 1], rootDir, exeFileName, relativePath, fileName);
    }
  }
}
