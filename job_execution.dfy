/**
 * One job of the batch: an immutable command line and id, and the
 * execution state that `start` moves from NONE to RUNNING and on to
 * COMPLETED or FAILED.
 *
 * Spawning the process and waiting for it are outside the model: what the
 * operating system does with one spawn is an input (`RunOutcome`), as are
 * the clock readings and the lines the process writes. The batch counters
 * that a finished job bumps are an abstract success/failure pair.
 */
module JobExecutions {
  import opened JavaLang
  import Utils

  /** The exit code a job keeps until its process has terminated. */
  const MinusFortyTwo: int := -42

  datatype JobStatus = None | Running | Failed | Completed

  /** The batch's success and failure counters, as a job sees them. */
  datatype Counters = Counters(success: int, failed: int)

  /** The number of jobs the counters account for. */
  function Total(c: Counters): int {
    c.success + c.failed
  }

  /** What the operating system does with one attempt to run the command. */
  datatype RunOutcome =
    | SpawnFails            // `ProcessBuilder.start` throws an IOException
    | WaitInterrupted       // `waitFor` throws an InterruptedException
    | Exits(exitCode: int)  // `waitFor` returns the exit code

  /** The `process` field: null, or a spawned process that may have been asked to terminate. */
  datatype ProcessHandle = NoProcess | Spawned(destroyRequested: bool)

  /** The mutable fields of a job record. */
  datatype JobState = JobState(
    startDate: Nullable<int>,
    endDate: Nullable<int>,
    status: JobStatus,
    exitCode: int,
    process: ProcessHandle)

  /** The fields of a job record that has just been created. */
  const Fresh: JobState := JobState(Null, Null, None, MinusFortyTwo, NoProcess)

  /**
   * `start()` and the `run()` it calls, as a function of the state before
   * the call: the new state and the counters afterwards. A job that is not
   * in NONE is left alone. Otherwise the start date is recorded; a spawn
   * that fails leaves everything else as it was, an interrupted wait leaves
   * the job RUNNING, and an exit records the end date and the exit code and
   * classifies the job, bumping exactly one counter.
   */
  function StartSpec(st: JobState, outcome: RunOutcome, now: int, later: int, counters: Counters): (JobState, Counters) {
    if st.status != None then (st, counters)
    else
      var begun := st.(startDate := NonNull(now));
      match outcome
      case SpawnFails => (begun, counters)
      case WaitInterrupted => (begun.(process := Spawned(false), status := Running), counters)
      case Exits(code) =>
        var ended := begun.(process := Spawned(false), exitCode := code, endDate := NonNull(later));
        if code == 0 then (ended.(status := Completed), counters.(success := counters.success + 1))
        else (ended.(status := Failed), counters.(failed := counters.failed + 1))
  }

  predicate IsTerminal(s: JobStatus) {
    s == Completed || s == Failed
  }

  /** How far along NONE -> RUNNING -> {FAILED, COMPLETED} a status is. */
  function Rank(s: JobStatus): nat {
    match s
    case None => 0
    case Running => 1
    case Failed => 2
    case Completed => 2
  }

  /**
   * What the fields of a job record say about each other in every state
   * the record can reach: the sentinel exit code until the process has
   * exited, a recorded end date exactly for a finished job, an exit code
   * of 0 exactly for a completed one.
   */
  predicate Consistent(st: JobState) {
    && (st.status == None ==> st.endDate == Null && st.exitCode == MinusFortyTwo && st.process == NoProcess)
    && (st.status == Running ==> st.startDate.NonNull? && st.endDate == Null && st.exitCode == MinusFortyTwo && st.process.Spawned?)
    && (st.status == Completed ==> st.startDate.NonNull? && st.endDate.NonNull? && st.exitCode == 0 && st.process.Spawned?)
    && (st.status == Failed ==> st.startDate.NonNull? && st.endDate.NonNull? && st.exitCode != 0 && st.process.Spawned?)
  }

  /** A fresh record is consistent; `start` keeps it so and never moves the status backwards. */
  lemma StartKeepsConsistent(st: JobState, outcome: RunOutcome, now: int, later: int, counters: Counters)
    requires Consistent(st)
    ensures Consistent(Fresh)
    ensures var (st', _) := StartSpec(st, outcome, now, later, counters);
      Consistent(st') && Rank(st.status) <= Rank(st'.status)
  {
  }

  /**
   * The outcome of a run that reaches process exit: exit code 0 completes
   * the job and adds one success, any other code fails it and adds one
   * failure; the other counter stays as it was.
   */
  lemma ExitClassifies(st: JobState, code: int, now: int, later: int, counters: Counters)
    requires st.status == None
    ensures var (st', c') := StartSpec(st, Exits(code), now, later, counters);
      && st'.exitCode == code && st'.endDate == NonNull(later) && st'.startDate == NonNull(now)
      && (code == 0 <==> st'.status == Completed)
      && (code != 0 <==> st'.status == Failed)
      && (code == 0 ==> c' == Counters(counters.success + 1, counters.failed))
      && (code != 0 ==> c' == Counters(counters.success, counters.failed + 1))
  {
  }

  /** The outcome of one `start` call after another, threading the counters through. */
  function Replay(st: JobState, outcomes: seq<RunOutcome>, times: int -> (int, int), counters: Counters): (JobState, Counters)
    decreases |outcomes|
  {
    if outcomes == [] then (st, counters)
    else
      var (st', c') := Replay(st, outcomes[..|outcomes| - 1], times, counters);
      StartSpec(st', outcomes[|outcomes| - 1], times(|outcomes| - 1).0, times(|outcomes| - 1).1, c')
  }

  /**
   * However many times `start` is called on one record and whatever each
   * attempt meets, the counters go up by one exactly when the job ends in a
   * terminal status it did not have before, and never by more: a job is
   * counted at most once.
   */
  lemma {:induction false} CountedAtMostOnce(st: JobState, outcomes: seq<RunOutcome>, times: int -> (int, int), counters: Counters)
    requires Consistent(st)
    ensures var (st', c') := Replay(st, outcomes, times, counters);
      && Consistent(st')
      && Rank(st.status) <= Rank(st'.status)
      && c'.success >= counters.success && c'.failed >= counters.failed
      && Total(c') == Total(counters) + (if IsTerminal(st'.status) && !IsTerminal(st.status) then 1 else 0)
    decreases |outcomes|
  {
    if outcomes != [] {
      var n := |outcomes| - 1;
      CountedAtMostOnce(st, outcomes[..n], times, counters);
      var (mid, cm) := Replay(st, outcomes[..n], times, counters);
      StartKeepsConsistent(mid, outcomes[n], times(n).0, times(n).1, cm);
    }
  }

  /** Once an attempt has spawned the process, every later `start` is a no-op. */
  lemma {:induction false} NoSecondRun(st: JobState, outcomes: seq<RunOutcome>, times: int -> (int, int), counters: Counters)
    requires st.status != None
    ensures Replay(st, outcomes, times, counters) == (st, counters)
    decreases |outcomes|
  {
    if outcomes != [] {
      var n := |outcomes| - 1;
      NoSecondRun(st, outcomes[..n], times, counters);
      assert Replay(st, outcomes, times, counters)
          == StartSpec(st, outcomes[n], times(n).0, times(n).1, counters);
    }
  }

  /** The concatenation of the lines a reader returned, with no separator. */
  function Concat(lines: seq<string>): string {
    if lines == [] then "" else Concat(lines[..|lines| - 1]) + lines[|lines| - 1]
  }

  /** Characters allowed in the command part of a log file name: `[a-zA-Z_-]`. */
  predicate IsFileSafe(c: char) {
    ('a' <= c <= 'z') || ('A' <= c <= 'Z') || c == '_' || c == '-'
  }

  /** A string made of `[a-zA-Z_-]` only. */
  predicate AllFileSafe(s: string) {
    forall k :: 0 <= k < |s| ==> IsFileSafe(s[k])
  }

  /** `cmdLine.replaceAll("[^a-zA-Z_-]", "-")`. */
  function Sanitize(s: string): (r: string)
    ensures |r| == |s|
    ensures forall k :: 0 <= k < |s| ==> r[k] == (if IsFileSafe(s[k]) then s[k] else '-')
  {
    if s == [] then [] else [if IsFileSafe(s[0]) then s[0] else '-'] + Sanitize(s[1..])
  }

  /** A sanitised command is made of safe characters only; sanitising twice changes nothing more. */
  lemma SanitizeIsSafeAndIdempotent(s: string)
    ensures AllFileSafe(Sanitize(s))
    ensures Sanitize(Sanitize(s)) == Sanitize(s)
  {
  }

  /** A sanitised command is made of safe characters only. */
  lemma SanitizeIsSafe(s: string)
    ensures AllFileSafe(Sanitize(s))
  {
  }

  /** Sanitising leaves a command alone exactly when all its characters are safe. */
  lemma SanitizeFixesExactlySafe(s: string)
    ensures Sanitize(s) == s <==> AllFileSafe(s)
  {
    if Sanitize(s) == s {
      forall k | 0 <= k < |s| ensures IsFileSafe(s[k]) {
        assert Sanitize(s)[k] == s[k];
      }
    }
  }

  /** Sanitising works character by character, so it distributes over concatenation. */
  lemma {:induction false} SanitizeAppend(a: string, b: string)
    ensures Sanitize(a + b) == Sanitize(a) + Sanitize(b)
    decreases |a|
  {
    if a == [] {
      assert a + b == b;
    } else {
      assert (a + b)[0] == a[0] && (a + b)[1..] == a[1..] + b;
      SanitizeAppend(a[1..], b);
    }
  }

  /** Appending safe characters appends them unchanged. */
  lemma SanitizeAppendSafe(p: string, w: string)
    requires AllFileSafe(w)
    ensures Sanitize(p + w) == Sanitize(p) + w
  {
    SanitizeFixesExactlySafe(w);
    SanitizeAppend(p, w);
  }

  /** Appending a character outside `[a-zA-Z_-]` appends a dash. */
  lemma SanitizeAppendUnsafe(p: string, c: char)
    requires !IsFileSafe(c)
    ensures Sanitize(p + [c]) == Sanitize(p) + "-"
  {
    SanitizeAppend(p, [c]);
  }

  /**
   * A command such as `nslookup google.fr` (a tool, a blank, a host name, a
   * dot, a domain, all made of safe characters) becomes `nslookup-google-fr`.
   */
  lemma SanitizeCommandWithHost(tool: string, host: string, domain: string)
    requires AllFileSafe(tool) && AllFileSafe(host) && AllFileSafe(domain)
    ensures Sanitize(tool + " " + host + "." + domain) == tool + "-" + host + "-" + domain
  {
    var withBlank := tool + " ";
    var withHost := withBlank + host;
    var withDot := withHost + ".";
    SanitizeFixesExactlySafe(tool);
    SanitizeAppendUnsafe(tool, ' ');
    SanitizeAppendSafe(withBlank, host);
    SanitizeAppendUnsafe(withHost, '.');
    SanitizeAppendSafe(withDot, domain);
  }

  /**
   * `buildLogFilename`: `<dir><separator>batchid-<batchId>_jobid-<jobId>_<timestamp>_<command>.log`
   * with the command sanitised. The timestamp is the `yyyyMMdd-HHmmssSS`
   * rendering of the current time and the separator is `File.separator`.
   * The name after the separator is grouped at its `_` separators.
   */
  function BuildLogFilename(jobId: int, cmdLine: string, dirName: string, separator: string,
                            batchId: Nullable<string>, timestamp: string): (r: string)
    ensures |r| >= |dirName| + |separator| + |cmdLine| + 4
    ensures r[..|dirName| + |separator|] == dirName + separator
    ensures r[|r| - 4..] == ".log"
    ensures r[|r| - 4 - |cmdLine|..|r| - 4] == Sanitize(cmdLine)
    ensures AllFileSafe(r[|r| - 4 - |cmdLine|..|r| - 4])
  {
    var command := Sanitize(cmdLine);
    SanitizeIsSafe(cmdLine);
    LogFilenameOf(dirName + separator, StringValueOf(batchId), IntToString(jobId), timestamp, command, |cmdLine|);
    dirName + separator + LogName(StringValueOf(batchId), IntToString(jobId), timestamp, command)
  }

  /** The shape of a log-file name, whatever the texts of its fields; `n` is the command's length. */
  lemma LogFilenameOf(head: string, batch: string, job: string, timestamp: string, command: string, n: nat)
    requires |command| == n
    ensures var r := head + LogName(batch, job, timestamp, command);
      && |r| >= |head| + n + 4
      && r[..|head|] == head
      && r[|r| - 4..] == ".log"
      && r[|r| - 4 - n..|r| - 4] == command
  {
    LogFilenameShape(head, LogName(batch, job, timestamp, command), command);
  }

  /** Putting a directory before a name that ends in the command and `.log`. */
  lemma LogFilenameShape(head: string, name: string, command: string)
    requires |name| >= |command| + 4 && name[|name| - 4..] == ".log"
    requires name[|name| - 4 - |command|..|name| - 4] == command
    ensures var r := head + name;
      && |r| >= |head| + |command| + 4
      && r[..|head|] == head
      && r[|r| - 4..] == ".log"
      && r[|r| - 4 - |command|..|r| - 4] == command
  {
    var r := head + name;
    assert r[..|head|] == head;
    assert r[|r| - 4..] == name[|name| - 4..];
    assert r[|r| - 4 - |command|..|r| - 4] == name[|name| - 4 - |command|..|name| - 4];
  }

  /** The log-file name after the separator, from the texts of its four fields. */
  function LogName(batch: string, job: string, timestamp: string, command: string): (n: string)
    ensures |n| >= |command| + 4
    ensures n[|n| - 4..] == ".log"
    ensures n[|n| - 4 - |command|..|n| - 4] == command
  {
    var afterJob := timestamp + "_" + command;
    var core := batch + "_" + ("jobid-" + (job + "_" + afterJob));
    assert afterJob[|afterJob| - |command|..] == command;
    assert core[|core| - |afterJob|..] == afterJob;
    var n := "batchid-" + core + ".log";
    assert n[|n| - 4 - |core|..|n| - 4] == core;
    n
  }

  /** The fields a log-file name carries after its directory. */
  datatype LogNameFields = LogNameFields(batchId: string, jobId: int, timestamp: string, command: string)

  /**
   * Reading a log-file name, without its directory, back into its fields:
   * `batchid-`, the batch id up to the first `_`, `jobid-`, the job id up
   * to the next `_`, the timestamp up to the next `_`, and the command up to
   * the final `.log`.
   */
  function ReadLogName(name: string): Utils.Reading<LogNameFields> {
    if |name| < 12 || name[..8] != "batchid-" || name[|name| - 4..] != ".log" then Utils.Unreadable
    else
      match Utils.CutAt(name[8..|name| - 4], '_')
      case Unreadable => Utils.Unreadable
      case Read((batch, afterBatch)) =>
        if |afterBatch| < 6 || afterBatch[..6] != "jobid-" then Utils.Unreadable
        else
          match Utils.CutAt(afterBatch[6..], '_')
          case Unreadable => Utils.Unreadable
          case Read((job, afterJob)) =>
            if !IsDecimal(job) then Utils.Unreadable
            else
              match Utils.CutAt(afterJob, '_')
              case Unreadable => Utils.Unreadable
              case Read((stamp, command)) => Utils.Read(LogNameFields(batch, ParseDecimal(job), stamp, command))
  }

  /**
   * When neither the batch id nor the timestamp holds a `_` (a hexadecimal
   * hash or `null`, and `yyyyMMdd-HHmmssSS`), the log-file name reads back as
   * the batch id, the job id, the timestamp and the sanitised command.
   */
  lemma LogFilenameReadsBack(jobId: int, cmdLine: string, dirName: string, separator: string,
                             batchId: Nullable<string>, timestamp: string)
    requires '_' !in StringValueOf(batchId) && '_' !in timestamp
    ensures var r := BuildLogFilename(jobId, cmdLine, dirName, separator, batchId, timestamp);
      ReadLogName(r[|dirName| + |separator|..])
        == Utils.Read(LogNameFields(StringValueOf(batchId), jobId, timestamp, Sanitize(cmdLine)))
  {
    var head := dirName + separator;
    var name := LogName(StringValueOf(batchId), IntToString(jobId), timestamp, Sanitize(cmdLine));
    assert (head + name)[|head|..] == name;
    IntToStringRoundTrip(jobId);
    ReadLogNameOf(StringValueOf(batchId), IntToString(jobId), timestamp, Sanitize(cmdLine));
  }

  /** The reader gives back the four fields a name was built from. */
  lemma ReadLogNameOf(batch: string, job: string, timestamp: string, command: string)
    requires '_' !in batch && '_' !in timestamp && IsDecimal(job)
    ensures ReadLogName(LogName(batch, job, timestamp, command))
      == Utils.Read(LogNameFields(batch, ParseDecimal(job), timestamp, command))
  {
    var afterJob := timestamp + "_" + command;
    var afterBatch := "jobid-" + (job + "_" + afterJob);
    var core := batch + "_" + afterBatch;
    var name := LogName(batch, job, timestamp, command);
    assert name == "batchid-" + core + ".log";
    assert name[..8] == "batchid-" && name[|name| - 4..] == ".log" && name[8..|name| - 4] == core;
    Utils.CutAtJoin(batch, '_', afterBatch);
    assert afterBatch[..6] == "jobid-" && afterBatch[6..] == job + "_" + afterJob;
    DecimalAvoids(job, '_');
    Utils.CutAtJoin(job, '_', afterJob);
    Utils.CutAtJoin(timestamp, '_', command);
  }

  class JobExecution {
    const commandLine: string
    const id: int
    var startDate: Nullable<int>
    var endDate: Nullable<int>
    var status: JobStatus
    var exitCode: int
    var process: ProcessHandle

    /** The mutable fields, as a value. */
    function State(): JobState
      reads this
    {
      JobState(startDate, endDate, status, exitCode, process)
    }

    /** A new job: status NONE, no dates, exit code -42, no process. */
    constructor (commandLine: string, id: int)
      ensures this.commandLine == commandLine && this.id == id
      ensures State() == Fresh && Consistent(State())
    {
      this.commandLine := commandLine;
      this.id := id;
      startDate := Null;
      endDate := Null;
      status := None;
      exitCode := MinusFortyTwo;
      process := NoProcess;
    }

    /**
     * `start()`: runs the job only when its status is NONE; otherwise the
     * source logs a warning and nothing changes. `now` and `later` are the
     * clock readings before the spawn and after the exit. `escapes` tells
     * that an exception left the call (see `Run`).
     */
    method Start(outcome: RunOutcome, now: int, later: int, counters: Counters) returns (after: Counters, escapes: bool)
      modifies this
      ensures escapes <==> old(status) == None && Utils.Tokens(commandLine) == []
      ensures (State(), after) == StartSpec(old(State()), if escapes then SpawnFails else outcome, now, later, counters)
      ensures old(status) != None ==> unchanged(this) && after == counters
    {
      if status == None {
        after, escapes := Run(outcome, now, later, counters);
      } else {
        after, escapes := counters, false;
      }
    }

    /**
     * `run()`: record the start, build the argument vector, spawn, wait,
     * classify the exit code. A command line of nothing but whitespace gives
     * an empty argument vector, on which `ProcessBuilder.start` throws an
     * `IndexOutOfBoundsException` that neither catch clause takes: it leaves
     * `run()` and `start()` with only the start date recorded, the same state
     * a failed spawn leaves.
     */
    method Run(outcome: RunOutcome, now: int, later: int, counters: Counters) returns (after: Counters, escapes: bool)
      requires status == None
      modifies this
      ensures escapes <==> Utils.Tokens(commandLine) == []
      ensures escapes <==> forall k :: 0 <= k < |commandLine| ==> IsRegexSpace(commandLine[k])
      ensures (State(), after) == StartSpec(old(State()), if escapes then SpawnFails else outcome, now, later, counters)
    {
      startDate := NonNull(now);
      after := counters;
      var argv := Utils.ParseCommandLineToStringArray(commandLine);
      Utils.NoTokensIffBlank(commandLine);
      escapes := argv == [];
      if escapes {
        return;
      }
      match outcome {
        case SpawnFails =>
          // the IOException is logged; nothing else changes
        case WaitInterrupted =>
          process := Spawned(false);
          status := Running;
          // the InterruptedException is logged; the job stays RUNNING
        case Exits(code) =>
          process := Spawned(false);
          status := Running;
          exitCode := code;
          endDate := NonNull(later);
          if exitCode == 0 {
            status := Completed;
            after := after.(success := after.success + 1);
          } else {
            status := Failed;
            after := after.(failed := after.failed + 1);
          }
      }
    }

    /** `destroy()`: asks a spawned process to terminate; without a process it does nothing. */
    method Destroy()
      modifies this`process
      ensures old(process) == NoProcess ==> process == NoProcess
      ensures old(process).Spawned? ==> process == Spawned(true)
    {
      if process.Spawned? {
        process := Spawned(true);
      }
    }

    /** `getStartDate()`: a copy with the same time; dereferences null when no start date was recorded. */
    function GetStartDate(): (r: Outcome<int>)
      reads this
      ensures r.Returns? <==> startDate.NonNull?
      ensures r.Returns? ==> r.value == startDate.value
    {
      if startDate.Null? then ThrowsNullPointer else Returns(startDate.value)
    }

    /** `getEndDate()`: a copy with the same time; dereferences null when no end date was recorded. */
    function GetEndDate(): (r: Outcome<int>)
      reads this
      ensures r.Returns? <==> endDate.NonNull?
      ensures r.Returns? ==> r.value == endDate.value
    {
      if endDate.Null? then ThrowsNullPointer else Returns(endDate.value)
    }

    /**
     * `getProcessOutput`: the lines the process wrote, concatenated, after
     * the prefix `JobId: <id> - STDOUT: `; the empty string when those lines
     * hold nothing but characters `trim` removes.
     */
    method ProcessOutput(lines: seq<string>) returns (r: string)
      ensures IsBlank(Concat(lines)) ==> r == ""
      ensures !IsBlank(Concat(lines)) ==> r == "JobId: " + IntToString(id) + " - STDOUT: " + Concat(lines)
    {
      var sbResult := "JobId: " + IntToString(id) + " - STDOUT: ";
      var sbLine := "";
      var i := 0;
      while i < |lines|
        invariant 0 <= i <= |lines|
        invariant sbLine == Concat(lines[..i])
      {
        assert lines[..i + 1][..i] == lines[..i];
        sbLine := sbLine + lines[i];
        i := i + 1;
      }
      assert lines[..|lines|] == lines;
      TrimEmptyIffBlank(sbLine);
      if |Trim(sbLine)| > 0 {
        r := sbResult + sbLine;
      } else {
        r := "";
      }
    }
  }
}
