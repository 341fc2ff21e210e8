# Shell task pool — a Dafny model of its sequential core

The shell task pool reads a list of shell command lines and runs them in
parallel as one *batch*. Each command becomes a *job*. A job is spawned
once, waited for, and classified by its exit code. The batch counts its
successes and failures and derives its final status from them.

This project models the sequential logic under the thread pool:

- `batch.dfy`, module `Batches`: the batch record as a class (`Batch`).
  It covers the set-once name and id, the start and end dates, the status
  machine, the success and failure counters, and the job list with its
  sequential ids. It also holds the pure classification of the final
  status (`Classify`). Lemmas connect that status to the exit codes of the
  jobs.
- `job_execution.dfy`, module `JobExecutions`: the job record as a class
  (`JobExecution`). `start`/`run` are a method proved against one state
  function, `StartSpec`. The module also holds the process-output summary
  and the log-file name with its sanitiser.
- `utils.dfy`, module `Utils`: `getSpace`, the `HH:MM:SS` duration
  between two dates, and the command-line tokenizer. The tokenizer is a
  hand-written scanner that behaves like `Matcher.find` on
  `("[^"]*?"|'[^']*?'|\S+)`.
- `java_lang.dfy`, module `JavaLang`: the Java behaviour the core relies
  on, stated for a locale whose digits are the ASCII digits, with strings
  as sequences of code points:
  - null references;
  - truncating `/` and `%`;
  - `String.valueOf` of an integer;
  - `%02d`;
  - `String.trim`;
  - the regex class `\s`.

Dates are integer milliseconds. Three things the program gets from the
outside are parameters or inputs instead:

- the result of spawning and waiting for a process (`RunOutcome`);
- the clock readings;
- the lines a process writes.

The batch id hash is a function value the batch is constructed with.

Three behaviours of the code are worth stating outright, since a reader
might expect otherwise:

- The tokenizer keeps the quotes around a quoted token: each token is
  `m.group(1)` of the whole alternative `("[^"]*?"|'[^']*?'|\S+)`, quotes
  included (`Utils.java:107`, `Utils.java:110-111`).
- When spawning throws an `IOException`, the job is left in NONE with only
  its start date set and no counter bumped: the catch clause only logs
  (`JobExecution.java:110-111`).
- A negative failure counter (reachable only through `setJobFailed`)
  classifies the batch as FAILED even when there are successes, because
  the last branch of `setBatchStatusFromSuccessFailed` catches every case
  the first two miss (`Batch.java:101-112`).

## Model

| member | source | states |
|---|---|---|
| Batches.Classify | src/main/java/org/christiankakesa/applications/java/shelltaskpool/Batch.java:101-112 | The final status is always terminal. It is COMPLETED iff failed = 0 and success ≥ 1. It is COMPLETED_WITH_ERROR iff failed > 0 and success ≥ 1. It is FAILED iff success < 1 or failed < 0. |
| Batches.ClassifyExamples | src/main/java/org/christiankakesa/applications/java/shelltaskpool/Batch.java:101-112 | 3/0 completes, 2/1 completes with error, 0/3 and 0/0 fail. |
| Batches.TallyCountsExitCodes | src/main/java/org/christiankakesa/applications/java/shelltaskpool/JobExecution.java:90-98 | After every job of a batch runs once to exit, the success counter is the number of zero exit codes and the failure counter the number of the others. |
| Batches.FinalStatusFromExitCodes | src/main/java/org/christiankakesa/applications/java/shelltaskpool/Batch.java:101-112 | For jobs that all ran to exit: COMPLETED iff there is a job and every exit code is 0. COMPLETED_WITH_ERROR iff some code is 0 and some is not. FAILED iff no code is 0. |
| Batches.ZerosCounts | src/main/java/org/christiankakesa/applications/java/shelltaskpool/JobExecution.java:92-98 | The count of zero exit codes is 0 iff no code is 0, and the whole length iff every code is 0. |
| Batches.Batch.constructor | src/main/java/org/christiankakesa/applications/java/shelltaskpool/Batch.java:21-30 | A new batch: no name, no id, no dates, status NONE, all three counters 0, empty job list, and the job-id invariant holds. |
| Batches.Batch.SetBatchName | src/main/java/org/christiankakesa/applications/java/shelltaskpool/Batch.java:43-52 | A null name, or any name once one is set, changes neither name nor id. The first non-null name sets the name, and the id becomes the hash of that name. |
| Batches.Batch.SetBatchStartDate | src/main/java/org/christiankakesa/applications/java/shelltaskpool/Batch.java:62-65 | Status becomes STARTED, the start date is recorded, and nothing else changes. |
| Batches.Batch.SetBatchEndDate | src/main/java/org/christiankakesa/applications/java/shelltaskpool/Batch.java:71-74 | The end date is recorded. The status becomes the terminal status `Classify` gives for the current counters, which stay as they are. |
| Batches.Batch.SetBatchStatus | src/main/java/org/christiankakesa/applications/java/shelltaskpool/Batch.java:92-94 | Only the status changes, to the given one. |
| Batches.Batch.SetBatchStatusFromSuccessFailed | src/main/java/org/christiankakesa/applications/java/shelltaskpool/Batch.java:101-112 | The status becomes `Classify(jobSuccess, jobFailed)`; the counters are not in the frame. |
| Batches.Batch.BatchDuration | src/main/java/org/christiankakesa/applications/java/shelltaskpool/Batch.java:83-86 | `00:00:00` while either date is missing; otherwise the duration from start to end. |
| Batches.Batch.SetJobSuccess | src/main/java/org/christiankakesa/applications/java/shelltaskpool/Batch.java:118-120 | Only the success counter changes, to the given value. |
| Batches.Batch.IncrementJobSuccess | src/main/java/org/christiankakesa/applications/java/shelltaskpool/Batch.java:122-126 | The success counter rises by exactly 1. The failure counter, the job counter, the list and the status are outside the frame. |
| Batches.Batch.SetJobFailed | src/main/java/org/christiankakesa/applications/java/shelltaskpool/Batch.java:132-134 | Only the failure counter changes, to the given value. |
| Batches.Batch.IncrementJobFailed | src/main/java/org/christiankakesa/applications/java/shelltaskpool/Batch.java:136-140 | The failure counter rises by exactly 1 and nothing else changes. |
| Batches.Batch.AddJobToExecute | src/main/java/org/christiankakesa/applications/java/shelltaskpool/Batch.java:146-156 | The job is appended at the end of the list, the job counter rises by 1, and the job's id is the new counter value. The status becomes RUNNING exactly when the list size becomes 1 and is unchanged otherwise. The invariant "the k-th job has id k" is kept. |
| Batches.IdsIncrease | src/main/java/org/christiankakesa/applications/java/shelltaskpool/Batch.java:146-156 | In a batch that keeps its invariant, job ids strictly increase in submission order, and no job appears twice. |
| JobExecutions.JobExecution.constructor | src/main/java/org/christiankakesa/applications/java/shelltaskpool/JobExecution.java:48-66 | A new job keeps its command line and id. Its status is NONE, its exit code is -42, it has no dates and no process, and its state is consistent. |
| JobExecutions.JobExecution.Start | src/main/java/org/christiankakesa/applications/java/shelltaskpool/JobExecution.java:68-76 | A job not in NONE is left entirely unchanged, and the counters too, and nothing escapes. From NONE the call behaves as `Run`: the new state and counters are `StartSpec` of the old state, and an exception escapes exactly when the command line gives no tokens. |
| JobExecutions.JobExecution.Run | src/main/java/org/christiankakesa/applications/java/shelltaskpool/JobExecution.java:78-115 | Step by step, the new state and counters equal `StartSpec`. A command line of only `\s` whitespace gives an empty argument vector: an exception escapes and only the start date is set. A failed spawn sets only the start date. An interrupted wait leaves the job RUNNING with exit code -42. An exit records the end date and exit code, then gives COMPLETED with success+1 or FAILED with failed+1. |
| JobExecutions.StartKeepsConsistent | src/main/java/org/christiankakesa/applications/java/shelltaskpool/JobExecution.java:68-115 | `start` keeps the consistency invariant between status, exit code, end date and process. |
| JobExecutions.ExitClassifies | src/main/java/org/christiankakesa/applications/java/shelltaskpool/JobExecution.java:90-98 | From NONE, exit code 0 gives COMPLETED and success+1, a non-zero code gives FAILED and failed+1. The other counter is unchanged, and the total rises by exactly one. |
| JobExecutions.CountedAtMostOnce | src/main/java/org/christiankakesa/applications/java/shelltaskpool/JobExecution.java:68-115 | Over any sequence of `start` calls the state stays consistent and the status only moves forward. No counter decreases, and the total rises by exactly 1 if the job became terminal and by 0 otherwise. |
| JobExecutions.NoSecondRun | src/main/java/org/christiankakesa/applications/java/shelltaskpool/JobExecution.java:68-76 | Once a job has left NONE, any further `start` calls change neither the job nor the counters. |
| JobExecutions.JobExecution.Destroy | src/main/java/org/christiankakesa/applications/java/shelltaskpool/JobExecution.java:117-123 | Without a process nothing happens. A spawned process is asked to terminate. |
| JobExecutions.JobExecution.GetStartDate | src/main/java/org/christiankakesa/applications/java/shelltaskpool/JobExecution.java:133-135 | Returns the same time value when a start date exists and throws a null-pointer exception otherwise. |
| JobExecutions.JobExecution.GetEndDate | src/main/java/org/christiankakesa/applications/java/shelltaskpool/JobExecution.java:141-143 | Returns the same time value when an end date exists and throws a null-pointer exception otherwise. |
| JobExecutions.JobExecution.ProcessOutput | src/main/java/org/christiankakesa/applications/java/shelltaskpool/JobExecution.java:206-253 | The result is "" when the concatenated lines hold only characters `trim` removes. Otherwise it is `JobId: <id> - STDOUT: ` followed by all lines concatenated with no separator. |
| JobExecutions.Sanitize | src/main/java/org/christiankakesa/applications/java/shelltaskpool/JobExecution.java:268-269 | The result has the input's length. Each character of `[a-zA-Z_-]` is kept and each other character becomes `-`. |
| JobExecutions.SanitizeIsSafeAndIdempotent | src/main/java/org/christiankakesa/applications/java/shelltaskpool/JobExecution.java:268-269 | The sanitised string contains only `[a-zA-Z_-]`, and sanitising twice is sanitising once. |
| JobExecutions.SanitizeFixesExactlySafe | src/main/java/org/christiankakesa/applications/java/shelltaskpool/JobExecution.java:268-269 | A string is left unchanged iff it contains only `[a-zA-Z_-]`. |
| JobExecutions.SanitizeAppend | src/main/java/org/christiankakesa/applications/java/shelltaskpool/JobExecution.java:268-269 | Sanitising works character by character: sanitising a concatenation concatenates the sanitised parts. |
| JobExecutions.SanitizeCommandWithHost | src/main/java/org/christiankakesa/applications/java/shelltaskpool/JobExecution.java:268-269 | For a command `tool host.domain` of safe words, the space and the dot become `-` and everything else is kept (e.g. `nslookup google.fr` gives `nslookup-google-fr`). |
| JobExecutions.BuildLogFilename | src/main/java/org/christiankakesa/applications/java/shelltaskpool/JobExecution.java:262-272 | The name starts with the directory and separator and ends with `.log`. Just before `.log` stands the sanitised command line, which holds only safe characters. |
| JobExecutions.LogFilenameReadsBack | src/main/java/org/christiankakesa/applications/java/shelltaskpool/JobExecution.java:262-272 | When the batch id and the timestamp hold no `_`, the name after the directory reads back: `batchid-`, the batch id up to the first `_`, `jobid-`, a decimal that parses to the job id, the timestamp, and the sanitised command before `.log`. |
| JavaLang.IntToStringRoundTrip | src/main/java/org/christiankakesa/applications/java/shelltaskpool/JobExecution.java:265 | `String.valueOf` of an integer is a decimal string that parses back to the same integer. |
| JavaLang.NatToStringRoundTrip | src/main/java/org/christiankakesa/applications/java/shelltaskpool/JobExecution.java:265 | The decimal digits of a natural number read back to it and have no leading zero. |
| JavaLang.TrimEmptyIffBlank | src/main/java/org/christiankakesa/applications/java/shelltaskpool/JobExecution.java:247 | `trim()` gives the empty string iff every character is at most U+0020. |
| JavaLang.DivRemTruncate | src/main/java/org/christiankakesa/applications/java/shelltaskpool/Utils.java:85-92 | Java's `/` and `%` recompose the dividend. The remainder carries the dividend's sign and is smaller than the divisor in magnitude. |
| JavaLang.Format02d | src/main/java/org/christiankakesa/applications/java/shelltaskpool/Utils.java:90-92 | `%02d` is a decimal that parses back to the value, of at least two characters and exactly two for 0..99. Padding stops at width two: a value of three digits or more has no leading zero, and a negative value is a minus sign followed by a non-zero digit. |
| Utils.GetSpace | src/main/java/org/christiankakesa/applications/java/shelltaskpool/Utils.java:69-78 | Exactly max(n, 0) characters, all spaces. |
| Utils.SplitSeconds | src/main/java/org/christiankakesa/applications/java/shelltaskpool/Utils.java:85-92 | h·3600 + m·60 + s equals the elapsed seconds. For a non-negative value m and s lie in 0..59 and h ≥ 0; for a non-positive value all three are ≤ 0 and m, s ≥ -59. |
| Utils.HmsRecompose | src/main/java/org/christiankakesa/applications/java/shelltaskpool/Utils.java:88-92 | `t / 3600`, `(t % 3600) / 60` and `t % 60` with Java's operators recompose t. For t ≥ 0 the minutes and seconds lie in 0..59; for t ≤ 0 every field is ≤ 0. |
| Utils.BuildDurationFromDates | src/main/java/org/christiankakesa/applications/java/shelltaskpool/Utils.java:80-97 | `00:00:00` whenever either date is null. |
| Utils.RenderHmsReadsBack | src/main/java/org/christiankakesa/applications/java/shelltaskpool/Utils.java:90-92 | For non-negative fields the text is `HH:MM:SS`: minutes and seconds are exactly two digits, the hours two digits or more with no leading zero, and each group reads back to its value. |
| Utils.DurationReadsBack | src/main/java/org/christiankakesa/applications/java/shelltaskpool/Utils.java:85-92 | For end ≥ start, the three digit groups read back to hours, minutes and seconds whose weighted sum is (end − start) / 1000; minutes and seconds are below 60, and hours of three digits or more carry no leading zero. |
| Utils.DurationRoundTrip | src/main/java/org/christiankakesa/applications/java/shelltaskpool/Utils.java:80-92 | For any two dates, the three colon-separated groups parse back to fields that recompose (end − start) / 1000 truncated toward zero. Minutes and seconds lie in 0..59 when end ≥ start, and every field is ≤ 0 when end ≤ start. |
| Utils.DurationOfOneHourOneMinuteOneSecond | src/main/java/org/christiankakesa/applications/java/shelltaskpool/Utils.java:85-92 | 3 661 000 ms give `01:01:01`. |
| Utils.RenderHmsShowsSign | src/main/java/org/christiankakesa/applications/java/shelltaskpool/Utils.java:90-92 | A negative field puts a minus sign into the text. |
| Utils.RenderHmsRoundTrip | src/main/java/org/christiankakesa/applications/java/shelltaskpool/Utils.java:90-92 | Whatever the signs of the fields, each colon-separated group of the text parses back to its field. |
| Utils.NegativeDurationShowsSign | src/main/java/org/christiankakesa/applications/java/shelltaskpool/Utils.java:85-92 | When end is at least a second before start, the text carries a minus sign and its three groups parse back to fields that are all ≤ 0, at least one of them negative (−1 s gives `00:00:-1`). |
| Utils.IndexOfFrom | src/main/java/org/christiankakesa/applications/java/shelltaskpool/Utils.java:107 | The position of the next given quote at or after j, or the length when there is none. |
| Utils.RunEnd | src/main/java/org/christiankakesa/applications/java/shelltaskpool/Utils.java:107 | The end of the maximal run of non-`\s` characters from i. |
| Utils.Matches | src/main/java/org/christiankakesa/applications/java/shelltaskpool/Utils.java:107-112 | Every span `find` returns from i is non-empty and lies at or after i in the input, and consecutive spans do not overlap and run left to right. |
| Utils.Slices | src/main/java/org/christiankakesa/applications/java/shelltaskpool/Utils.java:110-111 | One token per span, each exactly the input's substring over its span. |
| Utils.ParseCommandLineToStringArray | src/main/java/org/christiankakesa/applications/java/shelltaskpool/Utils.java:105-114 | The loop collects exactly the matched groups in order: the result is `Tokens(commandLine)`. |
| Utils.NoTokensIffBlank | src/main/java/org/christiankakesa/applications/java/shelltaskpool/Utils.java:105-114 | The argument vector is empty exactly when every character of the command line is `\s` whitespace. |
| Utils.UncoveredIsSpace | src/main/java/org/christiankakesa/applications/java/shelltaskpool/Utils.java:107-112 | Every character not covered by a token is `\s` whitespace. |
| Utils.MatchAtIsWellShaped | src/main/java/org/christiankakesa/applications/java/shelltaskpool/Utils.java:107 | A match is one of two things. If it starts with a quote that closes later, it runs exactly to the next such quote. Otherwise it is a maximal run of non-whitespace. |
| Utils.MatchesAreWellShaped | src/main/java/org/christiankakesa/applications/java/shelltaskpool/Utils.java:107-112 | Every token the scan returns has that shape. |
| Utils.NoQuoteTokensFrom | src/main/java/org/christiankakesa/applications/java/shelltaskpool/Utils.java:107-112 | Without quote characters, scanning from any position gives the whitespace-separated words of the rest. |
| Utils.NoQuoteTokensAreWords | src/main/java/org/christiankakesa/applications/java/shelltaskpool/Utils.java:107-113 | An input without quote characters tokenizes to exactly its whitespace-separated words. |
| Utils.QuotedExample | src/main/java/org/christiankakesa/applications/java/shelltaskpool/Utils.java:107-112 | The line `foo "bar baz" 'qux'` gives three tokens, and the quoted ones keep their quotes and inner space. |

## Left out

- Spawning the process, `waitFor`, decoding its output stream, writing the
  log file and closing readers and writers are operating-system I/O. A
  spawn's result is the input `RunOutcome`, and the output lines are a
  sequence of strings.
- Logging and the `synchronized` blocks. The model is sequential, and
  counters are bumped one call at a time.
- The log line at `JobExecution.java:101-108` is logging only. It is not
  modelled, so neither is the order in which it passes the two dates to
  `Util.buildDurationFromDates` (start first, where `Utils.java:80` takes
  the end first).
- `MyThreadPoolExecutor.java` is concurrent scheduling and is not part of
  this model. Its status effects are the `Batch` transitions modelled here.
- `Utils.hexSHA1` calls `MessageDigest`. The batch receives it as an
  uninterpreted function.
- `Utils.UUID` (randomness) and the help-text functions (console output)
  are left out.
- The clock and `SimpleDateFormat` are replaced by integer-millisecond
  parameters and an opaque timestamp string.
- `JobExecution.toString` is diagnostic only.
- The singleton `Batch.INSTANCE` is replaced by an explicitly constructed
  `Batch`.
- Getters that return a field unchanged are left out. Field reads in
  Dafny say the same thing, except as below for the job list.
- `getJobExecutionList` (`Batch.java:158-160`) hands out the live
  synchronized list. Callers could add, remove or reorder jobs through it
  and so break the numbering that `Batch.Valid` states. The model exposes
  the list only as a value, so this aliasing is not modelled.
- `String.format` uses the default locale, whose zero digit shifts every
  digit it prints. `Format02d` and the duration text match Java only for a
  locale whose digits are the ASCII digits.
- Java strings are UTF-16. Here strings are sequences of code points. So
  the claim that `Sanitize` keeps the length holds in code points:
  `replaceAll` turns a supplementary character (two UTF-16 units) into a
  single `-`, which shortens Java's `length()` by one.
- `Date` objects are integer values, so the aliasing between a stored
  `Date` and the caller's object is not modelled.
- Batches.Batch.AddJobToExecute: the source receives a job and sets its
  id with `je.setId`. The job class shown makes its id `final` and has no
  `setId`, so the model creates the job inside `AddJobToExecute`, passing
  the new counter value to the constructor. `List.add` on the
  synchronized list always succeeds and is taken as such.
- JobExecutions.JobExecution.constructor: the source takes the id from a
  batch counter method (`incrementAndGetTotalJOb`) that is not in
  `Batch.java`. The model takes the id as a constructor argument.
- JobExecutions.JobExecution.Run: the escaping exception is a flag,
  `escapes`. Its state effect is the one `StartSpec` gives a failed spawn.
  What happens to it above `start()` (in the thread pool) is not modelled.
  The argument vector comes from `Util.parseCommandLineToStringArray`
  (`JobExecution.java:80-81`), taken to be the tokenizer of `Utils.java`.
- JobExecutions.JobExecution.Run: the counters are an abstract
  success/failure pair passed in and returned. The calls
  `incrementSuccessJob`/`incrementFailedJob` name batch methods that are
  not in `Batch.java`.
- `jobCounterId`, `jobSuccess`, `jobFailed` and date differences are Java
  `long`, and `exitCode` and job ids are `int`. They are unbounded
  integers here, so 64-bit and 32-bit wrap-around is not modelled.
