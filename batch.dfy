/**
 * The batch record: its name and id, its dates, its status, the success
 * and failure counters the jobs bump, and the list of jobs with the counter
 * that numbers them. The source keeps one process-wide instance; here the
 * batch is an object that its owner constructs and passes around.
 */
module Batches {
  import opened JavaLang
  import Utils
  import J = JobExecutions

  datatype BatchStatus = None | Started | Running | Failed | CompletedWithError | Completed

  predicate IsTerminal(s: BatchStatus) {
    s == Failed || s == CompletedWithError || s == Completed
  }

  /**
   * The final status the counters call for: completed when nothing failed
   * and something succeeded, completed with errors when both happened, and
   * failed otherwise (no success at all, or a failure counter set below
   * zero through `setJobFailed`).
   */
  function Classify(success: int, failed: int): (s: BatchStatus)
    ensures IsTerminal(s)
    ensures s == Completed <==> failed == 0 && success >= 1
    ensures s == CompletedWithError <==> failed > 0 && success >= 1
    ensures s == Failed <==> success < 1 || failed < 0
  {
    if failed == 0 && success >= 1 then Completed
    else if failed > 0 && success >= 1 then CompletedWithError
    else Failed
  }

  /** Three successes complete the batch, two and one failure complete it with errors, three failures fail it. */
  lemma ClassifyExamples()
    ensures Classify(3, 0) == Completed
    ensures Classify(2, 1) == CompletedWithError
    ensures Classify(0, 3) == Failed
    ensures Classify(0, 0) == Failed
  {
  }

  /** The counters after each job of a batch has run once to process exit with the given code. */
  function TallyExits(codes: seq<int>): J.Counters
    decreases |codes|
  {
    if codes == [] then J.Counters(0, 0)
    else J.StartSpec(J.Fresh, J.Exits(codes[|codes| - 1]), 0, 0, TallyExits(codes[..|codes| - 1])).1
  }

  /** The number of zero exit codes. */
  function Zeros(codes: seq<int>): nat {
    if codes == [] then 0 else Zeros(codes[..|codes| - 1]) + (if codes[|codes| - 1] == 0 then 1 else 0)
  }

  /** Each job that exits adds one to exactly one counter: successes count the zero exit codes, failures the others. */
  lemma {:induction false} TallyCountsExitCodes(codes: seq<int>)
    ensures TallyExits(codes) == J.Counters(Zeros(codes), |codes| - Zeros(codes))
    ensures Zeros(codes) <= |codes|
    decreases |codes|
  {
    if codes != [] {
      var n := |codes| - 1;
      TallyCountsExitCodes(codes[..n]);
      J.ExitClassifies(J.Fresh, codes[n], 0, 0, TallyExits(codes[..n]));
    }
  }

  /**
   * The final status of a batch whose jobs all ran to process exit: completed
   * when every exit code is 0 and there was at least one job, completed
   * with errors when some are 0 and some are not, failed when none is 0.
   */
  lemma {:induction false} FinalStatusFromExitCodes(codes: seq<int>)
    ensures var c := TallyExits(codes);
      && (Classify(c.success, c.failed) == Completed <==> |codes| > 0 && forall k :: 0 <= k < |codes| ==> codes[k] == 0)
      && (Classify(c.success, c.failed) == CompletedWithError <==>
            (exists k :: 0 <= k < |codes| && codes[k] == 0) && (exists k :: 0 <= k < |codes| && codes[k] != 0))
      && (Classify(c.success, c.failed) == Failed <==> forall k :: 0 <= k < |codes| ==> codes[k] != 0)
  {
    TallyCountsExitCodes(codes);
    ZerosCounts(codes);
  }

  /** `Zeros` is zero exactly when no code is 0, and the whole length exactly when every code is 0. */
  lemma {:induction false} ZerosCounts(codes: seq<int>)
    ensures Zeros(codes) == 0 <==> forall k :: 0 <= k < |codes| ==> codes[k] != 0
    ensures Zeros(codes) == |codes| <==> forall k :: 0 <= k < |codes| ==> codes[k] == 0
    ensures Zeros(codes) <= |codes|
    decreases |codes|
  {
    if codes != [] {
      var n := |codes| - 1;
      ZerosCounts(codes[..n]);
      assert forall k :: 0 <= k < n ==> codes[..n][k] == codes[k];
    }
  }

  class Batch {
    /** The hash that turns a batch name into its id (`Utils.hexSHA1` in the source). */
    const hexSha1: string -> string
    var batchName: Nullable<string>
    var batchId: Nullable<string>
    var batchStartDate: Nullable<int>
    var batchEndDate: Nullable<int>
    var batchStatus: BatchStatus
    var jobCounterId: int
    var jobSuccess: int
    var jobFailed: int
    var jobExecutionList: seq<J.JobExecution>

    /**
     * The job counter numbers the list: the n-th job added carries id n,
     * so the ids are 1, 2, ... in the order the jobs were added.
     */
    ghost predicate Valid()
      reads this
    {
      && jobCounterId == |jobExecutionList|
      && forall k :: 0 <= k < |jobExecutionList| ==> jobExecutionList[k].id == k + 1
    }

    /** A new batch: no name, no id, no dates, status NONE, every counter 0, no job. */
    constructor (hexSha1: string -> string)
      ensures this.hexSha1 == hexSha1
      ensures batchName == Null && batchId == Null
      ensures batchStartDate == Null && batchEndDate == Null
      ensures batchStatus == None
      ensures jobCounterId == 0 && jobSuccess == 0 && jobFailed == 0
      ensures jobExecutionList == []
      ensures Valid()
    {
      this.hexSha1 := hexSha1;
      batchName := Null;
      batchId := Null;
      batchStartDate := Null;
      batchEndDate := Null;
      batchStatus := None;
      jobCounterId := 0;
      jobSuccess := 0;
      jobFailed := 0;
      jobExecutionList := [];
    }

    /**
     * `setBatchName`: a null name is ignored; the first name given sets the
     * name and the id derived from it, and later names are ignored.
     */
    method SetBatchName(batchName: Nullable<string>)
      modifies this`batchName, this`batchId
      ensures batchName.Null? || old(this.batchName).NonNull? ==>
        this.batchName == old(this.batchName) && batchId == old(batchId)
      ensures batchName.NonNull? && old(this.batchName).Null? ==>
        this.batchName == batchName && batchId == NonNull(hexSha1(batchName.value))
    {
      if batchName.Null? {
        return;
      }
      if this.batchName.Null? {
        this.batchName := batchName;
        this.batchId := NonNull(hexSha1(batchName.value));
      }
    }

    /** `setBatchStartDate`: the batch is STARTED and the start date recorded. */
    method SetBatchStartDate(batchStartDate: Nullable<int>)
      modifies this`batchStatus, this`batchStartDate
      ensures batchStatus == Started && this.batchStartDate == batchStartDate
    {
      SetBatchStatus(Started);
      this.batchStartDate := batchStartDate;
    }

    /** `setBatchEndDate`: the end date is recorded and the status follows from the counters. */
    method SetBatchEndDate(batchEndDate: Nullable<int>)
      modifies this`batchEndDate, this`batchStatus
      ensures this.batchEndDate == batchEndDate
      ensures batchStatus == Classify(jobSuccess, jobFailed) && IsTerminal(batchStatus)
    {
      this.batchEndDate := batchEndDate;
      SetBatchStatusFromSuccessFailed();
    }

    method SetBatchStatus(batchStatus: BatchStatus)
      modifies this`batchStatus
      ensures this.batchStatus == batchStatus
    {
      this.batchStatus := batchStatus;
    }

    /** `setBatchStatusFromSuccessFailed`: the status the counters call for; the counters stay as they are. */
    method SetBatchStatusFromSuccessFailed()
      modifies this`batchStatus
      ensures batchStatus == Classify(jobSuccess, jobFailed)
    {
      if jobFailed == 0 && jobSuccess >= 1 {
        SetBatchStatus(Completed);
      } else if jobFailed > 0 && jobSuccess >= 1 {
        SetBatchStatus(CompletedWithError);
      } else {
        SetBatchStatus(Failed);
      }
    }

    /** The `HH:MM:SS` duration from the start date to the end date, `00:00:00` while either is missing. */
    function BatchDuration(): (r: string)
      reads this
      ensures batchStartDate.Null? || batchEndDate.Null? ==> r == "00:00:00"
    {
      Utils.BuildDurationFromDates(batchEndDate, batchStartDate)
    }

    method SetJobSuccess(jobSuccess: int)
      modifies this`jobSuccess
      ensures this.jobSuccess == jobSuccess
    {
      this.jobSuccess := jobSuccess;
    }

    /** `incrementJobSuccess`: one more success. */
    method IncrementJobSuccess()
      modifies this`jobSuccess
      ensures jobSuccess == old(jobSuccess) + 1
    {
      jobSuccess := jobSuccess + 1;
    }

    method SetJobFailed(jobFailed: int)
      modifies this`jobFailed
      ensures this.jobFailed == jobFailed
    {
      this.jobFailed := jobFailed;
    }

    /** `incrementJobFailed`: one more failure. */
    method IncrementJobFailed()
      modifies this`jobFailed
      ensures jobFailed == old(jobFailed) + 1
    {
      jobFailed := jobFailed + 1;
    }

    /**
     * `addJobToExecute`: the job goes at the end of the list and receives the
     * next value of the job counter as its id; adding the first job sets the
     * status to RUNNING. The job record is created here with that id, since a
     * job's id cannot change once it exists.
     */
    method AddJobToExecute(commandLine: string) returns (je: J.JobExecution)
      requires Valid()
      modifies this`jobExecutionList, this`jobCounterId, this`batchStatus
      ensures Valid()
      ensures fresh(je) && je.commandLine == commandLine && je.State() == J.Fresh
      ensures jobExecutionList == old(jobExecutionList) + [je]
      ensures jobCounterId == old(jobCounterId) + 1 && je.id == jobCounterId
      ensures batchStatus == if |jobExecutionList| == 1 then Running else old(batchStatus)
    {
      je := new J.JobExecution(commandLine, jobCounterId + 1);
      // `List.add` on the synchronized list always succeeds
      jobExecutionList := jobExecutionList + [je];
      if |jobExecutionList| == 1 {
        batchStatus := Running;
      }
      jobCounterId := jobCounterId + 1;
    }
  }

  /**
   * The ids of a valid batch's jobs are distinct and increase strictly in
   * the order the jobs were added.
   */
  lemma IdsIncrease(b: Batch)
    requires b.Valid()
    ensures forall i, j :: 0 <= i < j < |b.jobExecutionList| ==>
      b.jobExecutionList[i].id < b.jobExecutionList[j].id
    ensures forall i, j :: 0 <= i < j < |b.jobExecutionList| ==>
      b.jobExecutionList[i] != b.jobExecutionList[j]
  {
  }
}
