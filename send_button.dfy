/** The send-button handler as the script runs it: pre-flight checks, then
    the batch loop over offsets 0, B, 2B, ... and the row loop inside each
    batch, updating the sent counter, the requested sleep and the event log
    step by step. An exception inside the loops ends the run at once. */
module SendButton {
  import opened Mailer
  import opened Schedule
  import opened Batches

  method HandleSendButton(form: Form, env: Env) returns (report: Report)
    ensures report == Handle(form, env)
  {
    if !AllFilled(form) {
      return Report(FillAllFields, [], 0, 0);
    }
    var df: Table;
    match form.excelFile.value {
      case Unreadable =>
        return Report(InvalidExcel, [], 0, 0);
      case Readable(t) =>
        df := t;
    }
    if !(RequiredColumns <= df.columns) {
      return Report(MissingColumns, [], 0, 0);
    }
    var totalEmails := |df.rows|;
    var sentCount: nat := 0;
    var clock: nat := 0;
    var log: seq<Event> := [];
    // the session cannot be opened or logged into
    if !env.sessionOk {
      return Report(Error, log, sentCount, clock);
    }
    // range() with a zero step raises
    if form.batchSize == 0 {
      return Report(Error, log, sentCount, clock);
    }
    var raised;
    sentCount, clock, log, raised := SendBatches(JobOf(form, df), env);
    if raised {
      return Report(Error, log, sentCount, clock);
    }
    // server.quit() raises
    if !env.quitOk {
      return Report(Error, log, sentCount, clock);
    }
    log := log + [Quit];
    report := Report(Success(sentCount), log, sentCount, clock);
  }

  /** The body of the try block once the session is open: the batch loop
      over offsets 0, B, 2B, ... and the row loop inside each batch. */
  method SendBatches(job: Job, env: Env) returns (sentCount: nat, clock: nat, log: seq<Event>, raised: bool)
    requires ValidJob(job)
    ensures State(sentCount, clock, log, raised) == RunBatches(job, env, Initial, 0)
  {
    var totalEmails := |job.rows|;
    var batchSize := job.batchSize;
    sentCount, clock, log, raised := 0, 0, [], false;
    var i := 0;
    while i < totalEmails
      invariant RunBatches(job, env, State(sentCount, clock, log, false), i)
                == RunBatches(job, env, Initial, 0)
      decreases totalEmails - i
    {
      ghost var before := State(sentCount, clock, log, false);
      BatchNumberQuotient(i, batchSize);
      log := log + [BatchStart(i / batchSize + 1)];
      var end := Min(i + batchSize, totalEmails);
      ghost var announced := State(sentCount, clock, log, false);
      assert announced == Announce(job, before, i);
      var j := i;
      while j < end
        invariant i <= j <= end
        invariant SendRows(job, env, State(sentCount, clock, log, false), j, end)
                  == SendRows(job, env, announced, i, end)
        decreases end - j
      {
        ghost var current := State(sentCount, clock, log, false);
        var row := job.rows[j];
        var msg := Compose(job, row);
        if j in env.raises {
          assert SendRows(job, env, announced, i, end) == State(sentCount, clock, log, true);
          raised := true;
          return;
        }
        log := log + [Sent(j, job.sender, row["email"], msg)];
        sentCount := sentCount + 1;
        clock := clock + job.emailDelay;
        log := log + [Sleep(job.emailDelay)];
        assert State(sentCount, clock, log, false) == Deliver(job, current, j);
        j := j + 1;
      }
      ghost var batched := State(sentCount, clock, log, false);
      assert SendRows(job, env, announced, i, end) == batched == Batch(job, env, before, i);
      if i + batchSize < totalEmails {
        log := log + [Pause(job.batchDelay)];
        clock := clock + job.batchDelay * 60;
        assert State(sentCount, clock, log, false) == PauseAfter(job, batched);
      }
      i := i + batchSize;
    }
  }
}
