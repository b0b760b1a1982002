/** What the dispatch schedule promises, in closed form: which rows are sent
    and in what order, how many batches are announced, how many pauses are
    taken, how long the handler asks to sleep, and what the counter reads
    when the run ends, whether it completes or an exception halts it. */
module ScheduleProofs {
  import opened Mailer
  import opened Schedule
  import opened Batches
  import opened EventLog
  import opened LoopLog

  // ---------------------------------------------------------------------
  // The loop writes the log in closed form

  /** The rows of one batch from j on: the rows up to the first failure are
      sent in order, and the batch ends raised exactly when that failure
      lies inside it. */
  lemma {:induction false} SendRowsLog(job: Job, env: Env, s: State, j: nat, end: nat)
    requires ValidJob(job) && j <= end <= |job.rows| && !s.raised
    ensures var r, k := SendRows(job, env, s, j, end), FirstFailure(env.raises, j, end);
      r.raised == (k < end) && r.log == s.log + Deliveries(job, j, k)
    decreases end - j
  {
    var k := FirstFailure(env.raises, j, end);
    if j == end || j in env.raises {
      assert s.log + Deliveries(job, j, k) == s.log;
    } else {
      var s1 := Deliver(job, s, j);
      SendRowsLog(job, env, s1, j + 1, end);
      assert Deliveries(job, j, k) == Delivery(job, j) + Deliveries(job, j + 1, k);
      assert s1.log + Deliveries(job, j + 1, k) == s.log + Deliveries(job, j, k);
    }
  }

  /** The batch at offset i, when every row before it was sent, writes its
      announcement and its rows up to the first failure k, and ends raised
      exactly when k falls inside it. */
  lemma BatchLog(job: Job, env: Env, s: State, i: nat)
    requires ValidJob(job) && !s.raised && i < |job.rows|
    requires i <= FirstFailure(env.raises, 0, |job.rows|)
    ensures var t, n, k := Batch(job, env, s, i), |job.rows|, FirstFailure(env.raises, 0, |job.rows|);
      && t.raised == (k < i + job.batchSize && k < n)
      && t.log == s.log + BatchEvents(job, k, i)
  {
    var n, k := |job.rows|, FirstFailure(env.raises, 0, |job.rows|);
    var e := Min(i + job.batchSize, n);
    var a := Announce(job, s, i);
    SendRowsLog(job, env, a, i, e);
    FirstFailureWithin(env.raises, n, i, e);
    assert FirstFailure(env.raises, i, e) == BatchEnd(job, k, i);
    assert a.log + Deliveries(job, i, BatchEnd(job, k, i)) == s.log + BatchEvents(job, k, i);
  }

  /** A log that grew by a batch's events, then by a pause, then by the
      rest of the run grew by all three joined. */
  lemma JoinLogs(start: seq<Event>, events: seq<Event>, pause: seq<Event>, rest: seq<Event>,
                 batched: seq<Event>, paused: seq<Event>, final: seq<Event>)
    requires batched == start + events && paused == batched + pause && final == paused + rest
    ensures final == start + (events + pause + rest)
  {
    AppendAssociates(start, events, pause);
    AppendAssociates(start, events + pause, rest);
  }

  /** The loop from offset i on runs the batch at i, then stops if that
      batch raised or was the last one, and otherwise pauses and goes on
      from i + b. */
  lemma RunBatchesStep(job: Job, env: Env, s: State, i: nat)
    requires ValidJob(job) && i < |job.rows|
    ensures var t, b, n := Batch(job, env, s, i), job.batchSize, |job.rows|;
      && (t.raised || n <= i + b ==> RunBatches(job, env, s, i) == t)
      && (!t.raised && i + b < n ==> RunBatches(job, env, s, i) == RunBatches(job, env, PauseAfter(job, t), i + b))
  {
  }

  /** A batch that holds the first failure, or is the last one, ends the
      loop: the loop writes that batch's events and ends raised exactly when
      some row raises. */
  lemma LastBatchLog(job: Job, env: Env, s: State, i: nat)
    requires ValidJob(job) && !s.raised && i < |job.rows|
    requires var k := FirstFailure(env.raises, 0, |job.rows|);
      i <= k && (k < i + job.batchSize || |job.rows| <= i + job.batchSize)
    ensures var r, k := RunBatches(job, env, s, i), FirstFailure(env.raises, 0, |job.rows|);
      r.raised == (k < |job.rows|) && r.log == s.log + RunLog(job, i, k)
  {
    BatchLog(job, env, s, i);
    RunLogStep(job, i, FirstFailure(env.raises, 0, |job.rows|));
    RunBatchesStep(job, env, s, i);
  }

  /** A batch before the one holding the first failure, and not the last
      one, writes its events and a pause, and the loop goes on from i + b
      with nothing raised. */
  lemma NextBatchLog(job: Job, env: Env, s: State, i: nat)
    requires ValidJob(job) && !s.raised && i < |job.rows|
    requires var k := FirstFailure(env.raises, 0, |job.rows|);
      i + job.batchSize <= k && i + job.batchSize < |job.rows|
    ensures var t2, k := PauseAfter(job, Batch(job, env, s, i)), FirstFailure(env.raises, 0, |job.rows|);
      && !t2.raised
      && RunBatches(job, env, s, i) == RunBatches(job, env, t2, i + job.batchSize)
      && t2.log + RunLog(job, i + job.batchSize, k) == s.log + RunLog(job, i, k)
  {
    var k := FirstFailure(env.raises, 0, |job.rows|);
    var t := Batch(job, env, s, i);
    var t2 := PauseAfter(job, t);
    BatchLog(job, env, s, i);
    RunLogStep(job, i, k);
    RunBatchesStep(job, env, s, i);
    JoinLogs(s.log, BatchEvents(job, k, i), [Pause(job.batchDelay)], RunLog(job, i + job.batchSize, k),
             t.log, t2.log, t2.log + RunLog(job, i + job.batchSize, k));
  }

  /** The batch loop from offset i on, when every row before i was sent,
      writes RunLog and ends raised exactly when some row raises. */
  lemma {:induction false} RunBatchesLog(job: Job, env: Env, s: State, i: nat)
    requires ValidJob(job) && !s.raised
    requires i <= FirstFailure(env.raises, 0, |job.rows|)
    ensures var r, k := RunBatches(job, env, s, i), FirstFailure(env.raises, 0, |job.rows|);
      r.raised == (k < |job.rows|) && r.log == s.log + RunLog(job, i, k)
    decreases |job.rows| - i
  {
    var n, b, k := |job.rows|, job.batchSize, FirstFailure(env.raises, 0, |job.rows|);
    if i == n {
      assert s.log + RunLog(job, i, k) == s.log;
    } else if k < i + b || n <= i + b {
      LastBatchLog(job, env, s, i);
    } else {
      NextBatchLog(job, env, s, i);
      RunBatchesLog(job, env, PauseAfter(job, Batch(job, env, s, i)), i + b);
    }
  }

  /** When no row raises, the batch loop writes, slice by slice of
      range(0, n, b), the announcement of batch q + 1, the rows of the slice,
      and a pause between two slices. */
  lemma RunSlices(job: Job, env: Env)
    requires ValidJob(job) && FirstFailure(env.raises, 0, |job.rows|) == |job.rows|
    ensures RunBatches(job, env, Initial, 0).log ==
      SliceJoin((slice: (nat, nat), p: nat) => SliceEvents(job, slice, p), Slices(|job.rows|, job.batchSize, 0), 1, job.batchDelay)
  {
    RunBatchesLog(job, env, Initial, 0);
    SlicesRunLog(job, 0);
    assert [] + RunLog(job, 0, |job.rows|) == RunLog(job, 0, |job.rows|);
  }

  // ---------------------------------------------------------------------
  // The state invariant

  /** Sending a row keeps the state invariant. */
  lemma DeliverGood(job: Job, s: State, j: nat)
    requires ValidJob(job) && j < |job.rows| && Good(job, s)
    ensures Good(job, Deliver(job, s, j))
  {
    var row := job.rows[j];
    var sent := Sent(j, job.sender, row["email"], Compose(job, row));
    var mid := s.log + [sent];
    assert Deliver(job, s, j).log == s.log + [sent, Sleep(job.emailDelay)] == mid + [Sleep(job.emailDelay)];
    AppendViews(s.log, sent);
    AppendConforms(job, s.log, sent);
    AppendViews(mid, Sleep(job.emailDelay));
    AppendConforms(job, mid, Sleep(job.emailDelay));
    AppendSentAndSleep(job, s.log, sent);
  }

  /** Announcing a batch or pausing after one keeps the state invariant. */
  lemma AppendGood(job: Job, s: State, e: Event, r: State)
    requires ValidJob(job) && Good(job, s)
    requires e == Pause(job.batchDelay) || e.BatchStart?
    requires r.log == s.log + [e] && r.sent == s.sent && r.clock == s.clock + Seconds(e)
    ensures Good(job, r)
  {
    AppendViews(s.log, e);
    AppendConforms(job, s.log, e);
  }

  /** The rows of one batch keep the state invariant. */
  lemma {:induction false} SendRowsGood(job: Job, env: Env, s: State, j: nat, end: nat)
    requires ValidJob(job) && j <= end <= |job.rows| && Good(job, s)
    ensures Good(job, SendRows(job, env, s, j, end))
    decreases end - j
  {
    if j < end && j !in env.raises {
      DeliverGood(job, s, j);
      SendRowsGood(job, env, Deliver(job, s, j), j + 1, end);
    }
  }

  /** The batch loop keeps the state invariant. */
  lemma {:induction false} RunBatchesGood(job: Job, env: Env, s: State, i: nat)
    requires ValidJob(job) && Good(job, s)
    ensures Good(job, RunBatches(job, env, s, i))
    decreases |job.rows| - i
  {
    var n, b := |job.rows|, job.batchSize;
    if i < n {
      var a := Announce(job, s, i);
      AppendGood(job, s, BatchStart(BatchNumber(i, b)), a);
      var t := Batch(job, env, s, i);
      SendRowsGood(job, env, a, i, Min(i + b, n));
      if !t.raised {
        var t2 := if i + b < n then PauseAfter(job, t) else t;
        if i + b < n {
          AppendGood(job, t, Pause(job.batchDelay), t2);
        }
        RunBatchesGood(job, env, t2, i + b);
      }
    }
  }

  // ---------------------------------------------------------------------
  // The batch loop from the start

  /** The batch loop run from the start, in closed form, with k the first
      failing row (n when none fails) and m the batches it starts. */
  lemma RunFromStart(job: Job, env: Env)
    requires ValidJob(job)
    ensures var s := RunBatches(job, env, Initial, 0);
            var n := |job.rows|;
            var k := FirstFailure(env.raises, 0, n);
            var m := BatchesStarted(n, job.batchSize, k);
      && s.raised == (k < n)
      && s.sent == k
      && SentRows(s.log) == Span(0, k)
      && BatchNumbers(s.log) == Span(1, m)
      && Pauses(s.log) == (if n == 0 then 0 else m - 1)
      && Good(job, s)
  {
    var n, b, k := |job.rows|, job.batchSize, FirstFailure(env.raises, 0, |job.rows|);
    assert Good(job, Initial);
    RunBatchesGood(job, env, Initial, 0);
    RunBatchesLog(job, env, Initial, 0);
    assert [] + RunLog(job, 0, k) == RunLog(job, 0, k);
    RunLogViews(job, k);
    SpanElements(0, k);
    if n > 0 {
      StartedClosedForm(n, b, k, 0, 0);
    } else {
      CeilZero(b);
    }
  }

  // ---------------------------------------------------------------------
  // What one press of the button does

  /** The checks have passed, the session is open and the step is non-zero:
      the batch loop runs. */
  predicate Dispatches(f: Form, env: Env) {
    AllFilled(f) && f.excelFile.value.Readable? &&
    RequiredColumns <= f.excelFile.value.table.columns &&
    env.sessionOk && f.batchSize > 0
  }

  /** The rows of the uploaded table. */
  function TableRows(f: Form): seq<Row>
    requires f.excelFile.Some? && f.excelFile.value.Readable?
  {
    f.excelFile.value.table.rows
  }

  /** The first failing row of a run (the row count when none fails). */
  function Failure(f: Form, env: Env): nat
    requires f.excelFile.Some? && f.excelFile.value.Readable?
  {
    FirstFailure(env.raises, 0, |TableRows(f)|)
  }

  /** Nothing is sent, nothing slept and the session is never closed unless
      all six inputs are present, the table has the three columns, the
      session opens and the batch size is non-zero; each failed check ends
      the run with its own message, and a session that cannot be opened or a
      zero step ends it in error. */
  lemma PreflightGate(f: Form, env: Env)
    ensures var rep := Handle(f, env);
      && (rep.outcome == FillAllFields <==> !AllFilled(f))
      && (rep.outcome == InvalidExcel <==> AllFilled(f) && f.excelFile.value.Unreadable?)
      && (rep.outcome == MissingColumns <==>
            AllFilled(f) && f.excelFile.value.Readable? &&
            !(RequiredColumns <= f.excelFile.value.table.columns))
      && ((AllFilled(f) && f.excelFile.value.Readable? &&
           RequiredColumns <= f.excelFile.value.table.columns &&
           (!env.sessionOk || f.batchSize == 0)) ==> rep.outcome == Error)
      && (!Dispatches(f, env) ==> rep.log == [] && rep.sentCount == 0 && rep.clock == 0)
  {
  }

  /** Once the checks pass, the report is the batch loop's state from the
      start: its counter and clock as they are, its log closed by the quit
      and a success only when no row raised and the session closed normally,
      and an error otherwise. */
  lemma Dispatched(f: Form, env: Env)
    requires Dispatches(f, env)
    ensures var rep := Handle(f, env);
            var s := RunBatches(JobOf(f, f.excelFile.value.table), env, Initial, 0);
      && rep.sentCount == s.sent && rep.clock == s.clock
      && (if !s.raised && env.quitOk then rep.outcome == Success(s.sent) && rep.log == s.log + [Quit]
          else rep.outcome == Error && rep.log == s.log)
  {
  }

  /** The run succeeds exactly when no row raises and the session closes
      normally, and then reports every row sent; otherwise it ends in error.
      The counter stops at the first failing row. The session is closed only
      on success. */
  lemma RunOutcome(f: Form, env: Env)
    requires Dispatches(f, env)
    ensures var n, k, rep := |TableRows(f)|, Failure(f, env), Handle(f, env);
      && rep.outcome == (if k == n && env.quitOk then Success(n) else Error)
      && rep.sentCount == k
      && (Quit in rep.log <==> k == n && env.quitOk)
  {
    var job := JobOf(f, f.excelFile.value.table);
    var s := RunBatches(job, env, Initial, 0);
    Dispatched(f, env);
    RunFromStart(job, env);
    AppendViews(s.log, Quit);
  }

  /** The rows are sent in table order up to the first failure; batches
      1 .. m are announced and m - 1 pauses taken. */
  lemma RunOrder(f: Form, env: Env)
    requires Dispatches(f, env)
    ensures var n, k, rep := |TableRows(f)|, Failure(f, env), Handle(f, env);
            var m := BatchesStarted(n, f.batchSize, k);
      && SentRows(rep.log) == Span(0, k)
      && BatchNumbers(rep.log) == Span(1, m)
      && Pauses(rep.log) == (if n == 0 then 0 else m - 1)
  {
    var job := JobOf(f, f.excelFile.value.table);
    var s := RunBatches(job, env, Initial, 0);
    Dispatched(f, env);
    RunFromStart(job, env);
    AppendViews(s.log, Quit);
  }

  /** The requested sleep is D seconds per email sent plus P minutes per
      pause between batches: with m batches started, k * D + (m - 1) * P * 60
      seconds, which is n * D + (ceil(n / b) - 1) * P * 60 when no row
      raises. */
  lemma RunClock(f: Form, env: Env)
    requires Dispatches(f, env)
    ensures var n, k, rep := |TableRows(f)|, Failure(f, env), Handle(f, env);
            var m := BatchesStarted(n, f.batchSize, k);
      && Sleeps(rep.log) == k
      && rep.clock == Waited(rep.log)
      && rep.clock == k * f.emailDelay + Pauses(rep.log) * (f.batchDelay * 60)
      && rep.clock == k * f.emailDelay + (if n == 0 then 0 else m - 1) * (f.batchDelay * 60)
  {
    var job := JobOf(f, f.excelFile.value.table);
    var s := RunBatches(job, env, Initial, 0);
    Dispatched(f, env);
    RunFromStart(job, env);
    GoodClock(job, s);
    AppendViews(s.log, Quit);
  }

  /** In a state that keeps the invariant, the clock is D seconds per email
      sent plus P minutes per pause. */
  lemma GoodClock(job: Job, s: State)
    requires ValidJob(job) && Good(job, s)
    ensures Sleeps(s.log) == s.sent
    ensures s.clock == s.sent * job.emailDelay + Pauses(s.log) * (job.batchDelay * 60)
  {
    WaitedPaced(job, s.log);
  }

  /** Every message goes from the sender to its row's address with the
      form's subject, the row's body and the resume, and is followed by the
      per-email sleep. */
  lemma RunMessages(f: Form, env: Env)
    requires Dispatches(f, env)
    ensures var job, rep := JobOf(f, f.excelFile.value.table), Handle(f, env);
      && Conforms(job, rep.log)
      && SleepAfterEachSend(job, rep.log)
  {
    var job := JobOf(f, f.excelFile.value.table);
    var s := RunBatches(job, env, Initial, 0);
    RunFromStart(job, env);
    if !s.raised {
      AppendConforms(job, s.log, Quit);
    }
  }
}
