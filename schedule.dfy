/** The dispatch schedule of the send-button handler, as functions: the
    pre-flight checks, the batch loop over row offsets 0, B, 2B, ..., the
    row loop inside one batch, and the pacing sleeps. The handler method in
    module SendButton is proved to compute exactly Handle. */
module Schedule {
  import opened Mailer

  function Min(a: nat, b: nat): nat {
    if a <= b then a else b
  }

  /** All six inputs are present (a file uploaded, a text field non-empty). */
  predicate AllFilled(f: Form) {
    f.excelFile.Some? && f.resumeFile.Some? &&
    f.senderEmail != "" && f.senderPassword != "" &&
    f.subject != "" && f.messageTemplate != ""
  }

  /** The part of the form the loops use, once the checks have passed. */
  datatype Job = Job(
    rows: seq<Row>,
    sender: string,
    subject: string,
    template: string,
    attachment: string,
    batchSize: nat,
    emailDelay: nat,
    batchDelay: nat)

  /** Every row can be looked up by the three required columns. */
  predicate Addressable(rows: seq<Row>) {
    forall j :: 0 <= j < |rows| ==> "name" in rows[j] && "company" in rows[j] && "email" in rows[j]
  }

  predicate ValidJob(job: Job) {
    job.batchSize > 0 && Addressable(job.rows)
  }

  function JobOf(f: Form, t: Table): (job: Job)
    requires f.resumeFile.Some? && RequiredColumns <= t.columns
    ensures Addressable(job.rows) && job.rows == t.rows
  {
    assert forall j :: 0 <= j < |t.rows| ==> t.rows[j] in t.rows;
    Job(t.rows, f.senderEmail, f.subject, f.messageTemplate, f.resumeFile.value.name,
        f.batchSize, f.emailDelay, f.batchDelay)
  }

  /** The message built for one row: sender, recipient and subject headers,
      the formatted body and the resume. */
  function Compose(job: Job, row: Row): Message
    requires "name" in row && "company" in row && "email" in row
  {
    Message(job.sender, row["email"], job.subject,
            Formatted(job.template, row["name"], row["company"]), job.attachment)
  }

  /** The local state of the handler while it sends: the sent counter, the
      seconds of sleep requested so far, the events so far, and whether an
      exception has ended the run. */
  datatype State = State(sent: nat, clock: nat, log: seq<Event>, raised: bool)

  const Initial: State := State(0, 0, [], false)

  /** The events of sending row j: the message, then the per-email sleep. */
  function Delivery(job: Job, j: nat): seq<Event>
    requires ValidJob(job) && j < |job.rows|
  {
    var row := job.rows[j];
    [Sent(j, job.sender, row["email"], Compose(job, row)), Sleep(job.emailDelay)]
  }

  /** Row j is sent, the counter goes up, and the per-email sleep follows. */
  function Deliver(job: Job, s: State, j: nat): State
    requires ValidJob(job) && j < |job.rows|
  {
    s.(sent := s.sent + 1, clock := s.clock + job.emailDelay, log := s.log + Delivery(job, j))
  }

  /** The number the batch at offset i is announced with, i // B + 1,
      counted without division: 1 below B and one more for every B further
      on (Batches.BatchNumberQuotient shows it is the quotient). */
  function BatchNumber(i: nat, b: nat): nat
    requires b > 0
    decreases i
  {
    if i < b then 1 else 1 + BatchNumber(i - b, b)
  }

  /** The announcement that opens the batch at offset i. */
  function Announce(job: Job, s: State, i: nat): State
    requires job.batchSize > 0
  {
    s.(log := s.log + [BatchStart(BatchNumber(i, job.batchSize))])
  }

  /** The warning and the sleep between two batches. */
  function PauseAfter(job: Job, s: State): State {
    s.(clock := s.clock + job.batchDelay * 60, log := s.log + [Pause(job.batchDelay)])
  }

  /** Rows j .. end-1 of one batch, in order; the first row whose send
      raises stops everything. */
  function SendRows(job: Job, env: Env, s: State, j: nat, end: nat): State
    requires ValidJob(job) && j <= end <= |job.rows|
    decreases end - j
  {
    if j == end then s
    else if j in env.raises then s.(raised := true)
    else SendRows(job, env, Deliver(job, s, j), j + 1, end)
  }

  /** The batch at offset i: announce it, then send its rows
      [i, min(i + B, N)). */
  function Batch(job: Job, env: Env, s: State, i: nat): State
    requires ValidJob(job) && i < |job.rows|
  {
    SendRows(job, env, Announce(job, s, i), i, Min(i + job.batchSize, |job.rows|))
  }

  /** The batch loop from offset i on: each batch, then a pause only if
      rows remain. */
  function RunBatches(job: Job, env: Env, s: State, i: nat): State
    requires ValidJob(job)
    decreases |job.rows| - i
  {
    var n := |job.rows|;
    if i >= n then s
    else
      var s1 := Batch(job, env, s, i);
      if s1.raised then s1
      else RunBatches(job, env, if i + job.batchSize < n then PauseAfter(job, s1) else s1,
                      i + job.batchSize)
  }

  /** One press of the send button. */
  function Handle(f: Form, env: Env): Report {
    if !AllFilled(f) then Report(FillAllFields, [], 0, 0)
    else match f.excelFile.value
      case Unreadable => Report(InvalidExcel, [], 0, 0)
      case Readable(t) =>
        if !(RequiredColumns <= t.columns) then Report(MissingColumns, [], 0, 0)
        // opening the session raises, or range() raises on a zero step
        else if !env.sessionOk || f.batchSize == 0 then Report(Error, [], 0, 0)
        else
          var s := RunBatches(JobOf(f, t), env, Initial, 0);
          if s.raised then Report(Error, s.log, s.sent, s.clock)
          // closing the session raises, still inside the try
          else if !env.quitOk then Report(Error, s.log, s.sent, s.clock)
          else Report(Success(s.sent), s.log + [Quit], s.sent, s.clock)
  }
}
