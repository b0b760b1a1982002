/** Views of the handler's event log, and what holds of the handler's state
    at every step. The views are defined from the end of the log, because
    the handler only ever appends to it. */
module EventLog {
  import opened Mailer
  import opened Schedule
  import opened Batches

  /** The rows whose messages were sent, in order. */
  function SentRows(log: seq<Event>): seq<nat> {
    if log == [] then []
    else SentRows(log[..|log| - 1]) + (if log[|log| - 1].Sent? then [log[|log| - 1].row] else [])
  }

  /** The numbers of the batches announced, in order. */
  function BatchNumbers(log: seq<Event>): seq<nat> {
    if log == [] then []
    else
      BatchNumbers(log[..|log| - 1]) +
      (if log[|log| - 1].BatchStart? then [log[|log| - 1].number] else [])
  }

  /** The number of pauses between batches. */
  function Pauses(log: seq<Event>): nat {
    if log == [] then 0 else Pauses(log[..|log| - 1]) + (if log[|log| - 1].Pause? then 1 else 0)
  }

  /** The number of per-email sleeps. */
  function Sleeps(log: seq<Event>): nat {
    if log == [] then 0 else Sleeps(log[..|log| - 1]) + (if log[|log| - 1].Sleep? then 1 else 0)
  }

  /** The seconds of sleep one event asks for. */
  function Seconds(e: Event): nat {
    match e
    case Sleep(seconds) => seconds
    case Pause(minutes) => minutes * 60
    case _ => 0
  }

  /** The seconds of sleep the log asks for. */
  function Waited(log: seq<Event>): nat {
    if log == [] then 0 else Waited(log[..|log| - 1]) + Seconds(log[|log| - 1])
  }

  /** One event is as the handler promises: a sleep lasts the per-email
      delay, a pause the per-batch delay, and a message goes from the sender
      to the row's address, with the form's subject, the row's formatted body
      and the resume attached. */
  predicate EventConforms(job: Job, e: Event)
    requires Addressable(job.rows)
  {
    match e
    case Sleep(seconds) => seconds == job.emailDelay
    case Pause(minutes) => minutes == job.batchDelay
    case Sent(row, envelopeFrom, envelopeTo, message) =>
      row < |job.rows| &&
      envelopeFrom == job.sender &&
      envelopeTo == job.rows[row]["email"] &&
      message.from == job.sender &&
      message.to == job.rows[row]["email"] &&
      message.subject == job.subject &&
      message.body == Formatted(job.template, job.rows[row]["name"], job.rows[row]["company"]) &&
      message.attachmentName == job.attachment
    case _ => true
  }

  /** Every event of the log conforms. */
  predicate Conforms(job: Job, log: seq<Event>)
    requires Addressable(job.rows)
  {
    log == [] || (Conforms(job, log[..|log| - 1]) && EventConforms(job, log[|log| - 1]))
  }

  /** Each sent message is followed at once by the per-email sleep. */
  predicate SleepAfterEachSend(job: Job, log: seq<Event>)
    decreases |log|
  {
    if log == [] then true
    else
      var last, init := log[|log| - 1], log[..|log| - 1];
      if last.Sent? then false
      else if last == Sleep(job.emailDelay) && init != [] && init[|init| - 1].Sent? then
        SleepAfterEachSend(job, init[..|init| - 1])
      else SleepAfterEachSend(job, init)
  }

  /** Appending one event changes each count and list by that event alone. */
  lemma AppendViews(log: seq<Event>, e: Event)
    ensures SentRows(log + [e]) == SentRows(log) + (if e.Sent? then [e.row] else [])
    ensures BatchNumbers(log + [e]) == BatchNumbers(log) + (if e.BatchStart? then [e.number] else [])
    ensures Pauses(log + [e]) == Pauses(log) + (if e.Pause? then 1 else 0)
    ensures Sleeps(log + [e]) == Sleeps(log) + (if e.Sleep? then 1 else 0)
    ensures Waited(log + [e]) == Waited(log) + Seconds(e)
  {
    assert (log + [e])[..|log|] == log;
  }

  /** Appending one event keeps the log conforming exactly when the event
      conforms, and keeps every message followed by its sleep when it is
      neither a message nor a sleep. */
  lemma AppendConforms(job: Job, log: seq<Event>, e: Event)
    requires Addressable(job.rows)
    ensures Conforms(job, log + [e]) <==> Conforms(job, log) && EventConforms(job, e)
    ensures !e.Sent? && !e.Sleep? ==> (SleepAfterEachSend(job, log + [e]) <==> SleepAfterEachSend(job, log))
  {
    assert (log + [e])[..|log|] == log;
  }

  /** Appending a message and its sleep keeps every message followed by
      its sleep. */
  lemma AppendSentAndSleep(job: Job, log: seq<Event>, sent: Event)
    requires sent.Sent? && SleepAfterEachSend(job, log)
    ensures SleepAfterEachSend(job, log + [sent, Sleep(job.emailDelay)])
  {
    var full := log + [sent, Sleep(job.emailDelay)];
    assert full[..|full| - 1] == log + [sent];
    assert (log + [sent])[..|log|] == log;
  }

  /** In a conforming log the sleep requested is D seconds per email sleep
      plus P minutes per pause. */
  lemma {:induction false} WaitedPaced(job: Job, log: seq<Event>)
    requires Addressable(job.rows) && Conforms(job, log)
    ensures Waited(log) == Sleeps(log) * job.emailDelay + Pauses(log) * (job.batchDelay * 60)
    decreases |log|
  {
    if log != [] {
      var last, init := log[|log| - 1], log[..|log| - 1];
      WaitedPaced(job, init);
      var d, p := job.emailDelay, job.batchDelay * 60;
      var sl: nat, pl: nat := (if last.Sleep? then 1 else 0), (if last.Pause? then 1 else 0);
      assert Seconds(last) == sl * d + pl * p;
      Distribute(Sleeps(init), sl, d);
      Distribute(Pauses(init), pl, p);
    }
  }

  /** What holds of the handler's state at every step: the counter is the
      number of messages sent, the clock the sleep the log asks for, one
      sleep per message, every event conforms, and the session has not been
      closed. */
  predicate Good(job: Job, s: State)
    requires Addressable(job.rows)
  {
    s.sent == |SentRows(s.log)| && s.clock == Waited(s.log) && Sleeps(s.log) == s.sent &&
    Quit !in s.log && Conforms(job, s.log) && SleepAfterEachSend(job, s.log)
  }
}
