/** The log the batch loop writes, in closed form: batch by batch, the
    announcement, the messages of its rows up to the first failure, and the
    pause before the next batch. Its views are computed here on plain
    sequences of events; module ScheduleProofs shows that RunBatches writes
    exactly this log. */
module LoopLog {
  import opened Mailer
  import opened Schedule
  import opened Batches
  import opened EventLog

  /** Each view of a log made of two parts is made of the views of the
      parts. */
  lemma {:induction false} ConcatViews(a: seq<Event>, c: seq<Event>)
    ensures SentRows(a + c) == SentRows(a) + SentRows(c)
    ensures BatchNumbers(a + c) == BatchNumbers(a) + BatchNumbers(c)
    ensures Pauses(a + c) == Pauses(a) + Pauses(c)
    decreases |c|
  {
    if c == [] {
      assert a + c == a;
    } else {
      var init, e := c[..|c| - 1], c[|c| - 1];
      assert c == init + [e];
      assert a + c == (a + init) + [e];
      ConcatViews(a, init);
      AppendViews(a + init, e);
      AppendViews(init, e);
      AppendAssociates(SentRows(a), SentRows(init), if e.Sent? then [e.row] else []);
      AppendAssociates(BatchNumbers(a), BatchNumbers(init), if e.BatchStart? then [e.number] else []);
    }
  }

  /** The log of one event. */
  lemma OneViews(e: Event)
    ensures SentRows([e]) == (if e.Sent? then [e.row] else [])
    ensures BatchNumbers([e]) == (if e.BatchStart? then [e.number] else [])
    ensures Pauses([e]) == (if e.Pause? then 1 else 0)
  {
    AppendViews([], e);
    assert [] + [e] == [e];
  }

  /** A message followed by a sleep records the message's row and no batch
      or pause. */
  lemma SentThenSleepViews(sent: Event, seconds: nat)
    requires sent.Sent?
    ensures SentRows([sent, Sleep(seconds)]) == [sent.row]
    ensures BatchNumbers([sent, Sleep(seconds)]) == []
    ensures Pauses([sent, Sleep(seconds)]) == 0
  {
    OneViews(sent);
    AppendViews([sent], Sleep(seconds));
    assert [sent, Sleep(seconds)] == [sent] + [Sleep(seconds)];
  }

  /** Sending row j records row j and no batch or pause. */
  lemma DeliveryViews(job: Job, j: nat)
    requires ValidJob(job) && j < |job.rows|
    ensures SentRows(Delivery(job, j)) == [j]
    ensures BatchNumbers(Delivery(job, j)) == []
    ensures Pauses(Delivery(job, j)) == 0
  {
    var row := job.rows[j];
    var sent := Sent(j, job.sender, row["email"], Compose(job, row));
    assert Delivery(job, j) == [sent, Sleep(job.emailDelay)];
    SentThenSleepViews(sent, job.emailDelay);
  }

  /** The events of sending rows a .. b - 1 in order. */
  function Deliveries(job: Job, a: nat, b: nat): seq<Event>
    requires ValidJob(job) && a <= b <= |job.rows|
    decreases b - a
  {
    if a == b then [] else Delivery(job, a) + Deliveries(job, a + 1, b)
  }

  /** Those events send rows a .. b - 1, in order, and announce and pause
      nothing. */
  lemma {:induction false} DeliveriesViews(job: Job, a: nat, b: nat)
    requires ValidJob(job) && a <= b <= |job.rows|
    ensures SentRows(Deliveries(job, a, b)) == Span(a, b - a)
    ensures BatchNumbers(Deliveries(job, a, b)) == []
    ensures Pauses(Deliveries(job, a, b)) == 0
    decreases b - a
  {
    if a < b {
      var first, rest := Delivery(job, a), Deliveries(job, a + 1, b);
      assert Deliveries(job, a, b) == first + rest;
      DeliveryViews(job, a);
      DeliveriesViews(job, a + 1, b);
      JoinDelivery(first, rest, a, b);
    }
  }

  /** Sending row a and then rows a + 1 .. e - 1 sends rows a .. e - 1,
      and announces and pauses nothing. */
  lemma JoinDelivery(first: seq<Event>, rest: seq<Event>, a: nat, e: nat)
    requires a < e
    requires SentRows(first) == [a] && BatchNumbers(first) == [] && Pauses(first) == 0
    requires SentRows(rest) == Span(a + 1, e - (a + 1)) && BatchNumbers(rest) == [] && Pauses(rest) == 0
    ensures SentRows(first + rest) == Span(a, e - a)
    ensures BatchNumbers(first + rest) == []
    ensures Pauses(first + rest) == 0
  {
    ConcatViews(first, rest);
    assert e - (a + 1) == (e - a) - 1;
  }

  /** Where the batch at offset i stops sending, exclusive, when the first
      failure is at k (k = n when no row fails). */
  function BatchEnd(job: Job, k: nat, i: nat): nat {
    Min(k, Min(i + job.batchSize, |job.rows|))
  }

  /** The events of the batch at offset i when the first failure is at k:
      its announcement, then its rows [i, min(i + B, n)) up to the failure.
      Offsets the loop never reaches have no events. */
  function BatchEvents(job: Job, k: nat, i: nat): seq<Event>
    requires ValidJob(job) && k <= |job.rows|
  {
    if i < |job.rows| && i <= k then
      [BatchStart(BatchNumber(i, job.batchSize))] + Deliveries(job, i, BatchEnd(job, k, i))
    else []
  }

  /** Announcing batch p before some events adds p to the numbers
      announced and nothing else. */
  lemma AnnouncedViews(p: nat, rest: seq<Event>)
    ensures SentRows([BatchStart(p)] + rest) == SentRows(rest)
    ensures BatchNumbers([BatchStart(p)] + rest) == [p] + BatchNumbers(rest)
    ensures Pauses([BatchStart(p)] + rest) == Pauses(rest)
  {
    OneViews(BatchStart(p));
    ConcatViews([BatchStart(p)], rest);
  }

  /** A batch the loop reaches is announced with its number, sends its rows
      up to the first failure, and does not pause. */
  lemma BatchEventsViews(job: Job, k: nat, i: nat)
    requires ValidJob(job) && i < |job.rows| && i <= k <= |job.rows|
    ensures SentRows(BatchEvents(job, k, i)) == Span(i, BatchEnd(job, k, i) - i)
    ensures BatchNumbers(BatchEvents(job, k, i)) == [BatchNumber(i, job.batchSize)]
    ensures Pauses(BatchEvents(job, k, i)) == 0
  {
    var e, p := BatchEnd(job, k, i), BatchNumber(i, job.batchSize);
    var rows := Deliveries(job, i, e);
    assert BatchEvents(job, k, i) == [BatchStart(p)] + rows;
    DeliveriesViews(job, i, e);
    AnnouncedViews(p, rows);
    assert [p] + [] == [p];
  }

  /** The logs of the batches at offsets i, i + b, ... joined by the pause
      between two batches: the loop stops after the batch that holds the
      first failure k or reaches the end n. */
  function Joined(batch: nat -> seq<Event>, n: nat, b: nat, k: nat, i: nat, minutes: nat): seq<Event>
    requires b > 0 && i <= k <= n
    decreases n - i
  {
    if i == n then []
    else if k < i + b || n <= i + b then batch(i)
    else batch(i) + [Pause(minutes)] + Joined(batch, n, b, k, i + b, minutes)
  }

  /** The events of the batch loop from offset i on, with the first failure
      at k. */
  function RunLog(job: Job, i: nat, k: nat): seq<Event>
    requires ValidJob(job) && i <= k <= |job.rows|
  {
    Joined((j: nat) => BatchEvents(job, k, j), |job.rows|, job.batchSize, k, i, job.batchDelay)
  }

  /** The loop from offset i on runs the batch at i, then stops if that
      batch holds the first failure or is the last one, and otherwise
      pauses and goes on from i + b. */
  lemma RunLogStep(job: Job, i: nat, k: nat)
    requires ValidJob(job) && i < |job.rows| && i <= k <= |job.rows|
    ensures var n, b := |job.rows|, job.batchSize;
      RunLog(job, i, k) ==
        if k < i + b || n <= i + b then BatchEvents(job, k, i)
        else BatchEvents(job, k, i) + [Pause(job.batchDelay)] + RunLog(job, i + b, k)
  {
  }

  /** The logs of the slices in order, the q-th numbered p + q, with a
      pause between two slices. */
  function SliceJoin(piece: ((nat, nat), nat) -> seq<Event>, slices: seq<(nat, nat)>, p: nat, minutes: nat): seq<Event>
    decreases |slices|
  {
    if slices == [] then []
    else if |slices| == 1 then piece(slices[0], p)
    else piece(slices[0], p) + [Pause(minutes)] + SliceJoin(piece, slices[1..], p + 1, minutes)
  }

  /** The log of one slice numbered p: its announcement, then its rows. */
  function SliceEvents(job: Job, slice: (nat, nat), p: nat): seq<Event>
    requires ValidJob(job)
  {
    if slice.0 + slice.1 <= |job.rows| then
      [BatchStart(p)] + Deliveries(job, slice.0, slice.0 + slice.1)
    else []
  }

  /** When no batch fails, the batches from offset i on are the slices of
      range(i, n, b), numbered from i // b + 1, joined by the pauses. */
  lemma {:induction false} JoinedSlices(batch: nat -> seq<Event>, piece: ((nat, nat), nat) -> seq<Event>,
                                        n: nat, b: nat, i: nat, minutes: nat)
    requires b > 0 && i <= n
    requires forall j :: i <= j < n ==> batch(j) == piece((j, Min(j + b, n) - j), BatchNumber(j, b))
    ensures Joined(batch, n, b, n, i, minutes) == SliceJoin(piece, Slices(n, b, i), BatchNumber(i, b), minutes)
    decreases n - i
  {
    if i < n {
      var p, rest := BatchNumber(i, b), Slices(n, b, i + b);
      var slices := Slices(n, b, i);
      assert slices[0] == (i, Min(i + b, n) - i) && slices[1..] == rest;
      if n <= i + b {
        assert rest == [];
      } else {
        JoinedSlices(batch, piece, n, b, i + b, minutes);
        BatchNumberNext(i, b);
      }
    }
  }

  /** When no row raises, the batch at offset j is the log of the slice
      that starts at j and ends at min(j + b, n), numbered j // b + 1. */
  lemma BatchSlice(job: Job, j: nat)
    requires ValidJob(job) && j < |job.rows|
    ensures var n, b := |job.rows|, job.batchSize;
      var slice: (nat, nat) := (j, Min(j + b, n) - j);
      BatchEvents(job, n, j) == SliceEvents(job, slice, BatchNumber(j, b))
  {
    var e := Min(j + job.batchSize, |job.rows|);
    assert BatchEnd(job, |job.rows|, j) == e == j + (e - j);
  }

  /** When no row raises, the loop from offset i on sends the slices
      range(i, n, b) gives, in order, numbered from i // b + 1, with a pause
      between two of them. */
  lemma SlicesRunLog(job: Job, i: nat)
    requires ValidJob(job) && i <= |job.rows|
    ensures var n, b := |job.rows|, job.batchSize;
      RunLog(job, i, n) ==
        SliceJoin((slice: (nat, nat), p: nat) => SliceEvents(job, slice, p), Slices(n, b, i), BatchNumber(i, b), job.batchDelay)
  {
    var n, b := |job.rows|, job.batchSize;
    var batch := (j: nat) => BatchEvents(job, n, j);
    var piece := (slice: (nat, nat), p: nat) => SliceEvents(job, slice, p);
    forall j | i <= j < n
      ensures batch(j) == piece((j, Min(j + b, n) - j), BatchNumber(j, b))
    {
      BatchSlice(job, j);
    }
    JoinedSlices(batch, piece, n, b, i, job.batchDelay);
  }

  /** When each batch sends its rows up to the first failure k, the batches
      from offset i on send rows i .. k - 1, each once, in table order. */
  lemma {:induction false} JoinedSent(batch: nat -> seq<Event>, n: nat, b: nat, k: nat, i: nat, minutes: nat)
    requires b > 0 && i <= k <= n
    requires forall j :: i <= j < n && j <= k ==> SentRows(batch(j)) == Span(j, Min(k, Min(j + b, n)) - j)
    ensures SentRows(Joined(batch, n, b, k, i, minutes)) == Span(i, k - i)
    decreases n - i
  {
    if i < n {
      var e := Min(k, Min(i + b, n));
      if k < i + b || n <= i + b {
        assert e == k;
      } else {
        assert e == i + b;
        JoinedSent(batch, n, b, k, e, minutes);
        JoinSent(batch(i), minutes, Joined(batch, n, b, k, e, minutes), i, e, k);
      }
    }
  }

  /** A batch sending rows i .. e - 1, the pause after it, and batches
      sending rows e .. k - 1 send rows i .. k - 1. */
  lemma JoinSent(first: seq<Event>, minutes: nat, rest: seq<Event>, i: nat, e: nat, k: nat)
    requires i <= e <= k
    requires SentRows(first) == Span(i, e - i)
    requires SentRows(rest) == Span(e, k - e)
    ensures SentRows(first + [Pause(minutes)] + rest) == Span(i, k - i)
  {
    AppendViews(first, Pause(minutes));
    ConcatViews(first + [Pause(minutes)], rest);
    SpanSplit(i, e - i, k - e);
  }

  /** When each batch is announced with its number, the batches from offset
      i on are announced with the consecutive numbers p, p + 1, ..., one for
      each batch started, where p = i // b + 1. */
  lemma {:induction false} JoinedNumbers(batch: nat -> seq<Event>, n: nat, b: nat, k: nat, i: nat, minutes: nat, p: nat)
    requires b > 0 && i <= k <= n && p == BatchNumber(i, b)
    requires forall j :: i <= j < n && j <= k ==> BatchNumbers(batch(j)) == [BatchNumber(j, b)]
    ensures BatchNumbers(Joined(batch, n, b, k, i, minutes)) == Span(p, Started(n, b, k, i))
    decreases n - i
  {
    if i < n {
      if k < i + b || n <= i + b {
        SpanOne(p);
      } else {
        assert BatchNumber(i + b, b) == p + 1;
        JoinedNumbers(batch, n, b, k, i + b, minutes, p + 1);
        JoinNumbers(batch(i), minutes, Joined(batch, n, b, k, i + b, minutes), p, Started(n, b, k, i + b));
      }
    }
  }

  /** A batch announced as p, the pause after it, and c batches announced
      from p + 1 on announce c + 1 batches from p on. */
  lemma JoinNumbers(first: seq<Event>, minutes: nat, rest: seq<Event>, p: nat, c: nat)
    requires BatchNumbers(first) == [p]
    requires BatchNumbers(rest) == Span(p + 1, c)
    ensures BatchNumbers(first + [Pause(minutes)] + rest) == Span(p, c + 1)
  {
    AppendViews(first, Pause(minutes));
    ConcatViews(first + [Pause(minutes)], rest);
  }

  /** When no batch pauses by itself, the batches from offset i on pause
      once between each two of them. */
  lemma {:induction false} JoinedPauses(batch: nat -> seq<Event>, n: nat, b: nat, k: nat, i: nat, minutes: nat)
    requires b > 0 && i <= k <= n
    requires forall j :: i <= j < n && j <= k ==> Pauses(batch(j)) == 0
    ensures i < n ==> Pauses(Joined(batch, n, b, k, i, minutes)) + 1 == Started(n, b, k, i)
    ensures i == n ==> Pauses(Joined(batch, n, b, k, i, minutes)) == 0
    decreases n - i
  {
    if i < n && !(k < i + b || n <= i + b) {
      var rest := Joined(batch, n, b, k, i + b, minutes);
      assert Joined(batch, n, b, k, i, minutes) == batch(i) + [Pause(minutes)] + rest;
      assert Started(n, b, k, i) == 1 + Started(n, b, k, i + b);
      JoinedPauses(batch, n, b, k, i + b, minutes);
      JoinPauses(batch(i), minutes, rest);
    }
  }

  /** A batch, the pause after it, and the batches after that pause once
      more than the batch and those batches. */
  lemma JoinPauses(first: seq<Event>, minutes: nat, rest: seq<Event>)
    ensures Pauses(first + [Pause(minutes)] + rest) == Pauses(first) + 1 + Pauses(rest)
  {
    AppendViews(first, Pause(minutes));
    ConcatViews(first + [Pause(minutes)], rest);
  }

  /** The whole loop with the first failure at k sends rows 0 .. k - 1 in
      order, announces batches 1 .. c where c counts the batches started,
      and pauses c - 1 times. */
  lemma RunLogViews(job: Job, k: nat)
    requires ValidJob(job) && k <= |job.rows|
    ensures var log, n, b := RunLog(job, 0, k), |job.rows|, job.batchSize;
      && SentRows(log) == Span(0, k)
      && BatchNumbers(log) == Span(1, Started(n, b, k, 0))
      && Pauses(log) == (if n == 0 then 0 else Started(n, b, k, 0) - 1)
  {
    var n, b := |job.rows|, job.batchSize;
    var batch := (j: nat) => BatchEvents(job, k, j);
    forall j | 0 <= j < n && j <= k
      ensures SentRows(batch(j)) == Span(j, Min(k, Min(j + b, n)) - j)
      ensures BatchNumbers(batch(j)) == [BatchNumber(j, b)]
      ensures Pauses(batch(j)) == 0
    {
      BatchEventsViews(job, k, j);
    }
    JoinedSent(batch, n, b, k, 0, job.batchDelay);
    JoinedNumbers(batch, n, b, k, 0, job.batchDelay, 1);
    JoinedPauses(batch, n, b, k, 0, job.batchDelay);
    assert RunLog(job, 0, k) == Joined(batch, n, b, k, 0, job.batchDelay);
    assert Span(0, k - 0) == Span(0, k);
  }
}
