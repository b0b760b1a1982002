# Cold mailer send-button handler in Dafny

This project models the send-button handler of the cold-mail sender
(`app.py`, lines 61-147). The handler runs in four stages:

1. It checks that the six inputs are present.
2. It reads the uploaded workbook and checks that it has the `name`,
   `company` and `email` columns.
3. It opens a mail session.
4. It walks the rows in batches of `batch_size`. For each row it builds a
   message, sends it, increments `sent_count` and sleeps `email_delay`
   seconds. After each batch that is not the last it sleeps `batch_delay`
   minutes. The first exception ends the run.

The model has three layers:

- **SendButton.** The handler as an imperative method (`HandleSendButton`).
  Its try block is the nested loops of `SendBatches`, which update the locals
  `sentCount`, `clock` (the seconds of sleep requested) and `log` (the
  observable events) step by step. Both methods are proved equal to the
  functional description in module `Schedule` (`Handle`, `RunBatches`).
- **Batches, EventLog, LoopLog.** Closed forms for what the loops produce:
  - the slices each batch takes, which `RunSlices` proves are the slices
    the loop sends when no row raises;
  - the number of batches;
  - the first failing row;
  - the log the batch loop writes, batch by batch.
- **ScheduleProofs.** The properties of a whole press of the button: what is
  sent, in what order, how many batches and pauses, how much sleep, what the
  counter reads, and when the session is closed.

The outside world is a parameter:

- `Env.sessionOk` says whether connecting, upgrading to TLS and logging in
  succeed.
- `Env.raises` is the set of row indices for which building or sending the
  message raises.
- `Env.quitOk` says whether closing the session with `server.quit()`
  returns normally. When it raises, the run ends in error after every row
  was sent.
- Sleeps are recorded as requested durations.
- The workbook reader's result is an input: `Readable(table)` or
  `Unreadable`.

As written, the handler does not do the following, and neither does the
model:

- It does not match column headers loosely. Only the exact names `name`,
  `company` and `email` pass the column check.
- It does not drop rows with empty cells. The run covers all `len(df)` rows,
  and an empty table completes with `Success(0)`.
- It does not read the resume once per run. It reads the upload once per
  row.
- It does not close the session after an exception. `server.quit()` is
  reached only after every row was sent.

A zero batch size makes `range()` raise inside the `try`, so the run ends
with an error before anything is sent.

The batch number `i // batch_size + 1` is computed in the functional model by
repeated subtraction (`Schedule.BatchNumber`). `Batches.BatchNumberQuotient`
proves that this equals the quotient the handler computes. The method
itself uses the division.

## Model

In this table, n is the number of rows, b is `batch_size`, and k is the
first row whose send raises (n when none does). D is `email_delay` and P is
`batch_delay`.

| member | source | states |
|---|---|---|
| SendButton.HandleSendButton | app.py:61-147 | The handler returns exactly the report of `Handle`, which the lemmas below characterise. This covers each early stop, the error path (a row that raises, or `server.quit()` that raises) and the success path, the final counter, the log and the requested sleep. |
| SendButton.SendBatches | app.py:96-141 | The nested loops leave the counter, the sleep, the log and the raised flag exactly as the batch loop `RunBatches` does, from an empty state. |
| Schedule.JobOf | app.py:80-85 | Once the column check passes, every row can be indexed by `name`, `company` and `email`, and the rows are those of the table. |
| Batches.SpanElements | app.py:96-101 | The run of consecutive row indices a .. a + count - 1 has count elements, and the q-th of them is a + q. |
| Batches.SpanSplit | app.py:96-98 | Two adjacent runs of rows join into one run. |
| Batches.Ceil | app.py:96 | ceil(n / b) is the least c with c * b >= n. |
| Batches.SlicesCover | app.py:96-98 | The slices `df.iloc[i:i+b]` for i = 0, b, 2b, ... below n, taken together, are rows 0 .. n - 1, each once, in table order. |
| Batches.SlicesSized | app.py:96-98 | Each slice is non-empty and ends at min(i + b, n). |
| Batches.SlicesContiguous | app.py:96-98 | The first slice starts at the first offset, and each later slice starts where the one before it ends. |
| LoopLog.JoinedSlices | app.py:96-141 | Batches that each write the log of their slice of `range(i, n, b)`, numbered i // b + 1 on, joined by the pauses, write the slices' logs in order with a pause between two of them. |
| LoopLog.BatchSlice | app.py:96-135 | When no row raises, the batch at offset j writes the announcement of batch j // b + 1 and the rows of the slice `df.iloc[j:j+b]`. |
| LoopLog.SlicesRunLog | app.py:96-141 | When no row raises, the loop from offset i on writes, slice after slice of `range(i, n, b)`, the slice's announcement and rows, with a pause between two slices. |
| ScheduleProofs.RunSlices | app.py:89-141 | When no row raises, the whole batch loop writes exactly the slices' logs of `range(0, n, b)`, numbered from 1, joined by the pauses. This ties the loop to the slices of `Batches.Slices`. |
| Batches.SliceCount | app.py:96 | `range(0, n, b)` yields ceil(n / b) offsets; from offset q * b on, ceil(n / b) - q. |
| Batches.CeilAt | app.py:96 | If n lies in (q * b, q * b + b], there are q + 1 batches; if n = q * b, there are q. |
| Batches.FirstFailure | app.py:126-147 | The first raising row in a window lies inside it and raises, or is the window's end. |
| Batches.NoFailureBefore | app.py:126-147 | No row before the first failure raises. |
| Batches.FirstFailureWithin | app.py:96-147 | Inside a batch window that starts no later than the run's first failure, the window's first failure is the run's, cut off at the window's end. |
| Batches.StartedClosedForm | app.py:96-147 | Counting batch by batch, the loop starts k // b + 1 batches when row k raises, and ceil(n / b) when none does. |
| Batches.BatchNumberNext | app.py:96-99 | The offset one step on is announced with the next batch number. |
| Batches.BatchNumberQuotient | app.py:99 | The number announced for offset i is i // b + 1. |
| EventLog.AppendViews | app.py:99-141 | (helper) Appending one event changes the sent rows, batch numbers, pause count, sleep count and requested seconds by that event alone. |
| EventLog.AppendConforms | app.py:103-130 | (helper) Appending an event keeps every event well formed exactly when the new event is well formed. |
| EventLog.AppendSentAndSleep | app.py:126-135 | A message followed by its per-email sleep keeps every message followed by its sleep. |
| EventLog.WaitedPaced | app.py:135-141 | In a well-formed log, the sleep requested is D seconds per email sleep plus P * 60 seconds per batch pause. |
| LoopLog.DeliveryViews | app.py:126-135 | Sending a row records that row and no batch or pause. |
| LoopLog.DeliveriesViews | app.py:101-135 | Sending rows a .. b - 1 records exactly those rows, in order, and no batch or pause. |
| LoopLog.BatchEventsViews | app.py:96-135 | A batch the loop reaches announces its number, sends its rows up to the first failure, and does not pause. |
| LoopLog.JoinedSent | app.py:96-141 | Batches from offset i, joined by the pauses, send rows i .. k - 1, each once, in order. |
| LoopLog.JoinedNumbers | app.py:96-141 | Those batches are announced with consecutive numbers, starting at i // b + 1, one for each batch started. |
| LoopLog.JoinedPauses | app.py:137-141 | There is one pause between each two batches started, and none after the last. |
| LoopLog.RunLogViews | app.py:96-147 | The whole loop sends rows 0 .. k - 1 in order, announces batches 1 .. m, and pauses m - 1 times, where m counts the batches started. |
| ScheduleProofs.SendRowsLog | app.py:101-147 | The rows of one batch are sent up to its first raising row. The batch ends raised exactly when such a row lies inside it. |
| ScheduleProofs.BatchLog | app.py:96-135 | One batch writes its announcement and its rows up to the first failure, and ends raised exactly when the failure falls inside it. |
| ScheduleProofs.LastBatchLog | app.py:96-141 | The batch that holds the first failure, or the last batch, ends the loop. The loop then writes that batch's events and ends raised exactly when some row raises. |
| ScheduleProofs.NextBatchLog | app.py:96-141 | A batch before the failing one that is not the last writes its events and the pause, and the loop goes on from i + b with nothing raised. |
| ScheduleProofs.RunBatchesLog | app.py:96-147 | From offset i on, the batch loop writes the closed-form log and ends raised exactly when some row raises. |
| ScheduleProofs.DeliverGood | app.py:126-135 | Sending a row keeps the state invariant: the counter equals the messages sent and the sleeps taken, the clock equals the sleep the log asks for, every event is well formed, every message is followed by its sleep, and the session is not closed. |
| ScheduleProofs.SendRowsGood | app.py:101-135 | The row loop keeps that invariant. |
| ScheduleProofs.RunBatchesGood | app.py:96-141 | The batch loop keeps that invariant. |
| ScheduleProofs.RunFromStart | app.py:89-141 | From the start, the loop ends raised iff k < n. Its counter is k, it sends rows 0 .. k - 1 in order, it announces batches 1 .. m, it pauses m - 1 times, and the invariant holds. |
| ScheduleProofs.PreflightGate | app.py:63-94 | Each failed check ends the run with its own outcome (missing input, unreadable workbook, missing column), in both directions. A session that cannot be opened, or a zero batch size, ends the run with `Error`. No check that fails lets a message be sent, a sleep requested or the session closed. |
| ScheduleProofs.Dispatched | app.py:89-147 | Once the checks pass, the report carries the batch loop's counter and clock. It is a success, with the quit logged, only when no row raised and `server.quit()` returned normally, and an error with the loop's log otherwise. |
| ScheduleProofs.RunOutcome | app.py:89-147 | The run succeeds iff no row raises and `server.quit()` returns normally, and then reports n sent; otherwise it ends in error. The counter always ends at the first raising row. The session is closed iff the run succeeds. |
| ScheduleProofs.RunOrder | app.py:96-141 | The rows are sent in table order up to the first failure, and none after it. Batches 1 .. m are announced, with m = ceil(n / b) on success. There are m - 1 pauses. |
| ScheduleProofs.GoodClock | app.py:126-141 | In a state that keeps the invariant, one sleep was taken per email sent, and the clock is D seconds per email plus P * 60 seconds per pause. |
| ScheduleProofs.RunClock | app.py:135-141 | One sleep follows each email sent, and none after a failure. The requested sleep is k * D + (m - 1) * P * 60 seconds; on success that is n * D + (ceil(n / b) - 1) * P * 60. |
| ScheduleProofs.RunMessages | app.py:103-135 | Every message goes from `sender_email` to its row's `email`. It has the form's subject, the body formatted from the row's name and company, and the resume's file name. Each is followed at once by the per-email sleep. |

## Left out

- The Streamlit widgets and their rendering (`st.error`, `st.info`, `st.write`, `st.warning`, `st.success`) are left out. The "Sending batch" line, the batch warning and the final message appear only as log events and outcomes. `st.stop()` is the end of the run.
- The widget ranges (batch size 50/75/100, email delay 2-10 s, batch delay 1-20 min) are not enforced; the model admits any natural numbers. A zero batch size is modelled as the `ValueError` that `range()` raises inside the `try`.
- SMTP connection, `starttls` and `login` are one input flag, `Env.sessionOk`. Whether `server.quit()` raises is another, `Env.quitOk`. `sendmail` and everything inside the `try` per row that can raise (template formatting, the resume read, MIME building, the send) are one input set, `Env.raises`. Which of these raised is not distinguished.
- `pd.read_excel` is not modelled. Its result is an input: a rectangular table, or the exception it raises.
- `str.format` and MIME construction are not modelled. The body is the uninterpreted value `Formatted(template, name, company)`, and a malformed template counts as a row that raises.
- The resume's bytes are not modelled; a message carries only the resume's file name. The model therefore does not show what each per-row `resume_file.read()` returns.
- The progress bar (`sent_count / total_emails`, a float) is left out.
- `time.sleep` is left out; only the requested seconds are accumulated, in `clock`.
- The text of the exception shown on error is left out; the outcome is `Error`.
