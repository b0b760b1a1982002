/** The values the send-button handler of the cold mailer works on: the form
    it reads, the spreadsheet, the outside world it talks to, and what it
    reports. */
module Mailer {

  datatype Option<T> = None | Some(value: T)

  /** One spreadsheet row: column header to cell text. */
  type Row = map<string, string>

  /** A data frame as the spreadsheet reader produces it. */
  datatype Frame = Frame(columns: set<string>, rows: seq<Row>)

  /** Every row of a data frame has a cell in every column, and in no other. */
  predicate Rectangular(f: Frame) {
    forall r :: r in f.rows ==> r.Keys == f.columns
  }

  type Table = f: Frame | Rectangular(f) witness Frame({}, [])

  /** An uploaded workbook: either the reader parses it, or it raises. */
  datatype Workbook = Readable(table: Table) | Unreadable

  /** An uploaded resume; only its file name reaches the message. */
  datatype Upload = Upload(name: string)

  /** The widget values the handler reads when the button is pressed.
      The widgets keep batchSize in {50, 75, 100}, emailDelay in [2, 10]
      and batchDelay in [1, 20]; the model admits any natural numbers. */
  datatype Form = Form(
    excelFile: Option<Workbook>,
    resumeFile: Option<Upload>,
    senderEmail: string,
    senderPassword: string,
    subject: string,
    messageTemplate: string,
    batchSize: nat,
    emailDelay: nat,
    batchDelay: nat)

  /** What the handler cannot see: whether the mail session can be opened
      and logged into, the indices of the rows whose message building or
      sending raises instead of returning normally, and whether closing the
      session at the end returns normally. */
  datatype Env = Env(sessionOk: bool, raises: set<nat>, quitOk: bool)

  /** The columns every spreadsheet must have. */
  const RequiredColumns: set<string> := {"name", "company", "email"}

  /** The body the template formatter produces for one row, left
      uninterpreted: it depends on the template, the name and the company
      and on nothing else. */
  datatype Body = Formatted(template: string, name: string, company: string)

  datatype Message = Message(
    from: string,
    to: string,
    subject: string,
    body: Body,
    attachmentName: string)

  /** What the handler does that can be observed, in order. */
  datatype Event =
    | BatchStart(number: nat)                      // the "Sending batch k" line
    | Sent(row: nat, envelopeFrom: string, envelopeTo: string, message: Message)
    | Sleep(seconds: nat)                          // the pause after one email
    | Pause(minutes: nat)                          // the warning and pause after a batch
    | Quit                                         // the mail session is closed

  /** How a press of the button ends. */
  datatype Outcome =
    | FillAllFields        // some input is missing
    | InvalidExcel         // the workbook cannot be read
    | MissingColumns       // a required column is missing
    | Error                // an exception after the counters were set up
    | Success(sent: nat)   // every row was sent

  /** The end of a run: the outcome, the events, the final value of the sent
      counter and the total number of seconds of sleep requested. */
  datatype Report = Report(outcome: Outcome, log: seq<Event>, sentCount: nat, clock: nat)
}
