/**
 * The POST handler of the register API route: a presence check on the payload, one CSV
 * row built from it, and the log file course-registrations.csv, created with a header
 * the first time and appended to after that.
 */
module RegisterRoute {
  import opened Wrappers
  import opened JsString

  /** The fields of a JSON body that is an object; None is a field that is missing or null. */
  datatype Payload = Payload(
    fullName: Option<string>,
    email: Option<string>,
    phone: Option<string>,
    courses: Option<seq<string>>,
    message: Option<string>)

  /** What request.json() and the destructuring of its result produced: the payload, or an
      error. Malformed is a body that is not JSON, and also the JSON value null, which
      request.json() accepts but whose destructuring throws; both end in the catch block. */
  datatype Body = Malformed | Parsed(payload: Payload)

  /** Which file-system call throws, if any: writeFileSync of the header, or appendFileSync. */
  datatype IoFault = NoFault | WriteFails | AppendFails

  /** The route's three responses. */
  datatype Response = Registered | Rejected | Failed {
    function Status(): int {
      match this
      case Registered => 200
      case Rejected => 400
      case Failed => 500
    }
  }

  /** A string field is truthy: present and not empty. */
  predicate Present(f: Option<string>) {
    f.Some? && f.value != ""
  }

  /** The route's validation: fullName, email and phone truthy, and at least one course. */
  predicate IsComplete(p: Payload) {
    Present(p.fullName) && Present(p.email) && Present(p.phone)
    && p.courses.Some? && |p.courses.value| > 0
  }

  /** The header row written when the log file does not exist. */
  const Header: string := "Timestamp,Full Name,Email,Phone,Courses,Message\n"

  /** message || 'N/A' */
  function MessageText(m: Option<string>): string {
    if Present(m) then m.value else "N/A"
  }

  /** A field between double quotes, with nothing inside escaped. */
  function Quote(f: string): string {
    "\"" + f + "\""
  }

  /** Each field quoted. */
  function QuoteAll(fields: seq<string>): (r: seq<string>)
    ensures |r| == |fields|
    ensures forall i :: 0 <= i < |fields| ==> r[i] == Quote(fields[i])
  {
    if |fields| == 0 then [] else [Quote(fields[0])] + QuoteAll(fields[1..])
  }

  /** The six values of a row: timestamp, name, email, phone, courses joined by "; ", message. */
  function Fields(timestamp: string, p: Payload): seq<string>
    requires IsComplete(p)
  {
    [timestamp, p.fullName.value, p.email.value, p.phone.value,
     Join(p.courses.value, "; "), MessageText(p.message)]
  }

  /** The CSV row: the quoted fields separated by commas, ended by a newline. */
  function CsvRow(timestamp: string, p: Payload): string
    requires IsComplete(p)
  {
    Join(QuoteAll(Fields(timestamp, p)), ",") + "\n"
  }

  /** The log file after a request, and the response. */
  datatype Outcome = Outcome(log: Option<string>, response: Response)

  /** POST, given the log file (absent, or its contents), the parsed body, the timestamp the
      request takes, and which file-system call throws. */
  function Register(log: Option<string>, body: Body, timestamp: string, fault: IoFault): (r: Outcome)
    ensures r.response == Rejected <==> body.Parsed? && !IsComplete(body.payload)
    ensures r.response == Registered
        <==> body.Parsed? && IsComplete(body.payload)
             && fault != AppendFails && !(fault == WriteFails && log.None?)
    ensures r.response == Registered ==>
              r.log == Some((if log.Some? then log.value else Header) + CsvRow(timestamp, body.payload))
    ensures r.response != Registered ==>
              r.log == log
              || (body.Parsed? && IsComplete(body.payload) && log.None? && fault == AppendFails
                  && r.log == Some(Header))
    ensures log.Some? ==> r.log.Some? && log.value <= r.log.value
  {
    if body.Malformed? then Outcome(log, Failed)
    else if !IsComplete(body.payload) then Outcome(log, Rejected)
    else
      var row := CsvRow(timestamp, body.payload);
      if log.None? && fault == WriteFails then Outcome(log, Failed)
      else
        var withHeader := if log.Some? then log.value else Header;
        if fault == AppendFails then Outcome(Some(withHeader), Failed)
        else Outcome(Some(withHeader + row), Registered)
  }

  /** A body that is not JSON, or is null, is answered with 500 and leaves the log as it was,
      whatever the log and the file system. */
  lemma MalformedFails(log: Option<string>, timestamp: string, fault: IoFault)
    ensures Register(log, Malformed, timestamp, fault) == Outcome(log, Failed)
  {
  }

  /** The rejection happens exactly when a required field is missing or empty or no course is
      selected, and it returns before any file is touched. */
  lemma RejectedIffIncomplete(log: Option<string>, p: Payload, timestamp: string, fault: IoFault)
    ensures Register(log, Parsed(p), timestamp, fault).response == Rejected
        <==> (!Present(p.fullName) || !Present(p.email) || !Present(p.phone)
              || p.courses.None? || |p.courses.value| == 0)
    ensures Register(log, Parsed(p), timestamp, fault).response == Rejected
        ==> Register(log, Parsed(p), timestamp, fault).log == log
  {
  }

  /** A single course is written as that course's name, and a missing or empty message as N/A. */
  lemma CoursesAndMessageFields(timestamp: string, p: Payload)
    requires IsComplete(p)
    ensures |Fields(timestamp, p)| == 6
    ensures |p.courses.value| == 1 ==> Fields(timestamp, p)[4] == p.courses.value[0]
    ensures Fields(timestamp, p)[5] == if Present(p.message) then p.message.value else "N/A"
  {
  }

  /** Six parts joined. */
  lemma JoinSix(parts: seq<string>, sep: string)
    requires |parts| == 6
    ensures Join(parts, sep)
         == parts[0] + sep + parts[1] + sep + parts[2] + sep + parts[3] + sep + parts[4] + sep + parts[5]
  {
    forall k | 1 <= k < 6 ensures Join(parts[..k + 1], sep) == Join(parts[..k], sep) + sep + parts[k] {
      assert parts[..k + 1] == parts[..k] + [parts[k]];
      JoinAppend(parts[..k], parts[k], sep);
    }
    assert Join(parts[..1], sep) == parts[0];
    assert parts[..6] == parts;
  }

  /** The row is the route's template: the six values, each in double quotes, separated by
      commas, then a newline; nothing inside a value is escaped. */
  lemma RowLayout(timestamp: string, p: Payload)
    requires IsComplete(p)
    ensures CsvRow(timestamp, p)
         == "\"" + timestamp + "\",\"" + p.fullName.value + "\",\"" + p.email.value + "\",\""
            + p.phone.value + "\",\"" + Join(p.courses.value, "; ") + "\",\"" + MessageText(p.message) + "\"\n"
  {
    var f := Fields(timestamp, p);
    var q := QuoteAll(f);
    JoinSix(q, ",");
    var a0 := "\"" + f[0];
    var a1 := a0 + "\",\"" + f[1];
    var a2 := a1 + "\",\"" + f[2];
    var a3 := a2 + "\",\"" + f[3];
    var a4 := a3 + "\",\"" + f[4];
    var a5 := a4 + "\",\"" + f[5];
    QuotedStep(a0, f[1]);
    QuotedStep(a1, f[2]);
    QuotedStep(a2, f[3]);
    QuotedStep(a3, f[4]);
    QuotedStep(a4, f[5]);
    QuotedEnd(a5);
  }

  /** A closing quote, a comma and the next quoted value: the template's "," between values. */
  lemma QuotedStep(before: string, f: string)
    ensures (before + "\"") + "," + Quote(f) == (before + "\",\"" + f) + "\""
  {
  }

  /** The closing quote and the newline at the end of the template. */
  lemma QuotedEnd(before: string)
    ensures (before + "\"") + "\n" == before + "\"\n"
  {
  }

  /** A payload with one course and a null message. */
  lemma ExampleRow(timestamp: string)
    ensures CsvRow(timestamp, Payload(Some("Jane Doe"), Some("j@x.com"), Some("123"), Some(["Python"]), None))
         == "\"" + timestamp + "\",\"" + "Jane Doe" + "\",\"" + "j@x.com" + "\",\""
            + "123" + "\",\"" + "Python" + "\",\"" + "N/A" + "\"\n"
  {
    RowLayout(timestamp, Payload(Some("Jane Doe"), Some("j@x.com"), Some("123"), Some(["Python"]), None));
  }
  /** The comma-separated parts of a quoted field list, when no field holds a comma, are the
      quoted fields themselves. */
  lemma QuotedFieldsSplit(fields: seq<string>)
    requires |fields| > 0
    requires forall f :: f in fields ==> ',' !in f
    ensures Split(Join(QuoteAll(fields), ","), ',') == QuoteAll(fields)
  {
    var quoted := QuoteAll(fields);
    forall q | q in quoted ensures ',' !in q {
      var i :| 0 <= i < |quoted| && quoted[i] == q;
      assert fields[i] in fields;
    }
    SplitJoin(quoted, ',');
  }

  /** The row is newline-terminated, and when no value holds a comma, cutting the line at its
      commas gives the six values, each between quotes, in the order of the header. */
  lemma RowShape(timestamp: string, p: Payload)
    requires IsComplete(p)
    requires forall f :: f in Fields(timestamp, p) ==> ',' !in f
    ensures var row := CsvRow(timestamp, p);
      row[|row| - 1] == '\n'
      && Split(row[..|row| - 1], ',') == [
        Quote(timestamp), Quote(p.fullName.value), Quote(p.email.value), Quote(p.phone.value),
        Quote(Join(p.courses.value, "; ")), Quote(MessageText(p.message))]
  {
    var row := CsvRow(timestamp, p);
    var line := Join(QuoteAll(Fields(timestamp, p)), ",");
    assert row[..|row| - 1] == line;
    QuotedFieldsSplit(Fields(timestamp, p));
  }

  /** One accepted submission: the time it was made, and its payload. */
  datatype Submission = Submission(timestamp: string, payload: Payload)

  /** Every submission passes validation. */
  predicate AllComplete(subs: seq<Submission>) {
    forall i :: 0 <= i < |subs| ==> IsComplete(subs[i].payload)
  }

  lemma TailComplete(subs: seq<Submission>)
    requires AllComplete(subs) && |subs| > 0
    ensures AllComplete(subs[1..])
  {
    forall i | 0 <= i < |subs[1..]| ensures IsComplete(subs[1..][i].payload) {
      assert subs[1..][i] == subs[i + 1];
    }
  }

  /** The rows of a series of submissions, in order. */
  function Rows(subs: seq<Submission>): string
    requires AllComplete(subs)
  {
    if |subs| == 0 then ""
    else
      TailComplete(subs);
      CsvRow(subs[0].timestamp, subs[0].payload) + Rows(subs[1..])
  }

  /** The log after handling the submissions one after another without a file-system error. */
  function SubmitAll(log: Option<string>, subs: seq<Submission>): Option<string>
    decreases |subs|
  {
    if |subs| == 0 then log
    else SubmitAll(Register(log, Parsed(subs[0].payload), subs[0].timestamp, NoFault).log, subs[1..])
  }

  /** Onto an existing log, accepted submissions append exactly their rows. */
  lemma {:induction false} SubmitAllAppends(text: string, subs: seq<Submission>)
    requires AllComplete(subs)
    ensures SubmitAll(Some(text), subs) == Some(text + Rows(subs))
    decreases |subs|
  {
    if |subs| > 0 {
      var row := CsvRow(subs[0].timestamp, subs[0].payload);
      TailComplete(subs);
      var first := Register(Some(text), Parsed(subs[0].payload), subs[0].timestamp, NoFault);
      assert first.log == Some(text + row);
      assert SubmitAll(Some(text), subs) == SubmitAll(first.log, subs[1..]);
      SubmitAllAppends(text + row, subs[1..]);
      assert Rows(subs) == row + Rows(subs[1..]);
      assert text + row + Rows(subs[1..]) == text + (row + Rows(subs[1..]));
    } else {
      assert text + Rows(subs) == text;
    }
  }

  /** The first accepted request creates the log: the header, then its row. */
  lemma FirstRegistration(subs: seq<Submission>)
    requires AllComplete(subs) && |subs| > 0
    ensures SubmitAll(None, subs)
         == SubmitAll(Some(Header + CsvRow(subs[0].timestamp, subs[0].payload)), subs[1..])
  {
  }

  /** After n accepted submissions starting from no log, the log is the header, once, followed
      by exactly the n rows in order. */
  lemma LogFromNothing(subs: seq<Submission>)
    requires AllComplete(subs) && |subs| > 0
    ensures SubmitAll(None, subs) == Some(Header + Rows(subs))
  {
    TailComplete(subs);
    FirstRegistration(subs);
    SubmitAllAppends(Header + CsvRow(subs[0].timestamp, subs[0].payload), subs[1..]);
    RowsAfterFirst(Header, subs);
  }

  /** Text, then the first row, then the remaining rows, is the text followed by all rows. */
  lemma RowsAfterFirst(text: string, subs: seq<Submission>)
    requires AllComplete(subs) && |subs| > 0
    requires AllComplete(subs[1..])
    ensures (text + CsvRow(subs[0].timestamp, subs[0].payload)) + Rows(subs[1..]) == text + Rows(subs)
  {
  }

  /** The log file at the project root. */
  class RegistrationLog {
    var file: Option<string>

    constructor (existing: Option<string>)
      ensures file == existing
    {
      file := existing;
    }

    /** One POST request. The header is written only if the file does not exist; then the row
        is appended. A call that throws ends the request with status 500. */
    method Post(body: Body, timestamp: string, fault: IoFault) returns (response: Response)
      modifies this
      ensures Outcome(file, response) == Register(old(file), body, timestamp, fault)
    {
      if body.Malformed? {
        return Failed;
      }
      var p := body.payload;
      if !IsComplete(p) {
        return Rejected;
      }
      var row := CsvRow(timestamp, p);
      if file.None? {
        if fault == WriteFails {
          return Failed;
        }
        file := Some(Header);
      }
      if fault == AppendFails {
        return Failed;
      }
      file := Some(file.value + row);
      response := Registered;
    }
  }
}
