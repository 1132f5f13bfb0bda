/**
 The dashboard page `app/page.tsx`: turn the rows of an uploaded CSV file
 into accounts, keep the complete ones, report what was loaded, and start
 the workflow through the dispatch route.
 */
module Dashboard {
  import opened Options
  import opened Strings
  import opened Decimal
  import opened Accounts
  import opened GitHub
  import DispatchRoute

  // ---------------------------------------------------------------------------
  // Rows to accounts
  // ---------------------------------------------------------------------------

  /** A CSV data row as the parser hands it over, keyed by the header's
      column names; a column the row lacks has no key. */
  type Row = map<string, string>

  /** `String(row[key] || "")`: the cell's text, or "" for a missing column. */
  function Cell(row: Row, key: string): string {
    if key in row then row[key] else ""
  }

  /** A parsed row as an account: each field is read from the column of the same name. */
  function Normalise(row: Row): (a: Account)
    ensures forall i :: 0 <= i < 6 ==> Field(a, i) == Cell(row, FieldNames[i])
  {
    Account(Cell(row, "dp"), Cell(row, "username"), Cell(row, "password"),
            Cell(row, "pin"), Cell(row, "crn"), Cell(row, "units"))
  }

  function NormaliseAll(rows: seq<Row>): (accts: seq<Account>)
    ensures |accts| == |rows|
    ensures forall i :: 0 <= i < |rows| ==> accts[i] == Normalise(rows[i])
  {
    seq(|rows|, i requires 0 <= i < |rows| => Normalise(rows[i]))
  }

  /** The page's validation: every field is a non-empty string. */
  predicate Complete(a: Account) {
    a.dp != "" && a.username != "" && a.password != "" && a.pin != "" && a.crn != "" && a.units != ""
  }

  /** A row is complete exactly when each of the six columns is present and non-empty. */
  lemma CompleteRow(row: Row)
    ensures Complete(Normalise(row)) <==>
      forall i :: 0 <= i < 6 ==> FieldNames[i] in row && row[FieldNames[i]] != ""
  {
    var a := Normalise(row);
    assert Field(a, 0) == a.dp && Field(a, 1) == a.username && Field(a, 2) == a.password;
    assert Field(a, 3) == a.pin && Field(a, 4) == a.crn && Field(a, 5) == a.units;
  }

  /** `filter(acc => acc.dp && … && acc.units)`. */
  function KeepComplete(accts: seq<Account>): (kept: seq<Account>)
    ensures |kept| <= |accts|
    ensures forall a :: a in kept <==> a in accts && Complete(a)
  {
    if |accts| == 0 then []
    else if Complete(accts[0]) then [accts[0]] + KeepComplete(accts[1..])
    else KeepComplete(accts[1..])
  }

  /** Filtering works piece by piece, so kept rows keep their CSV order. */
  lemma {:induction false} KeepAppend(xs: seq<Account>, ys: seq<Account>)
    ensures KeepComplete(xs + ys) == KeepComplete(xs) + KeepComplete(ys)
  {
    if |xs| == 0 {
      assert xs + ys == ys;
    } else {
      assert (xs + ys)[0] == xs[0];
      assert (xs + ys)[1..] == xs[1..] + ys;
      KeepAppend(xs[1..], ys);
    }
  }

  /** Filtering twice keeps what filtering once keeps. */
  lemma {:induction false} KeepIdempotent(accts: seq<Account>)
    ensures KeepComplete(KeepComplete(accts)) == KeepComplete(accts)
  {
    if |accts| > 0 {
      KeepIdempotent(accts[1..]);
      if Complete(accts[0]) {
        var rest := KeepComplete(accts[1..]);
        assert ([accts[0]] + rest)[0] == accts[0];
        assert ([accts[0]] + rest)[1..] == rest;
      }
    }
  }

  /** Nothing is dropped exactly when every account is complete. */
  lemma KeepAllIff(accts: seq<Account>)
    ensures KeepComplete(accts) == accts <==> forall i :: 0 <= i < |accts| ==> Complete(accts[i])
  {
    if forall i :: 0 <= i < |accts| ==> Complete(accts[i]) {
      KeepAllComplete(accts);
    } else {
      var i :| 0 <= i < |accts| && !Complete(accts[i]);
      assert accts[i] in accts && accts[i] !in KeepComplete(accts);
    }
  }

  lemma {:induction false} KeepAllComplete(accts: seq<Account>)
    requires forall i :: 0 <= i < |accts| ==> Complete(accts[i])
    ensures KeepComplete(accts) == accts
  {
    if |accts| > 0 {
      var rest := accts[1..];
      assert forall i :: 0 <= i < |rest| ==> Complete(rest[i]) by {
        forall i | 0 <= i < |rest|
          ensures Complete(rest[i])
        {
          assert rest[i] == accts[i + 1];
        }
      }
      KeepAllComplete(rest);
      assert accts == [accts[0]] + rest;
    }
  }

  /** How many accounts the filter drops. */
  function CountIncomplete(accts: seq<Account>): nat {
    if |accts| == 0 then 0
    else (if Complete(accts[0]) then 0 else 1) + CountIncomplete(accts[1..])
  }

  /** The kept and the dropped accounts add up to all of them. */
  lemma {:induction false} KeptPlusSkipped(accts: seq<Account>)
    ensures |KeepComplete(accts)| + CountIncomplete(accts) == |accts|
  {
    if |accts| > 0 {
      KeptPlusSkipped(accts[1..]);
    }
  }

  // ---------------------------------------------------------------------------
  // handleFileUpload
  // ---------------------------------------------------------------------------

  /** What the CSV parser reports: an error, or the data rows of a file with a
      header line (blank lines skipped). */
  datatype ParseResult = ParseError(message: string) | Parsed(rows: seq<Row>)

  /** The status texts the upload sets, in order, and the accounts it loads, if any. */
  datatype Upload = Upload(statuses: seq<string>, loaded: Option<seq<Account>>)

  const Parsing := "Parsing CSV file..."

  function Skipped(n: nat): string {
    "Warning: " + NatToString(n) + " rows were skipped due " + "to missing fields."
  }

  function Loaded(n: nat): string {
    "Loaded " + NatToString(n) + " valid account(s)."
  }

  /** `handleFileUpload`, from the parser's report. */
  function HandleFileUpload(parse: ParseResult): (u: Upload)
    ensures |u.statuses| >= 2 && u.statuses[0] == Parsing
    ensures parse.ParseError? ==>
      u.loaded.None? && u.statuses == [Parsing, "Error parsing CSV: " + parse.message]
    // the loaded accounts are exactly the complete rows, in CSV order
    ensures parse.Parsed? ==> u.loaded == Some(KeepComplete(NormaliseAll(parse.rows)))
    // the last status always reports the loaded count; the warning, shown only
    // when rows were dropped, is overwritten at once
    ensures parse.Parsed? ==> u.statuses[|u.statuses| - 1] == Loaded(|u.loaded.value|)
    ensures parse.Parsed? ==> var skipped := CountIncomplete(NormaliseAll(parse.rows));
      && (|u.statuses| == 3 <==> skipped > 0)
      && (skipped > 0 ==> u.statuses[1] == Skipped(skipped))
  {
    match parse
    case ParseError(message) => Upload([Parsing, "Error parsing CSV: " + message], None)
    case Parsed(rows) =>
      var parsed := NormaliseAll(rows);
      var valid := KeepComplete(parsed);
      KeptPlusSkipped(parsed);
      var warning := if |valid| != |parsed| then [Skipped(|parsed| - |valid|)] else [];
      Upload([Parsing] + warning + [Loaded(|valid|)], Some(valid))
  }

  /** The loaded count in the final status reads back as the number of accounts loaded. */
  lemma LoadedCountReadsBack(parse: ParseResult)
    requires parse.Parsed?
    ensures var u := HandleFileUpload(parse);
      var s := u.statuses[|u.statuses| - 1];
      var digits := NatToString(|u.loaded.value|);
      && s == "Loaded " + digits + " valid account(s)."
      && ParseDigits(digits) == |u.loaded.value|
  {
    ParseNatToString(|HandleFileUpload(parse).loaded.value|);
  }

  // ---------------------------------------------------------------------------
  // startProcess
  // ---------------------------------------------------------------------------

  /** What the page gets back from `POST /api/dispatch`: an exception (not an
      `Error` when `error` is None), or the status and the body's `message`. */
  datatype Reply = Threw(error: Option<string>) | Answered(status: int, message: Option<string>)

  /** The status texts `startProcess` sets, the values `isProcessing` takes,
      and the accounts it posts, if any. */
  datatype Started = Started(statuses: seq<string>, processing: seq<bool>, posted: Option<seq<Account>>)

  const NoAccountsYet := "Please upload a CSV " + "file with accounts " + "first."
  const NotConfigured := "Application not " + "properly configured. " + "Contact administrator."
  const Initiating := "Initiating IPO " + "application process..."
  const Initiated := "✓" + " Process initiated! " + "Check GitHub Actions " + "for real-time progress."

  const ErrorPrefix := "Error: "

  /** `Error: ${responseData.message || "Failed to start process"}`: an empty
      or missing message falls back. */
  function RefusedStatus(message: Option<string>): string {
    ErrorPrefix + (if message.Some? && message.value != "" then message.value else "Failed to start process")
  }

  /** `Error: ${error instanceof Error ? error.message : "Unknown error"}`: an
      `Error`'s message is shown as it is, even when empty. */
  function ThrewStatus(error: Option<string>): string {
    ErrorPrefix + (if error.Some? then error.value else "Unknown error")
  }

  /** `startProcess`: `appName` is NEXT_PUBLIC_APP_NAME, `post` the dispatch route's answer. */
  function StartProcess(accounts: seq<Account>, appName: Option<string>, post: seq<Account> -> Reply): (s: Started)
    // the route is called exactly when both guards pass, with the loaded accounts
    ensures s.posted.Some? <==> |accounts| > 0 && Set(appName)
    ensures s.posted.Some? ==> s.posted.value == accounts
    ensures |accounts| == 0 ==> s == Started([NoAccountsYet], [], None)
    ensures |accounts| > 0 && !Set(appName) ==> s == Started([NotConfigured], [], None)
    // once started, the page is busy while waiting and idle again on every path
    ensures s.posted.Some? ==> s.processing == [true, false] && |s.statuses| == 2 && s.statuses[0] == Initiating
    ensures s.posted.None? ==> s.processing == []
    // success is reported exactly for a 2xx answer
    ensures s.posted.Some? ==>
      (s.statuses[1] == Initiated <==> post(accounts).Answered? && IsOk(post(accounts).status))
    // the error texts: a thrown `Error` shows its own message, even an empty
    // one; anything else thrown is "Unknown error"; a refused call shows the
    // route's message, or the fallback when that is missing or empty
    ensures s.posted.Some? && post(accounts) == Threw(Some("")) ==> s.statuses[1] == ErrorPrefix
    ensures s.posted.Some? && post(accounts).Threw? && post(accounts).error.Some? ==>
      s.statuses[1] == ErrorPrefix + post(accounts).error.value
    ensures s.posted.Some? && post(accounts) == Threw(None) ==> s.statuses[1] == ErrorPrefix + "Unknown error"
    ensures s.posted.Some? && post(accounts).Answered? && !IsOk(post(accounts).status) ==>
      && (post(accounts).message.Some? && post(accounts).message.value != "" ==>
            s.statuses[1] == ErrorPrefix + post(accounts).message.value)
      && (post(accounts).message.None? || post(accounts).message == Some("") ==>
            s.statuses[1] == ErrorPrefix + "Failed to start process")
  {
    if |accounts| == 0 then Started([NoAccountsYet], [], None)
    else if !Set(appName) then Started([NotConfigured], [], None)
    else
      var reply := post(accounts);
      var ok := reply.Answered? && IsOk(reply.status);
      var last :=
        if ok then Initiated
        else if reply.Threw? then ThrewStatus(reply.error)
        else RefusedStatus(reply.message);
      assert !ok ==> last[0] == 'E';
      assert Initiated[0] == '✓';
      Started([Initiating, last], [true, false], Some(accounts))
  }

  /**
   Uploading a CSV file and starting the process posts exactly the complete
   rows; the dispatch route never answers such a request with "No accounts
   provided", and the page reports success exactly when the route answers 200.
   */
  lemma UploadThenStart(parse: ParseResult, appName: string, cfg: Config, github: DispatchRoute.Dispatch -> DispatchRoute.Reply)
    requires parse.Parsed?
    requires appName != ""
    requires |KeepComplete(NormaliseAll(parse.rows))| > 0
    ensures var accounts := HandleFileUpload(parse).loaded.value;
      var route := DispatchRoute.Handle(DispatchRoute.Payload(Some(accounts)), cfg, github);
      var post := (accts: seq<Account>) => Answered(route.status, Some(route.message));
      var s := StartProcess(accounts, Some(appName), post);
      && s.posted == Some(KeepComplete(NormaliseAll(parse.rows)))
      && (forall a :: a in s.posted.value ==> Complete(a))
      && route.message != DispatchRoute.NoAccounts
      && (s.statuses[1] == Initiated <==> route.status == 200)
  {
    var accounts := HandleFileUpload(parse).loaded.value;
    var route := DispatchRoute.Handle(DispatchRoute.Payload(Some(accounts)), cfg, github);
    DispatchRoute.OnlySuccessIs2xx(DispatchRoute.Payload(Some(accounts)), cfg, github);
    DispatchRoute.AccountsGiven(DispatchRoute.Payload(Some(accounts)), cfg, github);
  }

  // ---------------------------------------------------------------------------
  // The CSV template
  // ---------------------------------------------------------------------------

  const TemplateHeader := "dp,username,password,pin" + ",crn,units"
  const TemplateSample := "1234567" + "," + "user@meroshare" + "," + "password123" + "," + "1234" + "," + "12345678" + "," + "100"

  /** The downloadable `accounts_template.csv`. */
  const Template := TemplateHeader + "\n" + TemplateSample + "\n"

  /** The parser's keying of a data line by the header line: column `i` of the
      line under the `i`-th header name (a later duplicate name wins). */
  function KeyRow(header: seq<string>, cells: seq<string>): Row {
    if |header| == 0 || |cells| == 0 then map[]
    else map[header[0] := cells[0]] + KeyRow(header[1..], cells[1..])
  }

  /** A column whose name is not repeated later in the header holds the cell
      in its position, and only header names become keys. */
  lemma {:induction false} KeyRowLookup(header: seq<string>, cells: seq<string>, i: nat)
    requires i < |header| && i < |cells|
    requires header[i] !in header[i + 1..]
    ensures header[i] in KeyRow(header, cells)
    ensures KeyRow(header, cells)[header[i]] == cells[i]
  {
    if i > 0 {
      assert header[1..][i - 1] == header[i];
      assert header[1..][i..] == header[i + 1..];
      KeyRowLookup(header[1..], cells[1..], i - 1);
    } else {
      assert header[0] !in KeyRow(header[1..], cells[1..]) by {
        KeyRowKeys(header[1..], cells[1..]);
      }
    }
  }

  lemma {:induction false} KeyRowKeys(header: seq<string>, cells: seq<string>)
    ensures forall k :: k in KeyRow(header, cells) ==> k in header
  {
    if |header| > 0 && |cells| > 0 {
      KeyRowKeys(header[1..], cells[1..]);
    }
  }

  const SampleCells := ["1234567", "user@meroshare", "password123", "1234", "12345678", "100"]

  lemma SampleIsJoin()
    ensures TemplateSample == Join(SampleCells, ',')
    ensures '\n' !in TemplateSample
  {
    var c := SampleCells;
    assert c[1..] == ["user@meroshare", "password123", "1234", "12345678", "100"];
    assert c[1..][1..] == ["password123", "1234", "12345678", "100"];
    assert c[1..][1..][1..] == ["1234", "12345678", "100"];
    assert c[1..][1..][1..][1..] == ["12345678", "100"];
    assert c[1..][1..][1..][1..][1..] == ["100"];
    JoinAvoids(c, ',', '\n');
  }

  /** The template has a header line, one sample line and nothing after the final newline. */
  lemma TemplateLines()
    ensures Split(Template, '\n') == [TemplateHeader, TemplateSample, ""]
  {
    SampleIsJoin();
    var lines := [TemplateHeader, TemplateSample, ""];
    assert lines[1..] == [TemplateSample, ""] && lines[1..][1..] == [""];
    assert Join(lines[1..], '\n') == TemplateSample + "\n" + "";
    assert Template == Join(lines, '\n');
    SplitJoin(lines, '\n');
  }

  /** The template's header names exactly the account fields, in their order. */
  lemma TemplateHeaderIsFieldNames()
    ensures Split(TemplateHeader, ',') == FieldNames
  {
    assert TemplateHeader == Join(FieldNames, ',');
    SplitJoin(FieldNames, ',');
  }

  lemma FieldNamesDistinct()
    ensures forall i :: 0 <= i < 6 ==> FieldNames[i] !in FieldNames[i + 1..]
  {
    assert FieldNames[0] !in FieldNames[1..];
    assert FieldNames[1] !in FieldNames[2..];
    assert FieldNames[2] !in FieldNames[3..];
    assert FieldNames[3] !in FieldNames[4..];
    assert FieldNames[4] !in FieldNames[5..];
  }

  lemma SampleSplits()
    ensures Split(TemplateSample, ',') == SampleCells
  {
    SampleIsJoin();
    assert forall i :: 0 <= i < |SampleCells| ==> ',' !in SampleCells[i];
    SplitJoin(SampleCells, ',');
  }

  /** The template's sample line, keyed by its header, loads as one complete account. */
  lemma TemplateSampleLoads()
    ensures var sample := Normalise(KeyRow(Split(TemplateHeader, ','), Split(TemplateSample, ',')));
      && sample == Account("1234567", "user@meroshare", "password123", "1234", "12345678", "100")
      && Complete(sample)
  {
    TemplateHeaderIsFieldNames();
    SampleSplits();
    FieldNamesDistinct();
    KeyRowLookup(FieldNames, SampleCells, 0);
    KeyRowLookup(FieldNames, SampleCells, 1);
    KeyRowLookup(FieldNames, SampleCells, 2);
    KeyRowLookup(FieldNames, SampleCells, 3);
    KeyRowLookup(FieldNames, SampleCells, 4);
    KeyRowLookup(FieldNames, SampleCells, 5);
  }
}
