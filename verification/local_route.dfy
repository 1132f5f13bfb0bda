/**
 `POST /api/local`: run the local script `scripts/localapply.py` with the
 accounts as its one argument and relay its output to the browser as a
 stream of text chunks. Standard output passes through unchanged; a chunk of
 standard error is marked with a cross when it looks like an error-level
 log; when the process closes, a final line reports its exit code and the
 stream ends.
 */
module LocalRoute {
  import opened Options
  import opened Strings
  import opened Decimal

  // ---------------------------------------------------------------------------
  // Starting the script
  // ---------------------------------------------------------------------------

  /** The child process to start: a program and its arguments. */
  datatype Spawn = Spawn(program: string, args: seq<string>)

  /** `path.join(process.cwd(), "scripts", "localapply.py")`, for a working
      directory without a trailing separator. */
  function ScriptPath(cwd: string): string {
    cwd + "/scripts/localapply.py"
  }

  /** The process the route starts; `accountsJson` is `JSON.stringify(payload.accounts)`. */
  function Launch(cwd: string, accountsJson: string): (s: Spawn)
    ensures s.program == "python"
    // exactly two arguments: the script, then the accounts, which the script
    // reads as its command-line source
    ensures |s.args| == 2 && s.args[1] == accountsJson
    ensures EndsWith(s.args[0], "/scripts/localapply.py")
  {
    Spawn("python", [ScriptPath(cwd), accountsJson])
  }

  // ---------------------------------------------------------------------------
  // Classifying output
  // ---------------------------------------------------------------------------

  /** What the child process reports: a chunk on either stream, or that it
      closed with an exit code (None when it was ended by a signal). */
  datatype Output = Stdout(text: string) | Stderr(text: string) | Close(code: Option<nat>)

  /** `message.toUpperCase().includes("ERROR") || … includes("CRITICAL")`. */
  predicate IsErrorLog(message: string) {
    Contains(Upper(message), "ERROR") || Contains(Upper(message), "CRITICAL")
  }

  const Cross := "❌ "

  /** A standard-error chunk as relayed. */
  function Classify(message: string): (r: string)
    ensures IsErrorLog(message) ==> r == Cross + message
    ensures !IsErrorLog(message) ==> r == message
  {
    if IsErrorLog(message) then Cross + message else message
  }

  lemma LowerLiterals()
    ensures Lower("ERROR") == "error" && Lower("CRITICAL") == "critical"
  {
  }

  lemma UpperLiterals()
    ensures Upper("error") == "ERROR" && Upper("critical") == "CRITICAL"
  {
  }

  /**
   The test ignores case: a chunk is flagged exactly when its lower-cased text
   contains "error" or "critical", so "error", "Error" and "ERROR" all count.
   */
  lemma {:induction false} ErrorLogIgnoresCase(message: string)
    ensures IsErrorLog(message) <==>
      Contains(Lower(message), "error") || Contains(Lower(message), "critical")
  {
    LowerLiterals();
    UpperLiterals();
    LowerOfUpper(message);
    UpperOfLower(message);
    if Contains(Upper(message), "ERROR") {
      ContainsLower(Upper(message), "ERROR");
    }
    if Contains(Upper(message), "CRITICAL") {
      ContainsLower(Upper(message), "CRITICAL");
    }
    if Contains(Lower(message), "error") {
      ContainsUpper(Lower(message), "error");
    }
    if Contains(Lower(message), "critical") {
      ContainsUpper(Lower(message), "critical");
    }
  }

  /** Python's logging prints the level name, so any ERROR or CRITICAL record is flagged. */
  lemma LevelNamesFlagged(prefix: string, level: string, rest: string)
    requires level == "ERROR" || level == "CRITICAL"
    ensures IsErrorLog(prefix + level + rest)
  {
    var m := prefix + level + rest;
    assert Upper(level) == level;
    UpperSlice(m, |prefix|, |prefix| + |level|);
    assert m[|prefix|..|prefix| + |level|] == level;
    assert OccursAt(Upper(m), level, |prefix|);
  }

  const Finished := "\n✅" + " --- All Tasks Finished " + "Successfully ---"
  const Exited := "\n⚠️" + " --- Process exited with code "

  /** The line that ends the stream. */
  function FinalMessage(code: Option<nat>): (m: string)
    ensures code == Some(0) <==> m == Finished
  {
    if code == Some(0) then Finished
    else
      var m := Exited + (if code.Some? then NatToString(code.value) else "null") + " ---";
      assert m[1] != Finished[1];
      m
  }

  /** A failing exit code can be read back from the final line. */
  lemma FinalMessageShowsCode(code: nat)
    requires code != 0
    ensures exists digits :: 
      && FinalMessage(Some(code)) == Exited + digits + " ---"
      && IsDigits(digits)
      && ParseDigits(digits) == code
  {
    ParseNatToString(code);
    var digits := NatToString(code);
    assert FinalMessage(Some(code)) == Exited + digits + " ---";
  }

  // ---------------------------------------------------------------------------
  // The stream
  // ---------------------------------------------------------------------------

  /** The chunk relayed for one report. */
  function Relayed(o: Output): string {
    match o
    case Stdout(text) => text
    case Stderr(text) => Classify(text)
    case Close(code) => FinalMessage(code)
  }

  /** The index of the first close report, or |outs| when there is none. */
  function FirstClose(outs: seq<Output>): (k: nat)
    ensures k <= |outs|
    ensures k < |outs| ==> outs[k].Close?
    ensures forall j :: 0 <= j < k ==> !outs[j].Close?
  {
    if |outs| == 0 then 0
    else if outs[0].Close? then 0
    else 1 + FirstClose(outs[1..])
  }

  /** The stream's chunks for the reports so far, and whether it has ended. */
  datatype Stream = Stream(chunks: seq<string>, closed: bool)

  /** The chunks the route enqueues: one per report up to and including the
      first close, after which the stream is closed. */
  function Relay(outs: seq<Output>): (s: Stream)
    ensures s.closed <==> FirstClose(outs) < |outs|
    ensures |s.chunks| == (if s.closed then FirstClose(outs) + 1 else |outs|)
    ensures forall j :: 0 <= j < |s.chunks| ==> s.chunks[j] == Relayed(outs[j])
    ensures s.closed ==> s.chunks[|s.chunks| - 1] == FinalMessage(outs[FirstClose(outs)].code)
  {
    if |outs| == 0 then Stream([], false)
    else if outs[0].Close? then Stream([FinalMessage(outs[0].code)], true)
    else
      var rest := Relay(outs[1..]);
      Stream([Relayed(outs[0])] + rest.chunks, rest.closed)
  }

  /** Nothing reaches the browser after the close report. */
  lemma {:induction false} NothingAfterClose(outs: seq<Output>, later: seq<Output>)
    requires FirstClose(outs) < |outs|
    ensures Relay(outs + later) == Relay(outs)
  {
    var all := outs + later;
    assert all[0] == outs[0];
    if !outs[0].Close? {
      assert all[1..] == outs[1..] + later;
      NothingAfterClose(outs[1..], later);
    }
  }

  lemma {:induction false} FirstCloseAppend(outs: seq<Output>, later: seq<Output>)
    requires FirstClose(outs) == |outs|
    ensures FirstClose(outs + later) == |outs| + FirstClose(later)
  {
    var all := outs + later;
    if |outs| == 0 {
      assert all == later;
    } else {
      assert all[0] == outs[0];
      assert all[1..] == outs[1..] + later;
      FirstCloseAppend(outs[1..], later);
    }
  }

  /** Until the close report, the stream is the chunks relayed one by one, in order. */
  lemma RelayAppend(outs: seq<Output>, later: seq<Output>)
    requires FirstClose(outs) == |outs|
    ensures Relay(outs + later).chunks == Relay(outs).chunks + Relay(later).chunks
    ensures Relay(outs + later).closed == Relay(later).closed
  {
    var all := outs + later;
    FirstCloseAppend(outs, later);
    var s, a, b := Relay(all).chunks, Relay(outs).chunks, Relay(later).chunks;
    assert |s| == |a| + |b|;
    forall j | 0 <= j < |s|
      ensures s[j] == (a + b)[j]
    {
      if j < |outs| {
        assert all[j] == outs[j];
      } else {
        assert all[j] == later[j - |outs|];
      }
    }
  }
}
