/**
 The browser as the three automation scripts see it.

 A script drives the portal through a sequence of driver actions. The model
 records every action a script issues, in order, as a trace. What the portal
 shows is an input `Portal`: the DP options listed after typing the search
 text, the offering rows in display order, the toast after the final
 submission, and the set of actions that raise (a timeout, a detached element,
 a navigation error...). An action in that set is still issued, and then
 raises.

 A procedure under way is a `Run`: the trace so far and whether it is still
 running, has returned a boolean, or has raised. Every combinator is a no-op
 once the run has returned or raised, which is how `return` and exceptions
 skip the rest of a Python function body.
 */
module Session {
  import opened Strings
  import opened Search

  datatype Action =
    // browser context and page
    | NewContext
    | NewPage
    | CloseContext
    // login page
    | GotoPortal
    | OpenDpSelect
    | TypeDpSearch(text: string)
    | ClickDpOption
    | FillUsername(username: string)
    | FillPassword(password: string)
    | SubmitLogin
    | AwaitDashboard
    | AwaitNetworkIdle
    // offering list
    | GotoAsba
    | AwaitOfferings
    | ReadRow(index: nat)
    | AwaitApplyButton
    | ClickApply
    // application form, first page then PIN page
    | FillApplicationForm(units: string, crn: string)
    | FillUnits(units: string)
    | FillCrn(crn: string)
    | CheckDisclaimer
    | ClickProceed
    | FillPin(pin: string)
    | ClickConfirm
    // result toast
    | AwaitToast
    // logout
    | ClickLogout
    | AwaitLoginRedirect

  /** One row of the open-offering list: its ISIN label, its share-type label,
      whether an Apply button is visible, whether the row holds a button whose
      text is exactly "Apply" (shown or hidden), and whether an Edit button is
      visible. */
  datatype Offering = Offering(isin: string, shareType: string, applyVisible: bool, applyPresent: bool, editVisible: bool)

  datatype Toast = NoToast | Toast(success: bool)

  /** What one browser session observes; `throwing` lists the actions that raise. */
  datatype Portal = Portal(
    dpOptions: seq<string>,
    rows: seq<Offering>,
    toast: Toast,
    throwing: set<Action>)

  /** Playwright's `has-text` / `has_text=` filter: a case-insensitive substring test. */
  predicate HasText(s: string, t: string) {
    Contains(Lower(s), Lower(t))
  }

  datatype Flow = Running | Returned(value: bool) | Raised

  /** A helper that catches all of its own exceptions: its trace and its boolean. */
  datatype Call = Call(trace: seq<Action>, ok: bool)

  datatype Run = Run(trace: seq<Action>, flow: Flow) {

    /** Issue `a`; it raises when the portal throws on it. */
    function Do(a: Action, p: Portal): Run {
      Await(a, true, p)
    }

    /** Issue a wait for something that is `present` or not; a wait for
        something absent times out and raises. */
    function Await(a: Action, present: bool, p: Portal): Run {
      if !flow.Running? then this
      else if !present || a in p.throwing then Run(trace + [a], Raised)
      else Run(trace + [a], Running)
    }

    /** Run a helper that never raises and ignore what it returns. */
    function Then(c: Call): Run {
      if flow.Running? then Run(trace + c.trace, Running) else this
    }

    /** `return b`. */
    function Return(b: bool): Run {
      if flow.Running? then Run(trace, Returned(b)) else this
    }
  }

  const Start := Run([], Running)

  /** `r2` continues `r1`: it keeps every action `r1` has issued, in order. */
  predicate Extends(r2: Run, r1: Run) {
    |r1.trace| <= |r2.trace| && r2.trace[..|r1.trace|] == r1.trace
  }

  /**
   Straight-line code: issue `actions` in order; the first one that raises
   ends the run, and the ones after it are never issued.
   */
  function DoAll(r: Run, actions: seq<Action>, p: Portal): (r': Run)
    ensures !r.flow.Running? ==> r' == r
    ensures Extends(r', r)
    ensures forall a :: a in r'.trace ==> a in r.trace || a in actions
    ensures r.flow.Running? ==> (r'.flow.Running? || r'.flow.Raised?)
    ensures r.flow.Running? ==> (r'.flow.Running? <==> forall a :: a in actions ==> a !in p.throwing)
    ensures r'.flow.Running? ==> r'.trace == r.trace + actions
    decreases |actions|
  {
    if |actions| == 0 then r
    else
      var r1 := r.Do(actions[0], p);
      var r2 := DoAll(r1, actions[1..], p);
      assert forall a :: a in actions[1..] ==> a in actions;
      r2
  }

  /** Straight-line code only depends on whether its own actions raise. */
  lemma {:induction false} DoAllAgree(r: Run, actions: seq<Action>, p: Portal, q: Portal)
    requires forall a :: a in actions ==> (a in p.throwing <==> a in q.throwing)
    ensures DoAll(r, actions, p) == DoAll(r, actions, q)
    decreases |actions|
  {
    if |actions| > 0 {
      assert actions[0] in actions;
      assert forall a :: a in actions[1..] ==> a in actions;
      DoAllAgree(r.Do(actions[0], p), actions[1..], p, q);
    }
  }

  /**
   The shape all three `process_account` functions share:
   `try: ... except Exception: return False finally: if context: await context.close()`.
   The context exists exactly when `new_context`, the first action, did not
   raise. Closing it may raise too, and that exception is the only one that
   leaves `process_account`.
   */
  function Conclude(body: Run, p: Portal): (o: Run)
    requires !body.flow.Running?
    ensures o.flow.Returned? || o.flow.Raised?
    ensures o.flow.Raised? <==> NewContext !in p.throwing && CloseContext in p.throwing
    ensures NewContext !in p.throwing ==> o.trace == body.trace + [CloseContext]
    ensures NewContext in p.throwing ==> o.trace == body.trace
    ensures o.flow.Returned? ==> o.flow == (if body.flow.Raised? then Returned(false) else body.flow)
  {
    var caught := if body.flow.Raised? then Returned(false) else body.flow;
    if NewContext in p.throwing then Run(body.trace, caught)
    else if CloseContext in p.throwing then Run(body.trace + [CloseContext], Raised)
    else Run(body.trace + [CloseContext], caught)
  }

  // ---------------------------------------------------------------------------
  // Helpers that catch their own exceptions
  // ---------------------------------------------------------------------------

  predicate IsLogoutStep(a: Action) {
    a.ClickLogout? || a.AwaitLoginRedirect?
  }

  /**
   `handle_logout`: wait for and click the logout link, then wait for the
   redirect to `#/login`. It never raises; it reports whether both steps
   went through.
   */
  function HandleLogout(p: Portal): (c: Call)
    ensures c.ok <==> ClickLogout !in p.throwing && AwaitLoginRedirect !in p.throwing
    ensures |c.trace| > 0 && c.trace[0] == ClickLogout
    ensures ClickLogout in c.trace
    ensures forall a :: a in c.trace ==> IsLogoutStep(a)
  {
    var r := Start.Do(ClickLogout, p).Do(AwaitLoginRedirect, p);
    Call(r.trace, r.flow.Running?)
  }

  predicate IsDpStep(a: Action) {
    a.OpenDpSelect? || a.TypeDpSearch? || a.ClickDpOption?
  }

  /** Some listed option carries `needle` (case-insensitively). */
  predicate OptionShown(options: seq<string>, needle: string) {
    exists i :: 0 <= i < |options| && HasText(options[i], needle)
  }

  /**
   The select2 combo-box interaction: open it, type `typed` into its search
   field, and click the option carrying `needle` if one is visible. It never
   raises; it reports whether an option was clicked.
   */
  function PickDpOption(typed: string, needle: string, p: Portal): (c: Call)
    ensures c.ok <==>
      && OptionShown(p.dpOptions, needle)
      && OpenDpSelect !in p.throwing
      && TypeDpSearch(typed) !in p.throwing
      && ClickDpOption !in p.throwing
    ensures ClickDpOption in c.trace ==> OptionShown(p.dpOptions, needle)
    ensures forall a :: a in c.trace ==> IsDpStep(a)
  {
    var r := Start.Do(OpenDpSelect, p).Do(TypeDpSearch(typed), p);
    if !r.flow.Running? || !OptionShown(p.dpOptions, needle) then Call(r.trace, false)
    else
      var r := r.Do(ClickDpOption, p);
      Call(r.trace, r.flow.Running?)
  }

  /** Exactly one listed option carries `needle` (case-insensitively). */
  predicate UniqueOption(options: seq<string>, needle: string) {
    Unique(options, o => HasText(o, needle), 0)
  }

  /**
   `select_login_dp` of the login page: types the DP code and accepts only an
   option whose label contains the code in parentheses, `(code)`. The option
   locator has no `.first`, so it is strict: when several options carry
   `(code)`, the visibility check raises a strict-mode error, which the
   helper catches and reports as False without clicking.
   */
  function SelectLoginDp(code: string, p: Portal): (c: Call)
    ensures c.ok <==>
      && UniqueOption(p.dpOptions, "(" + code + ")")
      && OpenDpSelect !in p.throwing
      && TypeDpSearch(code) !in p.throwing
      && ClickDpOption !in p.throwing
    ensures ClickDpOption in c.trace ==> UniqueOption(p.dpOptions, "(" + code + ")")
    ensures forall a :: a in c.trace ==> IsDpStep(a)
  {
    var r := Start.Do(OpenDpSelect, p).Do(TypeDpSearch(code), p);
    if !r.flow.Running? || !UniqueOption(p.dpOptions, "(" + code + ")") then Call(r.trace, false)
    else
      var r := r.Do(ClickDpOption, p);
      Call(r.trace, r.flow.Running?)
  }

  /** The same condition by counting: the login's DP selection succeeds
      exactly when one listed option carries `(code)` and no step raises. */
  lemma LoginDpCountsOne(code: string, p: Portal)
    ensures SelectLoginDp(code, p).ok <==>
      && Count(p.dpOptions, o => HasText(o, "(" + code + ")"), 0) == 1
      && OpenDpSelect !in p.throwing
      && TypeDpSearch(code) !in p.throwing
      && ClickDpOption !in p.throwing
  {
    CountOne(p.dpOptions, o => HasText(o, "(" + code + ")"), 0);
  }

  /** Two options carrying `(code)` make the login's DP selection fail. */
  lemma DuplicateDpRefused(code: string, p: Portal, i: nat, j: nat)
    requires i < j < |p.dpOptions|
    requires HasText(p.dpOptions[i], "(" + code + ")") && HasText(p.dpOptions[j], "(" + code + ")")
    ensures !SelectLoginDp(code, p).ok
    ensures ClickDpOption !in SelectLoginDp(code, p).trace
  {
  }

  // ---------------------------------------------------------------------------
  // The batch loop's events
  // ---------------------------------------------------------------------------

  /** What `main` does with the browser, per account and around the loop. */
  datatype Event = Launch(headless: bool) | ConnectRemote | Process(index: nat) | Delay | CloseBrowser

  /** Whether `process` raises, account by account, where `world(j)` is what
      the browser shows while account `j` is processed: the `raised` input of
      the batch loop. */
  function RaisedAt<A>(accts: seq<A>, world: nat -> Portal, process: (A, Portal) -> Run): (raised: seq<bool>)
    ensures |raised| == |accts|
    ensures forall j :: 0 <= j < |accts| ==> raised[j] == process(accts[j], world(j)).flow.Raised?
  {
    seq(|accts|, j requires 0 <= j < |accts| => process(accts[j], world(j)).flow.Raised?)
  }

  /** The script's exit status: zero, or non-zero after an uncaught exception or `sys.exit(1)`. */
  datatype Exit = ExitOk | ExitError

  /**
   The loop `for account in accounts: await process_account(...); sleep`,
   from account `i` on. `raised[j]` says whether `process_account` raised for
   account `j`; the first one that does ends the loop. The pause follows
   every account, or every account but the last when `pauseAfterLast` is false.
   */
  function Rounds(raised: seq<bool>, i: nat, pauseAfterLast: bool): (e: seq<Event>)
    requires i <= |raised|
    ensures forall n :: 0 <= n < |e| ==> e[n].Process? || e[n].Delay?
    ensures forall n :: 0 <= n < |e| && e[n].Process? ==> i <= e[n].index < |raised|
    decreases |raised| - i
  {
    if i == |raised| then []
    else if raised[i] || (i == |raised| - 1 && !pauseAfterLast) then [Process(i)]
    else [Process(i), Delay] + Rounds(raised, i + 1, pauseAfterLast)
  }

  /** Account `k` is processed exactly when it exists and no account before it raised. */
  lemma {:induction false} RoundsProcess(raised: seq<bool>, i: nat, pauseAfterLast: bool, k: nat)
    requires i <= k
    requires i <= |raised|
    ensures Process(k) in Rounds(raised, i, pauseAfterLast) <==>
      k < |raised| && forall j :: i <= j < k ==> !raised[j]
    decreases |raised| - i
  {
    if i < |raised| {
      if raised[i] || (i == |raised| - 1 && !pauseAfterLast) {
        if k > i && k < |raised| {
          assert raised[i];
        }
      } else {
        if k == i {
          assert Process(k) in Rounds(raised, i, pauseAfterLast);
        } else {
          RoundsProcess(raised, i + 1, pauseAfterLast, k);
          assert Process(k) in Rounds(raised, i + 1, pauseAfterLast) <==> Process(k) in Rounds(raised, i, pauseAfterLast);
        }
      }
    }
  }

  /** Without an exception every account is processed once and followed by
      a pause, except the last one when `pauseAfterLast` is false. */
  lemma {:induction false} RoundsLength(raised: seq<bool>, i: nat, pauseAfterLast: bool)
    requires i <= |raised|
    requires forall j :: i <= j < |raised| ==> !raised[j]
    ensures |Rounds(raised, i, pauseAfterLast)| ==
      2 * (|raised| - i) - (if !pauseAfterLast && i < |raised| then 1 else 0)
    decreases |raised| - i
  {
    if i < |raised| - 1 {
      RoundsLength(raised, i + 1, pauseAfterLast);
    }
  }

  /** Every pause in the loop comes right after an account that did not raise. */
  lemma {:induction false} PauseFollowsSuccess(raised: seq<bool>, i: nat, pauseAfterLast: bool, n: nat)
    requires i <= |raised|
    requires 0 < n < |Rounds(raised, i, pauseAfterLast)|
    requires Rounds(raised, i, pauseAfterLast)[n] == Delay
    ensures var ev := Rounds(raised, i, pauseAfterLast)[n - 1];
      ev.Process? && ev.index < |raised| && !raised[ev.index]
    decreases |raised| - i
  {
    var e := Rounds(raised, i, pauseAfterLast);
    if n > 1 {
      assert e[n] == Rounds(raised, i + 1, pauseAfterLast)[n - 2];
      PauseFollowsSuccess(raised, i + 1, pauseAfterLast, n - 2);
    }
  }

  /**
   The loop itself: process account after account, pausing as `Rounds`
   says, until one raises or none is left.
   */
  method ProcessAll(raised: seq<bool>, pauseAfterLast: bool) returns (events: seq<Event>, crashed: bool)
    ensures events == Rounds(raised, 0, pauseAfterLast)
    ensures crashed <==> true in raised
  {
    events := [];
    crashed := false;
    var i := 0;
    while i < |raised| && !crashed
      invariant 0 <= i <= |raised|
      invariant !crashed ==> events + Rounds(raised, i, pauseAfterLast) == Rounds(raised, 0, pauseAfterLast)
      invariant !crashed ==> forall j :: 0 <= j < i ==> !raised[j]
      invariant crashed ==> events == Rounds(raised, 0, pauseAfterLast) && true in raised
      decreases |raised| - i, if crashed then 0 else 1
    {
      ghost var prev := events;
      events := events + [Process(i)];
      if raised[i] {
        crashed := true;
      } else {
        if i < |raised| - 1 || pauseAfterLast {
          events := events + [Delay];
        }
        assert events + Rounds(raised, i + 1, pauseAfterLast) == prev + Rounds(raised, i, pauseAfterLast);
        i := i + 1;
      }
    }
  }
}
