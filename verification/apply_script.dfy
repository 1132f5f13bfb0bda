/**
 The remote-browser script `scripts/apply.py`: log in without choosing a DP,
 wait for an Apply button in a row mentioning "Ordinary Shares", fill units,
 the DP combo box, CRN, disclaimer and PIN, submit, and return True. Only the
 DP combo box catches its own exceptions, and its result is ignored; the
 script never logs out.
 */
module ApplyScript {
  import opened Options
  import opened Strings
  import opened Accounts
  import opened Session
  import opened Steps
  import opened Search

  // ---------------------------------------------------------------------------
  // process_account
  // ---------------------------------------------------------------------------

  /** The XPath `//tr[contains(., 'Ordinary Shares')]//button[text()='Apply']`:
      a case-sensitive substring test on the row's text, and a button whose
      text is exactly "Apply", whether it is shown or not. */
  predicate IsApplicableRow(row: Offering) {
    Contains(row.isin, "Ordinary Shares") && row.applyPresent
  }

  /** `apply_button.first.wait_for(state="visible")`: the wait is on the first
      matching button in document order, and succeeds only when that one is
      shown; a visible button in a later row does not help. */
  predicate ApplyButtonShown(rows: seq<Offering>) {
    var k := First(rows, IsApplicableRow, 0);
    k.Some? && rows[k.value].applyVisible
  }

  /** The wait goes through exactly when some applicable row shows its button
      and no applicable row comes before it: a hidden first button blocks the
      wait even when a later row shows Apply. */
  lemma FirstButtonDecides(rows: seq<Offering>)
    ensures ApplyButtonShown(rows) <==>
      exists j :: 0 <= j < |rows| && IsApplicableRow(rows[j]) && rows[j].applyVisible
        && forall i :: 0 <= i < j ==> !IsApplicableRow(rows[i])
  {
    var k := First(rows, IsApplicableRow, 0);
    if k.Some? && rows[k.value].applyVisible {
      assert forall i :: 0 <= i < k.value ==> !IsApplicableRow(rows[i]);
    }
  }

  /** Login (no DP on this login page), the load wait, and the offering page. */
  function LoginSteps(acct: Account): seq<Action> {
    [GotoPortal, FillUsername(acct.username), FillPassword(acct.password), SubmitLogin, AwaitNetworkIdle, GotoAsba]
  }

  /** The form after the DP combo box: CRN, disclaimer, PIN, Submit. */
  function FinalSteps(acct: Account): seq<Action> {
    [FillCrn(acct.crn), CheckDisclaimer, FillPin(acct.pin), ClickConfirm]
  }

  /** `fill_dp_field_with_select2`: type the DP and click the first option
      whose text contains it; it never raises. */
  function FillDpField(dp: string, p: Portal): (c: Call)
    ensures c.ok <==>
      && OptionShown(p.dpOptions, dp)
      && OpenDpSelect !in p.throwing
      && TypeDpSearch(dp) !in p.throwing
      && ClickDpOption !in p.throwing
    ensures forall a :: a in c.trace ==> IsDpStep(a)
  {
    PickDpOption(dp, dp, p)
  }

  /** Every step outside the DP combo box goes through. */
  predicate AllGoThrough(acct: Account, p: Portal) {
    && NewContext !in p.throwing
    && NewPage !in p.throwing
    && (forall a :: a in LoginSteps(acct) ==> a !in p.throwing)
    && ApplyButtonShown(p.rows)
    && AwaitApplyButton !in p.throwing
    && ClickApply !in p.throwing
    && FillUnits(acct.units) !in p.throwing
    && (forall a :: a in FinalSteps(acct) ==> a !in p.throwing)
  }

  /** From the Apply click to the Submit click, then `return True`. */
  function Apply(acct: Account, p: Portal, r: Run): (r': Run)
    requires r.flow.Running?
    ensures r'.flow.Raised? || r'.flow == Returned(true)
    ensures r'.flow == Returned(true) <==>
      && ClickApply !in p.throwing
      && FillUnits(acct.units) !in p.throwing
      && (forall a :: a in FinalSteps(acct) ==> a !in p.throwing)
    ensures forall a :: a in r'.trace ==> a in r.trace || !IsLogoutStep(a)
  {
    var r1 := r.Do(ClickApply, p).Do(FillUnits(acct.units), p);
    assert forall a :: a in r1.trace ==> a in r.trace || !IsLogoutStep(a);
    if !r1.flow.Running? then r1
    else
      var r1' := r1.Then(FillDpField(acct.dp, p));
      assert forall a :: a in r1'.trace ==> a in r.trace || !IsLogoutStep(a);
      var r2 := DoAll(r1', FinalSteps(acct), p);
      assert forall a :: a in FinalSteps(acct) ==> !IsLogoutStep(a);
      if !r2.flow.Running? then r2 else r2.Return(true)
  }

  /** The `try` block of `process_account`. */
  function Body(acct: Account, p: Portal): (r: Run)
    ensures !r.flow.Running?
    ensures NewContext in p.throwing ==> r.trace == [NewContext] && r.flow.Raised?
    ensures r.flow.Raised? || r.flow == Returned(true)
  {
    var r0 := Open(p);
    if !r0.flow.Running? then r0
    else
      var r1 := DoAll(r0, LoginSteps(acct), p).Await(AwaitApplyButton, ApplyButtonShown(p.rows), p);
      if !r1.flow.Running? then r1
      else Apply(acct, p, r1)
  }

  /** `process_account`: its actions and its result, or that closing the context raised. */
  function ProcessAccount(acct: Account, p: Portal): (o: Run)
    ensures o.flow.Returned? || o.flow.Raised?
    ensures o.flow.Raised? <==> NewContext !in p.throwing && CloseContext in p.throwing
    ensures NewContext !in p.throwing ==> |o.trace| > 0 && o.trace[|o.trace| - 1] == CloseContext
    ensures NewContext in p.throwing ==> o.trace == [NewContext] && o.flow == Returned(false)
  {
    Conclude(Body(acct, p), p)
  }

  /** The script never logs out: no logout step is ever issued. */
  lemma NeverLogsOut(acct: Account, p: Portal)
    ensures forall a :: a in ProcessAccount(acct, p).trace ==> !IsLogoutStep(a)
  {
    BodyNeverLogsOut(acct, p);
  }

  lemma BodyNeverLogsOut(acct: Account, p: Portal)
    ensures forall a :: a in Body(acct, p).trace ==> !IsLogoutStep(a)
  {
    var r0 := Open(p);
    if r0.flow.Running? {
      var login := DoAll(r0, LoginSteps(acct), p);
      LoginNeverLogsOut(acct);
      assert forall a :: a in login.trace ==> !IsLogoutStep(a);
      var r1 := login.Await(AwaitApplyButton, ApplyButtonShown(p.rows), p);
      assert forall a :: a in r1.trace ==> !IsLogoutStep(a);
    }
  }

  lemma LoginNeverLogsOut(acct: Account)
    ensures forall a :: a in LoginSteps(acct) ==> !IsLogoutStep(a)
  {
  }

  /**
   `process_account` returns True exactly when every step outside the DP
   combo box goes through; it reports success without checking the DP or
   any confirmation.
   */
  lemma TrueExactlyWhenAllGoThrough(acct: Account, p: Portal)
    requires CloseContext !in p.throwing
    ensures ProcessAccount(acct, p).flow == Returned(true) <==> AllGoThrough(acct, p)
  {
    var r0 := Open(p);
    var b := Body(acct, p);
    if r0.flow.Running? {
      var r1 := DoAll(r0, LoginSteps(acct), p).Await(AwaitApplyButton, ApplyButtonShown(p.rows), p);
      if r1.flow.Running? {
        assert b == Apply(acct, p, r1);
      } else {
        assert b == r1;
      }
    }
  }

  /** Two portals that agree on everything outside the DP combo box. */
  ghost predicate SameBesidesDp(p: Portal, q: Portal) {
    && p.rows == q.rows
    && forall a :: !IsDpStep(a) ==> (a in p.throwing <==> a in q.throwing)
  }

  lemma ApplyIgnoresDp(acct: Account, p: Portal, q: Portal, r: Run)
    requires SameBesidesDp(p, q)
    requires r.flow.Running?
    ensures Apply(acct, p, r).flow == Apply(acct, q, r).flow
  {
    var r1 := r.Do(ClickApply, p).Do(FillUnits(acct.units), p);
    assert r1 == r.Do(ClickApply, q).Do(FillUnits(acct.units), q);
    if r1.flow.Running? {
      var fs := FinalSteps(acct);
      assert forall a :: a in fs ==> !IsDpStep(a);
      assert (forall a :: a in fs ==> a !in p.throwing) <==> (forall a :: a in fs ==> a !in q.throwing);
      var rp := DoAll(r1.Then(FillDpField(acct.dp, p)), fs, p);
      var rq := DoAll(r1.Then(FillDpField(acct.dp, q)), fs, q);
      assert rp.flow == rq.flow;
    }
  }

  /**
   The DP combo box never changes the result: whether its option is listed,
   and whether its steps raise, `process_account` returns the same value.
   */
  lemma DpResultIgnored(acct: Account, p: Portal, q: Portal)
    requires SameBesidesDp(p, q)
    ensures ProcessAccount(acct, p).flow == ProcessAccount(acct, q).flow
  {
    BodyIgnoresDp(acct, p, q);
    assert NewContext !in p.throwing <==> NewContext !in q.throwing;
    assert CloseContext !in p.throwing <==> CloseContext !in q.throwing;
  }

  lemma BodyIgnoresDp(acct: Account, p: Portal, q: Portal)
    requires SameBesidesDp(p, q)
    ensures Body(acct, p).flow == Body(acct, q).flow
  {
    var r0 := Open(p);
    assert r0 == Open(q);
    if r0.flow.Running? {
      DoAllAgree(r0, LoginSteps(acct), p, q);
      var r1 := DoAll(r0, LoginSteps(acct), p).Await(AwaitApplyButton, ApplyButtonShown(p.rows), p);
      assert r1 == DoAll(r0, LoginSteps(acct), q).Await(AwaitApplyButton, ApplyButtonShown(q.rows), q);
      if r1.flow.Running? {
        ApplyIgnoresDp(acct, p, q, r1);
      }
    }
  }

  // ---------------------------------------------------------------------------
  // main
  // ---------------------------------------------------------------------------

  /** A non-empty BROWSERLESS_TOKEN selects the remote browser. */
  function Connect(token: Option<string>): (e: Event)
    ensures e == ConnectRemote <==> token.Some? && token.value != ""
    ensures e != ConnectRemote ==> e == Launch(true)
  {
    if token.Some? && token.value != "" then ConnectRemote else Launch(true)
  }

  /**
   `main`: decode ACCOUNTS_JSON (default "[]"), stop quietly on an empty
   list, connect to the remote browser or launch a local headless one,
   process the accounts with a pause between consecutive ones, and close the
   browser even when an account raises. `closeRaises` says whether
   `browser.close()` raises. Any exception, a JSON error or a failing close
   included, ends the script with exit status 1.
   */
  method Batch(env: Option<string>, token: Option<string>, decode: string -> Option<seq<Account>>, world: nat -> Portal, closeRaises: bool)
    returns (events: seq<Event>, exit: Exit)
    ensures decode(env.GetOr("[]")).None? ==> events == [] && exit == ExitError
    ensures decode(env.GetOr("[]")) == Some([]) ==> events == [] && exit == ExitOk
    ensures decode(env.GetOr("[]")).Some? && decode(env.GetOr("[]")).value != [] ==>
      var raised := RaisedAt(decode(env.GetOr("[]")).value, world, ProcessAccount);
      && events == [Connect(token)] + Rounds(raised, 0, false) + [CloseBrowser]
      && (exit == ExitError <==> true in raised || closeRaises)
  {
    var decoded := decode(env.GetOr("[]"));
    if decoded.None? {
      return [], ExitError;
    }
    if decoded.value == [] {
      return [], ExitOk;
    }
    var rounds, crashed := ProcessAll(RaisedAt(decoded.value, world, ProcessAccount), false);
    events := [Connect(token)] + rounds + [CloseBrowser];
    exit := if crashed || closeRaises then ExitError else ExitOk;
  }

  /** A row this script applies to also passes the local script's
      case-insensitive "Ordinary Shares" filter. */
  lemma ApplicableRowIsOrdinaryShares(row: Offering)
    requires IsApplicableRow(row)
    ensures HasText(row.isin, "Ordinary Shares")
  {
    ContainsLower(row.isin, "Ordinary Shares");
  }
}
