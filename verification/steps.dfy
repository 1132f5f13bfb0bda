/**
 The steps `scripts/uat3apply.py` and `scripts/localapply.py` share: opening
 a browser context, the login with DP selection, the two-page application
 form, and logging out before returning.
 */
module Steps {
  import opened Accounts
  import opened Session

  /** `context = await browser.new_context(...)` and `page = await context.new_page()`. */
  function Open(p: Portal): (r: Run)
    ensures r.flow.Running? || r.flow.Raised?
    ensures r.flow.Running? <==> NewContext !in p.throwing && NewPage !in p.throwing
    ensures NewContext in p.throwing ==> r.trace == [NewContext]
    ensures forall a :: a in r.trace ==> a == NewContext || a == NewPage
    ensures Clean(r, p) || r.flow.Raised?
  {
    Start.Do(NewContext, p).Do(NewPage, p)
  }

  predicate IsLoginStep(a: Action) {
    a.GotoPortal? || IsDpStep(a) || a.FillUsername? || a.FillPassword? || a.SubmitLogin? || a.AwaitDashboard?
  }

  /** The steps of the application form: first page, Proceed, PIN, final Apply. */
  predicate IsFormStep(a: Action) {
    a.FillApplicationForm? || a.ClickProceed? || a.FillPin? || a.ClickConfirm?
  }

  /** Steps whose exceptions a helper catches: DP selection, logout, the toast wait. */
  predicate CaughtStep(a: Action) {
    IsDpStep(a) || IsLogoutStep(a) || a.AwaitToast?
  }

  /** No step issued so far has raised an exception that reaches the `except` clause. */
  predicate Clean(r: Run, p: Portal) {
    forall a :: a in r.trace && a in p.throwing ==> CaughtStep(a)
  }

  /** Typing the credentials and waiting for the navbar after the DP is selected. */
  function Credentials(acct: Account): seq<Action> {
    [FillUsername(acct.username), FillPassword(acct.password), SubmitLogin, AwaitDashboard]
  }

  /** Every login step goes through and the DP is selected. */
  predicate LoginOk(acct: Account, p: Portal) {
    && GotoPortal !in p.throwing
    && SelectLoginDp(acct.dp, p).ok
    && forall a :: a in Credentials(acct) ==> a !in p.throwing
  }

  /** Open the portal, pick the DP, submit the credentials, wait for the navbar. */
  function Login(acct: Account, p: Portal, r: Run): (r': Run)
    requires r.flow.Running?
    ensures forall a :: a in r'.trace ==> a in r.trace || IsLoginStep(a)
    ensures r'.flow.Running? || r'.flow.Raised? || r'.flow == Returned(false)
    ensures r'.flow.Running? <==> LoginOk(acct, p)
    ensures Clean(r, p) && !r'.flow.Raised? ==> Clean(r', p)
    ensures !SelectLoginDp(acct.dp, p).ok ==>
      forall a :: a in r'.trace ==> a in r.trace || a.GotoPortal? || IsDpStep(a)
  {
    var r := r.Do(GotoPortal, p);
    if !r.flow.Running? then r
    else
      var dp := SelectLoginDp(acct.dp, p);
      if !dp.ok then r.Then(dp).Return(false)
      else DoAll(r.Then(dp), Credentials(acct), p)
  }

  predicate IsCredentialStep(a: Action) {
    a.FillUsername? || a.FillPassword? || a.SubmitLogin? || a.AwaitDashboard?
  }

  /** The form's first page (bank, account, units, CRN, disclaimer), Proceed, PIN, final Apply. */
  function FormSteps(acct: Account): seq<Action> {
    [FillApplicationForm(acct.units, acct.crn), ClickProceed, FillPin(acct.pin), ClickConfirm]
  }

  /** `await handle_logout(page); return b`. */
  function LogOutAndReturn(r: Run, p: Portal, b: bool): (r': Run)
    requires r.flow.Running?
    ensures r'.flow == Returned(b)
    ensures ClickLogout in r'.trace
    ensures forall a :: a in r'.trace ==> a in r.trace || IsLogoutStep(a)
    ensures Clean(r, p) ==> Clean(r', p)
  {
    r.Then(HandleLogout(p)).Return(b)
  }

  /** Every step before the offering rows are read goes through, DP included. */
  predicate LoginSucceeds(acct: Account, p: Portal) {
    && NewContext !in p.throwing
    && NewPage !in p.throwing
    && GotoPortal !in p.throwing
    && SelectLoginDp(acct.dp, p).ok
    && FillUsername(acct.username) !in p.throwing
    && FillPassword(acct.password) !in p.throwing
    && SubmitLogin !in p.throwing
    && AwaitDashboard !in p.throwing
  }

  /** Apply, both form pages and the final confirmation go through. */
  predicate SubmissionOk(acct: Account, p: Portal) {
    ClickApply !in p.throwing && forall a :: a in FormSteps(acct) ==> a !in p.throwing
  }

  /** The login phase goes through exactly when every step up to the navbar
      does, the DP option included. */
  lemma LoginSucceedsIff(acct: Account, p: Portal)
    ensures var r0 := Open(p);
      LoginSucceeds(acct, p) <==> r0.flow.Running? && LoginOk(acct, p)
  {
    var r0 := Open(p);
    assert r0.flow.Running? <==> NewContext !in p.throwing && NewPage !in p.throwing;
    var cs := Credentials(acct);
    assert (forall a :: a in cs ==> a !in p.throwing) <==>
      cs[0] !in p.throwing && cs[1] !in p.throwing && cs[2] !in p.throwing && cs[3] !in p.throwing;
  }
}
