/**
 The local script `scripts/localapply.py`, started by the dashboard's local
 route: the same login and form as the workflow script, but the offering row
 is the first one whose ISIN label shows "Ordinary Shares", a row without a
 visible Apply button is skipped as already applied, and the script never
 looks at the toast or at the Edit button.
 */
module LocalApply {
  import opened Options
  import opened Strings
  import opened Accounts
  import opened Session
  import opened Steps
  import opened Search

  // ---------------------------------------------------------------------------
  // process_account
  // ---------------------------------------------------------------------------

  /** The row locator's filter: the ISIN label has the text "Ordinary Shares",
      case-insensitively. The share type is not consulted. */
  predicate IsOrdinaryShares(row: Offering) {
    HasText(row.isin, "Ordinary Shares")
  }

  /** The locator's `.first`: the first matching row at or after `i`. */
  function FirstOrdinaryShares(rows: seq<Offering>, i: nat): (k: Option<nat>)
    requires i <= |rows|
    ensures k.Some? ==> i <= k.value < |rows| && IsOrdinaryShares(rows[k.value])
    ensures k.Some? ==> forall j :: i <= j < k.value ==> !IsOrdinaryShares(rows[j])
    ensures k.None? ==> forall j :: i <= j < |rows| ==> !IsOrdinaryShares(rows[j])
  {
    First(rows, IsOrdinaryShares, i)
  }

  /** The wizard after Apply was clicked, then the logout. */
  function Wizard(acct: Account, p: Portal, r: Run): (r': Run)
    requires r.flow.Running?
    ensures r'.flow.Raised? || r'.flow == Returned(true)
    ensures r'.flow == Returned(true) <==> forall a :: a in FormSteps(acct) ==> a !in p.throwing
    ensures forall a :: a in r'.trace ==> a in r.trace || IsFormStep(a) || IsLogoutStep(a)
    ensures forall a :: a in r.trace ==> a in r'.trace
  {
    var r1 := DoAll(r, FormSteps(acct), p);
    if !r1.flow.Running? then r1 else LogOutAndReturn(r1, p, true)
  }

  /** The offering page: open it, take the first "Ordinary Shares" row, Apply
      when its button is visible and skip it otherwise; both paths log out. */
  function Offerings(acct: Account, p: Portal, r: Run): (r': Run)
    requires r.flow.Running?
    ensures !r'.flow.Running?
    ensures forall a :: a in r'.trace ==> a in r.trace || a.GotoAsba? || a.ClickApply? || IsFormStep(a) || IsLogoutStep(a)
    ensures var k := FirstOrdinaryShares(p.rows, 0);
      r'.flow == Returned(true) <==>
        && GotoAsba !in p.throwing
        && k.Some?
        && (p.rows[k.value].applyVisible ==> SubmissionOk(acct, p))
    ensures r'.flow.Returned? ==> ClickLogout in r'.trace
    // no "Ordinary Shares" row: log out and return False
    ensures GotoAsba !in p.throwing && FirstOrdinaryShares(p.rows, 0).None? ==>
      r'.flow == Returned(false) && ClickLogout in r'.trace
    // the form is only filled in after Apply was clicked
    ensures forall a :: a in r'.trace && a !in r.trace && IsFormStep(a) ==> ClickApply in r'.trace
    ensures ClickApply in r'.trace && ClickApply !in r.trace ==>
      && GotoAsba !in p.throwing
      && FirstOrdinaryShares(p.rows, 0).Some?
      && p.rows[FirstOrdinaryShares(p.rows, 0).value].applyVisible
  {
    var r1 := r.Do(GotoAsba, p);
    if !r1.flow.Running? then r1
    else
      var k := FirstOrdinaryShares(p.rows, 0);
      if k.None? then LogOutAndReturn(r1, p, false)
      else if p.rows[k.value].applyVisible then
        var r2 := r1.Do(ClickApply, p);
        if !r2.flow.Running? then r2 else Wizard(acct, p, r2)
      else LogOutAndReturn(r1, p, true)
  }

  /** The `try` block of `process_account`. */
  function Body(acct: Account, p: Portal): (r: Run)
    ensures !r.flow.Running?
    ensures NewContext in p.throwing ==> r.trace == [NewContext] && r.flow.Raised?
  {
    var r0 := Open(p);
    if !r0.flow.Running? then r0
    else
      var r1 := Login(acct, p, r0);
      if !r1.flow.Running? then r1
      else Offerings(acct, p, r1)
  }

  /** `process_account`: its actions and its result, or that closing the context raised. */
  function ProcessAccount(acct: Account, p: Portal): (o: Run)
    ensures o.flow.Returned? || o.flow.Raised?
    ensures o.flow.Raised? <==> NewContext !in p.throwing && CloseContext in p.throwing
    ensures NewContext !in p.throwing ==> |o.trace| > 0 && o.trace[|o.trace| - 1] == CloseContext
    ensures NewContext in p.throwing ==> o.trace == [NewContext] && o.flow == Returned(false)
  {
    Conclude(Body(acct, p), p)
  }

  /** Login, the offering page and, when Apply shows, the whole form go through,
      and an "Ordinary Shares" row exists. */
  predicate Succeeds(acct: Account, p: Portal) {
    var k := FirstOrdinaryShares(p.rows, 0);
    && LoginSucceeds(acct, p)
    && GotoAsba !in p.throwing
    && k.Some?
    && (p.rows[k.value].applyVisible ==> SubmissionOk(acct, p))
  }

  /**
   `process_account` returns True exactly when the session succeeds, which
   includes skipping a row whose Apply button is hidden: "already applied"
   and "submitted" are both True.
   */
  lemma TrueExactlyWhenSucceeds(acct: Account, p: Portal)
    requires CloseContext !in p.throwing
    ensures ProcessAccount(acct, p).flow == Returned(true) <==> Succeeds(acct, p)
  {
    var b := Body(acct, p);
    var r0 := Open(p);
    LoginSucceedsIff(acct, p);
    if r0.flow.Running? {
      var r1 := Login(acct, p, r0);
      if r1.flow.Running? {
        assert b == Offerings(acct, p, r1);
      } else {
        assert b == r1;
      }
    }
  }

  /** No credentials are typed, and the result is not True, unless the DP option was selected. */
  lemma NoCredentialsWithoutDp(acct: Account, p: Portal)
    requires !SelectLoginDp(acct.dp, p).ok
    ensures ProcessAccount(acct, p).flow != Returned(true)
    ensures forall a :: a in ProcessAccount(acct, p).trace ==> !IsCredentialStep(a)
  {
    var r0 := Open(p);
    if r0.flow.Running? {
      var r1 := Login(acct, p, r0);
      assert !r1.flow.Running?;
    }
  }

  /** Apply is only clicked on the first "Ordinary Shares" row, and only when it shows Apply. */
  lemma ApplyOnlyOnFirstMatch(acct: Account, p: Portal)
    requires ClickApply in ProcessAccount(acct, p).trace
    ensures LoginSucceeds(acct, p)
    ensures FirstOrdinaryShares(p.rows, 0).Some?
    ensures p.rows[FirstOrdinaryShares(p.rows, 0).value].applyVisible
  {
    var b := Body(acct, p);
    assert ClickApply in b.trace;
    var r0 := Open(p);
    LoginSucceedsIff(acct, p);
    assert r0.flow.Running?;
    var r1 := Login(acct, p, r0);
    assert forall a :: a in r1.trace ==> a in r0.trace || IsLoginStep(a);
    assert r1.flow.Running?;
    assert b == Offerings(acct, p, r1);
  }

  // ---------------------------------------------------------------------------
  // What the script never looks at
  // ---------------------------------------------------------------------------

  /** Two offering lists that agree on everything but the Edit buttons. */
  ghost predicate SameBesidesEdit(rows: seq<Offering>, rows': seq<Offering>) {
    && |rows| == |rows'|
    && forall j :: 0 <= j < |rows| ==>
         rows[j].(editVisible := rows'[j].editVisible) == rows'[j]
  }

  lemma {:induction false} FirstIgnoresEdit(rows: seq<Offering>, rows': seq<Offering>, i: nat)
    requires SameBesidesEdit(rows, rows')
    requires i <= |rows|
    ensures FirstOrdinaryShares(rows, i) == FirstOrdinaryShares(rows', i)
    decreases |rows| - i
  {
    if i < |rows| {
      assert rows[i].isin == rows'[i].isin;
      FirstIgnoresEdit(rows, rows', i + 1);
    }
  }

  lemma OfferingsIgnoresEdit(acct: Account, p: Portal, q: Portal, r: Run)
    requires p.throwing == q.throwing
    requires SameBesidesEdit(p.rows, q.rows)
    requires r.flow.Running?
    ensures Offerings(acct, p, r) == Offerings(acct, q, r)
  {
    FirstIgnoresEdit(p.rows, q.rows, 0);
    var k := FirstOrdinaryShares(p.rows, 0);
    var r1 := r.Do(GotoAsba, p);
    assert r1 == r.Do(GotoAsba, q);
    assert HandleLogout(p) == HandleLogout(q);
    if r1.flow.Running? && k.Some? {
      assert p.rows[k.value].applyVisible == q.rows[k.value].applyVisible;
      var r2 := r1.Do(ClickApply, p);
      assert r2 == r1.Do(ClickApply, q);
      if r2.flow.Running? {
        DoAllAgree(r2, FormSteps(acct), p, q);
        assert Wizard(acct, p, r2) == Wizard(acct, q, r2);
      }
    }
  }

  /**
   The Edit buttons and the toast never change what the local script does:
   two portals that differ only there give the same actions and the same result.
   */
  lemma EditAndToastNeverInspected(acct: Account, p: Portal, q: Portal)
    requires p.dpOptions == q.dpOptions && p.throwing == q.throwing
    requires SameBesidesEdit(p.rows, q.rows)
    ensures ProcessAccount(acct, p) == ProcessAccount(acct, q)
  {
    var r0 := Open(p);
    assert r0 == Open(q);
    if r0.flow.Running? {
      var r1 := Login(acct, p, r0);
      assert SelectLoginDp(acct.dp, p) == SelectLoginDp(acct.dp, q);
      DoAllAgree(r0.Do(GotoPortal, p).Then(SelectLoginDp(acct.dp, p)), Credentials(acct), p, q);
      assert r1 == Login(acct, q, r0);
      if r1.flow.Running? {
        OfferingsIgnoresEdit(acct, p, q, r1);
      }
    }
    assert Body(acct, p) == Body(acct, q);
  }

  // ---------------------------------------------------------------------------
  // main
  // ---------------------------------------------------------------------------

  /**
   Where the accounts come from: the first command-line argument when the
   dashboard passes one (with a visible browser), else ACCOUNTS_JSON with
   "[]" as its default (headless).
   */
  function AccountSource(argv: seq<string>, env: Option<string>): (src: (string, bool))
    ensures |argv| > 1 ==> src == (argv[1], false)
    ensures |argv| <= 1 && env.Some? ==> src == (env.value, true)
    ensures |argv| <= 1 && env.None? ==> src == ("[]", true)
  {
    if |argv| > 1 then (argv[1], false) else (env.GetOr("[]"), true)
  }

  /**
   `main`: every exception, a JSON error included, is caught and only logged,
   so the script always exits normally; an account that raises ends the loop
   before `browser.close()` is reached.
   */
  method Batch(argv: seq<string>, env: Option<string>, decode: string -> Option<seq<Account>>, world: nat -> Portal)
    returns (events: seq<Event>, exit: Exit)
    ensures exit == ExitOk
    ensures decode(AccountSource(argv, env).0).None? ==> events == []
    ensures decode(AccountSource(argv, env).0).Some? ==>
      var raised := RaisedAt(decode(AccountSource(argv, env).0).value, world, ProcessAccount);
      events == [Launch(AccountSource(argv, env).1)] + Rounds(raised, 0, true)
                + (if true in raised then [] else [CloseBrowser])
  {
    var (raw, headless) := AccountSource(argv, env);
    var decoded := decode(raw);
    if decoded.None? {
      return [], ExitOk;
    }
    var rounds, crashed := ProcessAll(RaisedAt(decoded.value, world, ProcessAccount), true);
    events := [Launch(headless)] + rounds;
    if !crashed {
      events := events + [CloseBrowser];
    }
    exit := ExitOk;
  }
}
