/**
 The GitHub-workflow script `scripts/uat3apply.py`: for each account, log in
 with the DP chosen from the select2 list, scan the offering list for the
 first ordinary-share IPO, click Apply (or treat Edit as already applied),
 fill the two-page form, look for the result toast, log out; the batch loop
 waits after every account and closes the browser at the end.
 */
module Uat3Apply {
  import opened Options
  import opened Strings
  import opened Accounts
  import opened Session
  import opened Steps
  import opened Search

  // ---------------------------------------------------------------------------
  // Choosing the offering row
  // ---------------------------------------------------------------------------

  /** The scan's row test: the stripped, lower-cased ISIN label contains
      "ordinary" and the stripped, lower-cased share type contains "ipo". */
  predicate IsOrdinaryIpo(row: Offering) {
    Contains(Lower(Strip(row.isin)), "ordinary") && Contains(Lower(Strip(row.shareType)), "ipo")
  }

  /** Reference definition of the row the scan picks: the first ordinary IPO
      at or after index `i`, in display order. */
  function FirstOrdinaryIpo(rows: seq<Offering>, i: nat): (k: Option<nat>)
    requires i <= |rows|
    ensures k.Some? ==> i <= k.value < |rows| && IsOrdinaryIpo(rows[k.value])
    ensures k.Some? ==> forall j :: i <= j < k.value ==> !IsOrdinaryIpo(rows[j])
    ensures k.None? ==> forall j :: i <= j < |rows| ==> !IsOrdinaryIpo(rows[j])
  {
    First(rows, IsOrdinaryIpo, i)
  }

  /** Reading the labels of every row the scan visits succeeds: each row up to
      and including the first match, or every row when none matches. */
  predicate ScanOk(rows: seq<Offering>, i: nat, p: Portal)
    requires i <= |rows|
    decreases |rows| - i
  {
    i == |rows| || (ReadRow(i) !in p.throwing && (IsOrdinaryIpo(rows[i]) || ScanOk(rows, i + 1, p)))
  }

  /**
   The `for i in range(total)` loop: read row `i`'s labels (which may raise),
   stop at the first ordinary IPO.
   */
  function Scan(rows: seq<Offering>, i: nat, r: Run, p: Portal): (res: (Run, Option<nat>))
    requires i <= |rows|
    requires r.flow.Running?
    ensures res.0.flow.Running? || res.0.flow.Raised?
    ensures res.0.flow.Running? <==> ScanOk(rows, i, p)
    ensures res.0.flow.Running? ==> res.1 == FirstOrdinaryIpo(rows, i)
    ensures |r.trace| <= |res.0.trace| && res.0.trace[..|r.trace|] == r.trace
    ensures forall k :: |r.trace| <= k < |res.0.trace| ==> res.0.trace[k].ReadRow?
    ensures forall a :: a in res.0.trace ==> a in r.trace || a.ReadRow?
    ensures Clean(r, p) && res.0.flow.Running? ==> Clean(res.0, p)
    decreases |rows| - i
  {
    if i == |rows| then (r, None)
    else
      var r' := r.Do(ReadRow(i), p);
      if !r'.flow.Running? then (r', None)
      else if IsOrdinaryIpo(rows[i]) then (r', Some(i))
      else Scan(rows, i + 1, r', p)
  }

  // ---------------------------------------------------------------------------
  // process_account
  // ---------------------------------------------------------------------------

  /** The toast check: its wait may time out, which is caught and only logged. */
  function ReadToast(p: Portal): (c: Call)
    ensures c.trace == [AwaitToast]
    ensures c.ok <==> p.toast.Toast? && AwaitToast !in p.throwing
  {
    var r := Start.Await(AwaitToast, p.toast.Toast?, p);
    Call(r.trace, r.flow.Running?)
  }

  /** The two form pages, the toast check and the logout, after Apply was clicked. */
  function Submit(acct: Account, p: Portal, r: Run): (r': Run)
    requires r.flow.Running?
    ensures forall a :: a in r'.trace ==> a in r.trace || IsFormStep(a) || a.AwaitToast? || IsLogoutStep(a)
    ensures r'.flow.Raised? || r'.flow == Returned(true)
    ensures r'.flow == Returned(true) <==> forall a :: a in FormSteps(acct) ==> a !in p.throwing
    ensures ClickApply in r.trace ==> ClickApply in r'.trace
    ensures Clean(r, p) && !r'.flow.Raised? ==> Clean(r', p)
  {
    var r := DoAll(r, FormSteps(acct), p);
    if !r.flow.Running? then r
    else r.Then(ReadToast(p)).Then(HandleLogout(p)).Return(true)
  }

  /** What follows the scan: log out when no row matched; otherwise Apply is
      checked before Edit, and Edit alone means already applied. */
  function Decide(acct: Account, p: Portal, found: Option<nat>, r: Run): (r': Run)
    requires found.Some? ==> found.value < |p.rows|
    requires r.flow.Running?
    ensures !r'.flow.Running?
    ensures forall a :: a in r'.trace ==> a in r.trace || a.ClickApply? || IsFormStep(a) || a.AwaitToast? || IsLogoutStep(a)
    ensures found.Some? && p.rows[found.value].applyVisible ==> ClickApply in r'.trace
    ensures !(found.Some? && p.rows[found.value].applyVisible) ==>
      forall a :: a in r'.trace ==> a in r.trace || IsLogoutStep(a)
    ensures !(found.Some? && p.rows[found.value].applyVisible) ==>
      r'.flow == Returned(found.Some? && p.rows[found.value].editVisible) && ClickLogout in r'.trace
    ensures found.Some? && p.rows[found.value].applyVisible ==>
      (r'.flow == Returned(true) <==> ClickApply !in p.throwing && forall a :: a in FormSteps(acct) ==> a !in p.throwing)
    ensures Clean(r, p) && !r'.flow.Raised? ==> Clean(r', p)
  {
    if found.None? then LogOutAndReturn(r, p, false)
    else
      var row := p.rows[found.value];
      if row.applyVisible then
        var r1 := r.Do(ClickApply, p);
        if !r1.flow.Running? then r1 else Submit(acct, p, r1)
      else LogOutAndReturn(r, p, row.editVisible)
  }

  predicate IsOfferingStep(a: Action) {
    a.GotoAsba? || a.AwaitOfferings? || a.ReadRow? || a.ClickApply? || IsFormStep(a) || a.AwaitToast? || IsLogoutStep(a)
  }

  /** The offering list loads and every row the scan visits can be read. */
  predicate ScanSucceeds(p: Portal) {
    GotoAsba !in p.throwing && AwaitOfferings !in p.throwing && |p.rows| > 0 && ScanOk(p.rows, 0, p)
  }

  /** The scan over the loaded rows, and what follows it. */
  function ScanThenDecide(acct: Account, p: Portal, r: Run): (r': Run)
    requires r.flow.Running?
    ensures !r'.flow.Running?
    ensures forall a :: a in r'.trace ==> a in r.trace || a.ReadRow? || a.ClickApply? || IsFormStep(a) || a.AwaitToast? || IsLogoutStep(a)
    ensures !ScanOk(p.rows, 0, p) ==> r'.flow.Raised? && forall a :: a in r'.trace ==> a in r.trace || a.ReadRow?
    ensures forall a :: a in r'.trace && a !in r.trace && IsFormStep(a) ==> ClickApply in r'.trace
    ensures Clean(r, p) && !r'.flow.Raised? ==> Clean(r', p)
  {
    var scan := Scan(p.rows, 0, r, p);
    if !scan.0.flow.Running? then scan.0
    else Decide(acct, p, scan.1, scan.0)
  }

  /** The offering page: open it, wait for rows, scan them, act on the result. */
  function Offerings(acct: Account, p: Portal, r: Run): (r': Run)
    requires r.flow.Running?
    ensures !r'.flow.Running?
    ensures forall a :: a in r'.trace ==> a in r.trace || IsOfferingStep(a)
    ensures !ScanSucceeds(p) ==> r'.flow.Raised?
    ensures Clean(r, p) && !r'.flow.Raised? ==> Clean(r', p)
  {
    var r1 := r.Do(GotoAsba, p).Await(AwaitOfferings, |p.rows| > 0, p);
    if !r1.flow.Running? then r1
    else
      assert forall a :: a in r1.trace ==> a in r.trace || a == GotoAsba || a == AwaitOfferings;
      assert Clean(r, p) ==> Clean(r1, p);
      ScanThenDecide(acct, p, r1)
  }

  /** When the list does not load or a visited row cannot be read, the page
      raises before anything is clicked. */
  lemma OfferingsScanFails(acct: Account, p: Portal, r: Run)
    requires r.flow.Running? && !ScanSucceeds(p)
    ensures forall a :: a in Offerings(acct, p, r).trace ==>
      a in r.trace || a.GotoAsba? || a.AwaitOfferings? || a.ReadRow?
  {
    var r1 := r.Do(GotoAsba, p).Await(AwaitOfferings, |p.rows| > 0, p);
    if r1.flow.Running? {
      assert !ScanOk(p.rows, 0, p);
      assert forall a :: a in r1.trace ==> a in r.trace || a == GotoAsba || a == AwaitOfferings;
      assert Offerings(acct, p, r) == ScanThenDecide(acct, p, r1);
    }
  }

  /** On the offering page, the form is only filled after Apply was clicked. */
  lemma OfferingsFormsAfterApply(acct: Account, p: Portal, r: Run)
    requires r.flow.Running?
    ensures var r' := Offerings(acct, p, r);
      forall a :: a in r'.trace && a !in r.trace && IsFormStep(a) ==> ClickApply in r'.trace
  {
    var r1 := r.Do(GotoAsba, p).Await(AwaitOfferings, |p.rows| > 0, p);
    if r1.flow.Running? {
      assert forall a :: a in r1.trace ==> a in r.trace || a == GotoAsba || a == AwaitOfferings;
      assert Offerings(acct, p, r) == ScanThenDecide(acct, p, r1);
    }
  }

  /** Once the rows are scanned and the first ordinary IPO shows Apply, Apply
      is clicked and the result is True exactly when the form goes through. */
  lemma OfferingsApply(acct: Account, p: Portal, r: Run)
    requires r.flow.Running? && ScanSucceeds(p)
    requires var k := FirstOrdinaryIpo(p.rows, 0); k.Some? && p.rows[k.value].applyVisible
    ensures ClickApply in Offerings(acct, p, r).trace
    ensures Offerings(acct, p, r).flow == Returned(true) <==>
      ClickApply !in p.throwing && forall a :: a in FormSteps(acct) ==> a !in p.throwing
  {
    var r1 := r.Do(GotoAsba, p).Await(AwaitOfferings, |p.rows| > 0, p);
    assert r1.flow.Running?;
    var scan := Scan(p.rows, 0, r1, p);
    assert scan.0.flow.Running? && scan.1 == FirstOrdinaryIpo(p.rows, 0);
    assert Offerings(acct, p, r) == Decide(acct, p, scan.1, scan.0);
  }

  /** Once the rows are scanned and no ordinary IPO shows Apply, the script
      logs out and returns whether the row it found shows Edit. */
  lemma OfferingsNoApply(acct: Account, p: Portal, r: Run)
    requires r.flow.Running? && ScanSucceeds(p)
    requires var k := FirstOrdinaryIpo(p.rows, 0); !(k.Some? && p.rows[k.value].applyVisible)
    ensures var k := FirstOrdinaryIpo(p.rows, 0);
      Offerings(acct, p, r).flow == Returned(k.Some? && p.rows[k.value].editVisible)
    ensures ClickLogout in Offerings(acct, p, r).trace
    ensures forall a :: a in Offerings(acct, p, r).trace ==> a in r.trace || !a.ClickApply?
  {
    var r1 := r.Do(GotoAsba, p).Await(AwaitOfferings, |p.rows| > 0, p);
    assert r1.flow.Running?;
    var scan := Scan(p.rows, 0, r1, p);
    assert scan.0.flow.Running? && scan.1 == FirstOrdinaryIpo(p.rows, 0);
    assert Offerings(acct, p, r) == Decide(acct, p, scan.1, scan.0);
  }

  /** Once the rows are scanned, the first ordinary IPO decides what happens. */
  lemma OfferingsOutcome(acct: Account, p: Portal, r: Run)
    requires r.flow.Running? && ScanSucceeds(p)
    ensures var r' := Offerings(acct, p, r);
      var k := FirstOrdinaryIpo(p.rows, 0);
      && (k.Some? && p.rows[k.value].applyVisible ==> ClickApply in r'.trace)
      && (k.Some? && p.rows[k.value].applyVisible ==>
            (r'.flow == Returned(true) <==> ClickApply !in p.throwing && forall a :: a in FormSteps(acct) ==> a !in p.throwing))
      && (!(k.Some? && p.rows[k.value].applyVisible) ==>
            && r'.flow == Returned(k.Some? && p.rows[k.value].editVisible)
            && ClickLogout in r'.trace
            && forall a :: a in r'.trace ==> a in r.trace || !a.ClickApply?)
  {
    var k := FirstOrdinaryIpo(p.rows, 0);
    if k.Some? && p.rows[k.value].applyVisible {
      OfferingsApply(acct, p, r);
    } else {
      OfferingsNoApply(acct, p, r);
    }
  }

  /** The session gets as far as a decision on the scanned rows. */
  predicate ReachesDecision(acct: Account, p: Portal) {
    LoginSucceeds(acct, p) && ScanSucceeds(p)
  }

  /** The scan found an ordinary IPO and its row shows Apply. */
  predicate Applies(acct: Account, p: Portal) {
    ReachesDecision(acct, p) && FirstOrdinaryIpo(p.rows, 0).Some? && p.rows[FirstOrdinaryIpo(p.rows, 0).value].applyVisible
  }

  /** The scan found an ordinary IPO whose row does not show Apply. */
  predicate FindsNoApply(acct: Account, p: Portal) {
    ReachesDecision(acct, p) && FirstOrdinaryIpo(p.rows, 0).Some? && !p.rows[FirstOrdinaryIpo(p.rows, 0).value].applyVisible
  }

  /** The `try` block of `process_account`. */
  function Body(acct: Account, p: Portal): (r: Run)
    ensures !r.flow.Running?
    ensures NewContext in p.throwing ==> r.trace == [NewContext] && r.flow.Raised?
    ensures !r.flow.Raised? ==> Clean(r, p)
  {
    var r0 := Open(p);
    if !r0.flow.Running? then r0
    else
      var r1 := Login(acct, p, r0);
      if !r1.flow.Running? then r1
      else Offerings(acct, p, r1)
  }

  /**
   `process_account`: the actions issued and what it returns (or that it
   raises, which only closing the context can cause).
   */
  function ProcessAccount(acct: Account, p: Portal): (o: Run)
    // any exception in the body yields False; only a failing context close escapes
    ensures o.flow.Returned? || o.flow.Raised?
    ensures o.flow.Raised? <==> NewContext !in p.throwing && CloseContext in p.throwing
    ensures o.flow == Returned(true) ==> Clean(o, p)
    // a created context is closed on every path, as the last action
    ensures NewContext !in p.throwing ==> |o.trace| > 0 && o.trace[|o.trace| - 1] == CloseContext
    ensures NewContext in p.throwing ==> o.trace == [NewContext] && o.flow == Returned(false)
  {
    Conclude(Body(acct, p), p)
  }

  /** No credentials are typed, and the result is not True, unless the DP option was selected. */
  lemma NoCredentialsWithoutDp(acct: Account, p: Portal)
    requires !SelectLoginDp(acct.dp, p).ok
    ensures ProcessAccount(acct, p).flow != Returned(true)
    ensures forall a :: a in ProcessAccount(acct, p).trace ==> !IsCredentialStep(a)
  {
    var r0 := Open(p);
    if r0.flow.Running? {
      var r1 := Login(acct, p, r0);
      assert !r1.flow.Running?;
    }
  }

  /** Apply is clicked exactly when the first ordinary IPO row shows it, and
      the form is only filled after Apply. */
  lemma ApplyClickedExactly(acct: Account, p: Portal)
    ensures ClickApply in ProcessAccount(acct, p).trace <==> Applies(acct, p)
    ensures forall a :: a in ProcessAccount(acct, p).trace && IsFormStep(a) ==> ClickApply in ProcessAccount(acct, p).trace
  {
    var b := Body(acct, p);
    var o := ProcessAccount(acct, p);
    assert forall a :: a in o.trace ==> a in b.trace || a == CloseContext;
    assert forall a :: a in b.trace ==> a in o.trace;
    BodyClicksApply(acct, p);
    BodyFormsAfterApply(acct, p);
  }

  /** `ApplyClickedExactly` for the `try` block alone. */
  lemma BodyClicksApply(acct: Account, p: Portal)
    ensures ClickApply in Body(acct, p).trace <==> Applies(acct, p)
  {
    var b := Body(acct, p);
    var r0 := Open(p);
    LoginSucceedsIff(acct, p);
    if !r0.flow.Running? {
      assert b == r0;
    } else {
      var r1 := Login(acct, p, r0);
      if !r1.flow.Running? {
        assert b == r1;
      } else {
        assert b == Offerings(acct, p, r1);
        if ScanSucceeds(p) {
          OfferingsOutcome(acct, p, r1);
        } else {
          OfferingsScanFails(acct, p, r1);
        }
      }
    }
  }

  /** In the `try` block, the form is only filled after Apply was clicked. */
  lemma BodyFormsAfterApply(acct: Account, p: Portal)
    ensures forall a :: a in Body(acct, p).trace && IsFormStep(a) ==> ClickApply in Body(acct, p).trace
  {
    var b := Body(acct, p);
    var r0 := Open(p);
    assert forall a :: a in r0.trace ==> !IsFormStep(a);
    if r0.flow.Running? {
      var r1 := Login(acct, p, r0);
      assert forall a :: a in r1.trace ==> a in r0.trace || IsLoginStep(a);
      assert forall a :: IsLoginStep(a) ==> !IsFormStep(a);
      if r1.flow.Running? {
        assert b == Offerings(acct, p, r1);
        OfferingsFormsAfterApply(acct, p, r1);
      }
    }
  }

  /** The three ways a session that reaches the scan ends. */
  lemma DecisionOutcome(acct: Account, p: Portal)
    requires ReachesDecision(acct, p)
    ensures var o := ProcessAccount(acct, p);
      var k := FirstOrdinaryIpo(p.rows, 0);
      // no ordinary IPO: log out, False
      && (k.None? ==> ClickLogout in o.trace && o.flow != Returned(true))
      // Edit only: already applied, log out, True
      && (k.Some? && !p.rows[k.value].applyVisible ==>
            ClickLogout in o.trace && (CloseContext !in p.throwing ==> o.flow == Returned(p.rows[k.value].editVisible)))
      // once the PIN page is confirmed the result is True, whatever the toast says
      && (k.Some? && p.rows[k.value].applyVisible && CloseContext !in p.throwing ==>
            (o.flow == Returned(true) <==> SubmissionOk(acct, p)))
  {
    var r0 := Open(p);
    var r1 := Login(acct, p, r0);
    OfferingsOutcome(acct, p, r1);
  }

  /** True comes only from a confirmed submission or from an Edit-only row. */
  lemma TrueOnlyWhenApplied(acct: Account, p: Portal)
    requires ProcessAccount(acct, p).flow == Returned(true)
    ensures || (Applies(acct, p) && SubmissionOk(acct, p))
            || (FindsNoApply(acct, p) && p.rows[FirstOrdinaryIpo(p.rows, 0).value].editVisible)
  {
    var b := Body(acct, p);
    assert b.flow == Returned(true);
    var r0 := Open(p);
    LoginSucceedsIff(acct, p);
    assert r0.flow.Running?;
    var r1 := Login(acct, p, r0);
    assert r1.flow.Running?;
    assert b == Offerings(acct, p, r1);
    assert ScanSucceeds(p);
    OfferingsOutcome(acct, p, r1);
  }

  // ---------------------------------------------------------------------------
  // The toast is only logged
  // ---------------------------------------------------------------------------

  /** Two portals that differ at most in the result toast and in whether
      waiting for it times out. */
  ghost predicate SameBesidesToast(p: Portal, q: Portal) {
    && p.dpOptions == q.dpOptions
    && p.rows == q.rows
    && forall a :: a != AwaitToast ==> (a in p.throwing <==> a in q.throwing)
  }

  /** The scan only depends on which rows cannot be read. */
  lemma {:induction false} ScanAgrees(rows: seq<Offering>, i: nat, r: Run, p: Portal, q: Portal)
    requires forall j :: ReadRow(j) in p.throwing <==> ReadRow(j) in q.throwing
    requires i <= |rows|
    requires r.flow.Running?
    ensures Scan(rows, i, r, p) == Scan(rows, i, r, q)
    decreases |rows| - i
  {
    if i < |rows| {
      var r' := r.Do(ReadRow(i), p);
      assert r' == r.Do(ReadRow(i), q);
      if r'.flow.Running? && !IsOrdinaryIpo(rows[i]) {
        ScanAgrees(rows, i + 1, r', p, q);
      }
    }
  }

  lemma LoginIgnoresToast(acct: Account, p: Portal, q: Portal, r: Run)
    requires SameBesidesToast(p, q)
    requires r.flow.Running?
    ensures Login(acct, p, r) == Login(acct, q, r)
  {
    assert SelectLoginDp(acct.dp, p) == SelectLoginDp(acct.dp, q);
    DoAllAgree(r.Do(GotoPortal, p).Then(SelectLoginDp(acct.dp, p)), Credentials(acct), p, q);
  }

  lemma DecideIgnoresToast(acct: Account, p: Portal, q: Portal, found: Option<nat>, r: Run)
    requires SameBesidesToast(p, q)
    requires found.Some? ==> found.value < |p.rows|
    requires r.flow.Running?
    ensures Decide(acct, p, found, r) == Decide(acct, q, found, r)
  {
    assert HandleLogout(p) == HandleLogout(q);
    if found.Some? && p.rows[found.value].applyVisible {
      var r1 := r.Do(ClickApply, p);
      assert r1 == r.Do(ClickApply, q);
      if r1.flow.Running? {
        DoAllAgree(r1, FormSteps(acct), p, q);
        assert ReadToast(p).trace == ReadToast(q).trace;
      }
    }
  }

  lemma OfferingsIgnoresToast(acct: Account, p: Portal, q: Portal, r: Run)
    requires SameBesidesToast(p, q)
    requires r.flow.Running?
    ensures Offerings(acct, p, r) == Offerings(acct, q, r)
  {
    var r1 := r.Do(GotoAsba, p).Await(AwaitOfferings, |p.rows| > 0, p);
    assert r1 == r.Do(GotoAsba, q).Await(AwaitOfferings, |q.rows| > 0, q);
    if r1.flow.Running? {
      assert forall j :: ReadRow(j) in p.throwing <==> ReadRow(j) in q.throwing;
      ScanAgrees(p.rows, 0, r1, p, q);
      var scan := Scan(p.rows, 0, r1, p);
      if scan.0.flow.Running? {
        DecideIgnoresToast(acct, p, q, scan.1, scan.0);
      }
      assert ScanThenDecide(acct, p, r1) == ScanThenDecide(acct, q, r1);
    }
  }

  lemma BodyIgnoresToast(acct: Account, p: Portal, q: Portal)
    requires SameBesidesToast(p, q)
    ensures Body(acct, p) == Body(acct, q)
  {
    var r0 := Open(p);
    assert r0 == Open(q);
    if r0.flow.Running? {
      LoginIgnoresToast(acct, p, q, r0);
      var r1 := Login(acct, p, r0);
      if r1.flow.Running? {
        OfferingsIgnoresToast(acct, p, q, r1);
      }
    }
  }

  /**
   Whatever the toast says, and whether or not it shows up in time, the
   session issues the same actions and `process_account` returns the same
   value: the toast check only writes to the log.
   */
  lemma ToastIrrelevant(acct: Account, p: Portal, q: Portal)
    requires SameBesidesToast(p, q)
    ensures ProcessAccount(acct, p) == ProcessAccount(acct, q)
  {
    BodyIgnoresToast(acct, p, q);
    assert NewContext in p.throwing <==> NewContext in q.throwing;
    assert CloseContext in p.throwing <==> CloseContext in q.throwing;
  }

  // ---------------------------------------------------------------------------
  // main
  // ---------------------------------------------------------------------------

  /**
   `main`: read ACCOUNTS_JSON (`env`, decoded by `decode`), launch a headless
   browser, process the accounts in order with a pause after each, and close
   the browser even when an account raises; that exception then ends the
   script with an error. `closeRaises` says whether `browser.close()` raises;
   nothing catches that exception either. A missing or empty variable ends it
   quietly; a value that is not JSON raises before any browser is launched.
   */
  method Batch(env: Option<string>, decode: string -> Option<seq<Account>>, world: nat -> Portal, closeRaises: bool)
    returns (events: seq<Event>, exit: Exit)
    ensures env.None? || env == Some("") ==> events == [] && exit == ExitOk
    ensures env.Some? && env.value != "" && decode(env.value).None? ==> events == [] && exit == ExitError
    ensures env.Some? && env.value != "" && decode(env.value).Some? ==>
      var raised := RaisedAt(decode(env.value).value, world, ProcessAccount);
      && events == [Launch(true)] + Rounds(raised, 0, true) + [CloseBrowser]
      && (exit == ExitError <==> true in raised || closeRaises)
  {
    if env.None? || env.value == "" {
      return [], ExitOk;
    }
    var decoded := decode(env.value);
    if decoded.None? {
      return [], ExitError;
    }
    var rounds, crashed := ProcessAll(RaisedAt(decoded.value, world, ProcessAccount), true);
    events := [Launch(true)] + rounds + [CloseBrowser];
    exit := if crashed || closeRaises then ExitError else ExitOk;
  }
}
