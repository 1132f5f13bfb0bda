# MeroShare IPO automation, modelled in Dafny

This project models MeroShare IPO automation. The system applies to open IPOs on the MeroShare portal for a batch of accounts, and it has two halves:

- **The dashboard** (a Next.js app). A user uploads a CSV of accounts. The page keeps the complete rows. Starting the process posts them to `POST /api/dispatch`, which asks GitHub to run the workflow through a `repository_dispatch` event. The logs routes find the workflow's artifact for an upload and serve its metadata or its zip archive. `POST /api/local` runs the local script instead and streams its output back.
- **The browser scripts** (Python, Playwright). These are `uat3apply.py` for the workflow, `localapply.py` for local runs and `apply.py` for a remote browser. For each account, a script logs in, finds the offering row, fills in the application form and reports True or False. The batch loop waits between accounts and closes the browser at the end.

How the model represents these:

- **A browser session** is a `Session.Portal`. A portal holds what the pages show: the DP options, the offering rows and the result toast. It also lists which Playwright actions raise an exception; a timeout is one case.
- **A script's control flow** is a `Session.Run`: the trace of actions issued so far, plus whether the code is still running, has returned a boolean or has raised. Each `process_account` is a pure function from an account and a portal to its run.
- **Each batch loop** (`main`) is a method. It returns the browser events and the exit status.
- **The routes** are pure functions. Each one takes the request, the settings and GitHub's answers (given as functions), and returns the HTTP status and body, together with the calls it made to GitHub.
- **The page** is modelled the same way. Its two handlers return the sequence of status texts they set and the accounts they load or post.

Modules, in dependency order:

- `Options`, `Strings`, `Decimal` and `Search`: the option type, the string functions the sources rely on, number rendering, and first-match search and match counting. The string functions are substring tests, ASCII case mapping, Python's `strip`, and JavaScript's `split` and `endsWith`.
- `Accounts`: the account record shared by every component.
- `GitHub`: the settings, the headers, and how every route reads GITHUB_REPO.
- `DispatchRoute`, `Artifacts`, `LocalRoute` and `CsvUpload`: the routes and the upload area.
- `Dashboard`: the page.
- `Session` and `Steps`: actions, runs, the DP combo box, logout, the login phase and the batch loop, all shared by the scripts.
- `Uat3Apply`, `LocalApply` and `ApplyScript`: one module per script.

Behaviours of the code worth noting:

- The local script treats a row without a visible Apply button as already applied and returns True. It never looks at the Edit button or the toast.
- `apply.py` never logs out.
- The workflow script returns True once the PIN page is confirmed, whatever the toast says.
- The route's "://" check on the owner can never fire.

## Model

| member | source | states |
|---|---|---|
| Strings.Split | app/api/dispatch/route.ts:37 | `split` yields at least one piece, and at least two when the separator occurs; no piece contains the separator |
| Strings.JoinSplit | app/api/dispatch/route.ts:37 | joining the pieces of a split with the separator gives back the original string |
| Strings.SplitJoin | app/api/dispatch/route.ts:37 | splitting a join of separator-free pieces gives back the pieces |
| Strings.SplitAppend | app/api/dispatch/route.ts:37-39 | splitting `a + sep + b` gives the pieces of `a` followed by those of `b` |
| Strings.StripKeepsWords | scripts/uat3apply.py:124-127 | `strip()` never changes whether a text contains a word without spaces, so the scan's strip before its substring test is harmless |
| Strings.UpperOfLower | app/api/local/route.ts:27 | upper-casing a lower-cased string equals upper-casing the original |
| Strings.ContainsUpper | app/api/local/route.ts:27 | a substring stays a substring after both are upper-cased |
| Decimal.ParseNatToString | app/api/logs/download/route.ts:122 | the decimal text of a count reads back as that count |
| Decimal.NatToStringInjective | app/api/local/route.ts:38 | distinct numbers print as distinct numerals |
| Search.First | scripts/uat3apply.py:118-129 | the index of the first element passing the test at or after `i`, or None exactly when no such element exists |
| Search.Count | scripts/localapply.py:42-43 | the number of elements passing the test is at most the number of elements, and positive exactly when one passes |
| Search.CountOne | scripts/localapply.py:42-43 | a count of one holds exactly when a single element passes the test and every other fails it |
| GitHub.StripGitSuffix | app/api/dispatch/route.ts:41 | one trailing ".git" is removed and nothing else changes; the result is a prefix of the input |
| GitHub.ParseRepo | app/api/dispatch/route.ts:36-44 | no owner/repo exactly when the setting has no '/'; otherwise the last two '/'-pieces, and neither part contains '/' |
| GitHub.ParseSlug | app/api/dispatch/route.ts:36-41 | "owner/repo" is read back as (owner, repo) |
| GitHub.ParseSlugGit | app/api/dispatch/route.ts:36-41 | "owner/repo.git" is read back as (owner, repo) |
| GitHub.ParseIgnoresPrefix | app/api/dispatch/route.ts:37-39 | anything in front of the last two pieces, such as a URL's scheme and host, does not change the result |
| GitHub.ParseCloneUrl | app/api/dispatch/route.ts:36-41 | the clone URL "https://github.com/owner/repo.git" is read as (owner, repo) |
| GitHub.OwnerNeverHoldsScheme | app/api/dispatch/route.ts:47 | a parsed owner never contains "://", so that half of the validation never fires |
| DispatchRoute.Handle | app/api/dispatch/route.ts:14-92 | GitHub is called exactly for a request with accounts and a valid, complete configuration, with the event type, the token and those accounts; 200 exactly when GitHub answers 2xx; 400, 500 or GitHub's own status on each error path |
| DispatchRoute.Send | app/api/dispatch/route.ts:62-91 | the dispatch call is made; 200 with the success message exactly for a 2xx reply; GitHub's non-2xx status is passed on; an exception gives 500 |
| DispatchRoute.OnlySuccessIs2xx | app/api/dispatch/route.ts:76-87 | the route reports a 2xx status only as its own 200 |
| DispatchRoute.AccountsGiven | app/api/dispatch/route.ts:18-20 | a request with a non-empty account list is never answered "No accounts provided" |
| DispatchRoute.SlugAccepted | app/api/dispatch/route.ts:36-74 | the setting "owner/repo" passes validation and leads to a dispatch to that repository |
| DispatchRoute.CloneUrlAccepted | app/api/dispatch/route.ts:36-74 | the clone URL setting passes validation and leads to a dispatch to that repository |
| DispatchRoute.SlugAndCloneUrlAgree | app/api/dispatch/route.ts:36-74 | the two spellings of GITHUB_REPO lead to the same dispatch call |
| Artifacts.FindArtifact | app/api/logs/route.ts:84-86 | the first artifact whose name contains the upload id, or None exactly when no name contains it |
| Artifacts.FindAppend | app/api/logs/route.ts:84-86 | artifacts listed after a match do not change the result; without a match, the search continues into the rest of the list |
| Artifacts.Find | app/api/logs/route.ts:21-86 | the artifact list is requested exactly when the id, the token and a repository with '/' are set, at that repository's URL with the token; each error status and message; otherwise the first match, or no match together with the whole list |
| Artifacts.Summarise | app/api/logs/route.ts:97-101 | one summary per artifact, in order, with its name, size and creation time |
| Artifacts.Logs | app/api/logs/route.ts:21-132 | 200 with the matching artifact's metadata and URL exactly when one matches; 404 with every listed artifact exactly when none matches; otherwise the lookup's error |
| Artifacts.NotFoundIsAmbiguous | app/api/logs/route.ts:72-104 | GitHub's 404 for an unknown repository and an empty artifact list both reach the browser as 404, with different bodies |
| Artifacts.Download | app/api/logs/download/route.ts:21-135 | the archive is fetched exactly for a matching artifact, from its URL with the token; a zip is served exactly for a 2xx download, byte for byte, with a Content-Length that reads back as the byte count; the error statuses |
| Artifacts.RoutesAgree | app/api/logs/download/route.ts:84-124 | the download route fetches exactly the URL the logs route reports, and says "no artifact found" exactly when the logs route does |
| LocalRoute.Launch | app/api/local/route.ts:7-15 | the route runs `python` on the local script with the serialised accounts as the only other argument |
| LocalRoute.Classify | app/api/local/route.ts:23-33 | a standard-error chunk gains the cross exactly when it looks like an error log, and is otherwise passed on unchanged |
| LocalRoute.ErrorLogIgnoresCase | app/api/local/route.ts:27 | a chunk is flagged exactly when its lower-cased text contains "error" or "critical" |
| LocalRoute.LevelNamesFlagged | app/api/local/route.ts:27 | any chunk holding the level name ERROR or CRITICAL is flagged |
| LocalRoute.FinalMessage | app/api/local/route.ts:35-38 | the success line is sent exactly for exit code 0 |
| LocalRoute.FinalMessageShowsCode | app/api/local/route.ts:36-38 | a non-zero exit code can be read back from the final line |
| LocalRoute.FirstClose | app/api/local/route.ts:35-42 | the position of the first close report: none before it |
| LocalRoute.Relay | app/api/local/route.ts:18-42 | one chunk per report up to and including the first close, each relayed as its stream requires; the stream is closed exactly when a close was reported, and the last chunk is then the final line |
| LocalRoute.NothingAfterClose | app/api/local/route.ts:35-42 | reports after the close never reach the browser |
| LocalRoute.RelayAppend | app/api/local/route.ts:18-33 | before the close, the stream is the concatenation of the chunks relayed one by one |
| CsvUpload.Drop | components/csv-upload-area.tsx:23-34 | a drop hands on the first file exactly when there is one and its type is "text/csv" or its name ends in ".csv" |
| CsvUpload.Pick | components/csv-upload-area.tsx:36-41 | the dialog hands on its first file whenever there is one, unchecked |
| CsvUpload.DropIgnoresRest | components/csv-upload-area.tsx:27-33 | files after the first are ignored |
| CsvUpload.PickAcceptsMoreThanDrop | components/csv-upload-area.tsx:23-41 | whatever a drop accepts, the dialog accepts too, and some file is accepted by the dialog but refused on drop |
| CsvUpload.UpperCaseExtensionRefused | components/csv-upload-area.tsx:30 | the extension test is case-sensitive |
| Dashboard.Normalise | app/page.tsx:45-52 | each account field is taken from the column of the same name, or "" when that column is missing |
| Dashboard.NormaliseAll | app/page.tsx:45-52 | one account per parsed row, in order |
| Dashboard.CompleteRow | app/page.tsx:45-57 | a row passes validation exactly when all six columns are present and non-empty |
| Dashboard.KeepComplete | app/page.tsx:55-57 | the accounts kept are exactly the complete ones |
| Dashboard.KeepAppend | app/page.tsx:55-57 | filtering works piece by piece, so kept rows keep their CSV order |
| Dashboard.KeepIdempotent | app/page.tsx:55-57 | filtering twice keeps what filtering once keeps |
| Dashboard.KeepAllIff | app/page.tsx:55-63 | nothing is dropped exactly when every account is complete |
| Dashboard.KeptPlusSkipped | app/page.tsx:59-62 | the kept and the skipped accounts add up to all rows, so the warning's count is the number of rows dropped |
| Dashboard.HandleFileUpload | app/page.tsx:37-75 | the page first reports parsing; after a parse error it reports the error and loads nothing; otherwise it loads exactly the complete rows and warns with the skipped count when some were dropped; its final status reports the loaded count |
| Dashboard.LoadedCountReadsBack | app/page.tsx:66 | the count in the final status reads back as the number of accounts loaded |
| Dashboard.StartProcess | app/page.tsx:77-114 | the route is called exactly when accounts are loaded and the app name is set, with those accounts; the page is busy while waiting and idle again afterwards; success is reported exactly for a 2xx answer; a thrown `Error` shows its own message, even an empty one, anything else thrown shows "Unknown error", and a refused call shows the route's message or, when that is missing or empty, "Failed to start process" |
| Dashboard.UploadThenStart | app/page.tsx:37-114 | uploading and starting posts exactly the complete rows; the route never answers that post with "No accounts provided"; the page reports success exactly when the route answers 200 |
| Dashboard.KeyRowLookup | app/page.tsx:41-52 | with a header line, a column whose name appears once holds the cell in its position |
| Dashboard.TemplateLines | app/page.tsx:26 | the template has a header line, one sample line, and nothing after the final newline |
| Dashboard.TemplateHeaderIsFieldNames | app/page.tsx:26 | the template's header names exactly the six account fields, in order |
| Dashboard.TemplateSampleLoads | app/page.tsx:26-57 | the template's sample line loads as one complete account with the sample values |
| Session.DoAll | scripts/uat3apply.py:100-104 | awaited actions run in order and stop at the first one that raises; the code keeps running exactly when none of them raises |
| Session.DoAllAgree | scripts/uat3apply.py:100-104 | straight-line code depends only on whether its own actions raise |
| Session.Conclude | scripts/uat3apply.py:194-200 | the result is the body's returned value, or False when the body raised, and when the context was created it is closed as the last action and the run raises exactly when that close raises |
| Session.HandleLogout | scripts/uat3apply.py:39-50 | logging out never raises; it clicks Logout first, and succeeds exactly when the click and the wait for the login page go through |
| Session.PickDpOption | scripts/apply.py:19-56 | the combo box never raises; an option is clicked only when one carrying the text is listed; it succeeds exactly when such an option is listed and its three steps go through |
| Session.SelectLoginDp | scripts/uat3apply.py:53-76 | the login DP succeeds exactly when exactly one listed option shows "(code)" and none of its steps raises; with no such option or several (a strict-mode error, caught) it fails, and an option is clicked only when it is the only match |
| Session.LoginDpCountsOne | scripts/localapply.py:42-45 | the login DP succeeds exactly when the number of listed options showing "(code)" is one and none of its steps raises |
| Session.DuplicateDpRefused | scripts/uat3apply.py:62-69 | two listed options showing "(code)" make the login DP fail without a click |
| Session.Rounds | scripts/uat3apply.py:217-222 | the loop's events are account runs and pauses, for accounts that exist |
| Session.RoundsProcess | scripts/uat3apply.py:217-224 | an account is processed exactly when it exists and no earlier account raised |
| Session.RoundsLength | scripts/apply.py:131-136 | without an exception, every account is processed once, with a pause after each (apply.py: after all but the last) |
| Session.PauseFollowsSuccess | scripts/localapply.py:128-130 | every pause follows an account that did not raise |
| Session.ProcessAll | scripts/uat3apply.py:217-224 | the loop produces exactly the events `Rounds` describes, and stops with an exception exactly when some account raised |
| Steps.Open | scripts/uat3apply.py:82-86 | the session gets a page exactly when creating the context and the page go through; a context that fails to open is the only action |
| Steps.Login | scripts/uat3apply.py:91-104 | login goes through exactly when the portal opens, the DP is selected and the credentials go through; if the DP is not selected it returns False before typing credentials |
| Steps.LogOutAndReturn | scripts/uat3apply.py:131-134 | returns the given value after clicking Logout, whatever the logout does |
| Steps.LoginSucceedsIff | scripts/uat3apply.py:82-104 | the login phase passes exactly when every step up to the navbar does |
| Uat3Apply.FirstOrdinaryIpo | scripts/uat3apply.py:122-129 | the first row whose stripped, lower-cased ISIN label contains "ordinary" and whose share type contains "ipo"; None exactly when no row does |
| Uat3Apply.Scan | scripts/uat3apply.py:118-129 | the scan reads rows in order and keeps running exactly when every row it visits can be read; it then finds `FirstOrdinaryIpo`; it only reads rows |
| Uat3Apply.ReadToast | scripts/uat3apply.py:176-188 | the toast wait is the only action and never raises; it succeeds exactly when the toast appears |
| Uat3Apply.Submit | scripts/uat3apply.py:154-192 | after Apply, the result is True exactly when every form step goes through; otherwise the form raises |
| Uat3Apply.Decide | scripts/uat3apply.py:131-152 | with no matching row it logs out and returns False; with Apply showing it clicks Apply and submits; otherwise it logs out and returns whether Edit shows |
| Uat3Apply.Offerings | scripts/uat3apply.py:108-192 | if the list does not load or a visited row cannot be read, the page raises |
| Uat3Apply.OfferingsScanFails | scripts/uat3apply.py:113-129 | a failed scan raises before anything is clicked |
| Uat3Apply.OfferingsFormsAfterApply | scripts/uat3apply.py:139-174 | on the offering page, the form is only filled after Apply is clicked |
| Uat3Apply.OfferingsOutcome | scripts/uat3apply.py:131-192 | after a scan, the first ordinary IPO decides: Apply shows → click and True exactly when the form goes through; otherwise logout and whether Edit shows |
| Uat3Apply.ProcessAccount | scripts/uat3apply.py:79-200 | raises only when closing the context raises; a created context is always closed last; True only for a run with no exception |
| Uat3Apply.NoCredentialsWithoutDp | scripts/uat3apply.py:94-101 | without the DP option, no credentials are typed and the result is not True |
| Uat3Apply.ApplyClickedExactly | scripts/uat3apply.py:118-144 | Apply is clicked exactly when login and scan succeed and the first ordinary IPO shows Apply; the form is only filled after Apply |
| Uat3Apply.DecisionOutcome | scripts/uat3apply.py:131-192 | no ordinary IPO: logout, not True; Edit only: logout and True; Apply: True exactly when the submission goes through, whatever the toast says |
| Uat3Apply.TrueOnlyWhenApplied | scripts/uat3apply.py:139-192 | True comes only from a completed submission or from an ordinary IPO row that shows Edit and not Apply |
| Uat3Apply.ToastIrrelevant | scripts/uat3apply.py:176-192 | the toast, and whether its wait times out, never changes the actions or the result |
| Uat3Apply.Batch | scripts/uat3apply.py:203-224 | a missing or empty ACCOUNTS_JSON ends quietly; invalid JSON fails before any launch; otherwise launch headless, run the loop with a pause after every account, always close the browser, and fail exactly when an account raised or the browser close raised |
| LocalApply.FirstOrdinaryShares | scripts/localapply.py:73 | the first row whose ISIN label contains "Ordinary Shares" in any case; None exactly when no row does |
| LocalApply.Wizard | scripts/localapply.py:84-109 | True exactly when every form step goes through; otherwise the form raises |
| LocalApply.Offerings | scripts/localapply.py:68-109 | True exactly when the page opens and a matching row exists and, if it shows Apply, the submission goes through; with no matching row it logs out and returns False; form steps are issued only in a run that clicked Apply, and Apply only on that row |
| LocalApply.ProcessAccount | scripts/localapply.py:50-114 | raises only when closing the context raises; a created context is always closed last |
| LocalApply.TrueExactlyWhenSucceeds | scripts/localapply.py:50-112 | True exactly when login succeeds, an "Ordinary Shares" row exists and, if it shows Apply, the form goes through; a row without Apply counts as applied |
| LocalApply.NoCredentialsWithoutDp | scripts/localapply.py:58-64 | without the DP option, no credentials are typed and the result is not True |
| LocalApply.ApplyOnlyOnFirstMatch | scripts/localapply.py:73-84 | Apply is clicked only after login, on the first "Ordinary Shares" row, when it shows Apply |
| LocalApply.FirstIgnoresEdit | scripts/localapply.py:73 | the row choice does not depend on the Edit buttons |
| LocalApply.EditAndToastNeverInspected | scripts/localapply.py:68-109 | the Edit buttons and the toast never change the actions or the result |
| LocalApply.Batch | scripts/localapply.py:116-133 | always exits normally; the accounts come from the argument (visible browser) or ACCOUNTS_JSON defaulting to "[]" (headless); the browser is closed only if no account raised |
| ApplyScript.FillDpField | scripts/apply.py:19-56 | never raises; succeeds exactly when an option containing the DP is listed and its steps go through |
| ApplyScript.FirstButtonDecides | scripts/apply.py:83-84 | the wait for Apply goes through exactly when the first row holding an exact "Apply" button under an "Ordinary Shares" label shows it; a hidden first button blocks the wait even when a later row shows Apply |
| ApplyScript.Apply | scripts/apply.py:83-101 | True exactly when Apply, units and the final steps go through, whatever the DP combo box does; no logout step |
| ApplyScript.ProcessAccount | scripts/apply.py:58-108 | raises only when closing the context raises; a created context is always closed last |
| ApplyScript.NeverLogsOut | scripts/apply.py:58-108 | no logout step is ever issued |
| ApplyScript.TrueExactlyWhenAllGoThrough | scripts/apply.py:58-105 | True exactly when every step outside the DP combo box goes through, with no check of the DP or of any confirmation |
| ApplyScript.DpResultIgnored | scripts/apply.py:90 | the DP combo box's outcome never changes the result |
| ApplyScript.Connect | scripts/apply.py:120-129 | a non-empty BROWSERLESS_TOKEN connects to the remote browser; otherwise a headless browser is launched |
| ApplyScript.Batch | scripts/apply.py:110-142 | invalid JSON exits with status 1 and launches nothing; an empty list ends quietly; otherwise connect or launch, pause between consecutive accounts, always close, and exit 1 exactly when an account raised or the browser close raised |
| ApplyScript.ApplicableRowIsOrdinaryShares | scripts/apply.py:83 | a row this script applies to also passes the local script's case-insensitive "Ordinary Shares" filter |

## Left out

- Timing is left out: Playwright timeouts, `wait_for_timeout` and the random pauses between accounts. A wait that times out is an action that raises, and a pause is a `Delay` event.
- Logging, `print` and `console.log` output are left out. They never affect control flow.
- JSON decoding is a parameter (`decode`) that either yields the accounts or fails. Malformed account objects, such as missing keys raising `KeyError`, are not modelled.
- Browser launch and remote connect failures are left out. They happen outside the per-account `try`, and each script treats them differently. In `uat3apply.py` the launch is outside any `try`, so the exception ends the script with a non-zero status. In `localapply.py` the launch is inside `main`'s `try`, so the failure is logged and the script exits with status 0. In `apply.py` the launch or connect is inside `main`'s `try`, which logs the failure and calls `sys.exit(1)`.
- The local script's `async_playwright()` teardown is not modelled.
- ApplyScript.IsApplicableRow: the row is matched on its ISIN label only, while the XPath tests the row's whole text. The other two scripts find Apply with a case-insensitive has-text match; the model gives them only the `applyVisible` flag and does not relate it to `applyPresent`, the exact-text button `apply.py` looks for.
- `fill_dp_field_with_select2` has a fallback container and a wait. Both are part of the DP steps that may raise.
- The CSV parser's tokenising, quoting and empty-line skipping are left out. A parsed file is its rows keyed by the header (`KeyRow` is that keying for a simple line).
- `path.join` normalisation is left out: the script path assumes a working directory with no trailing separator.
- The stream plumbing of the local route is left out: `TextEncoder`, `ReadableStream` and the process's `error` event.
- The 500 responses' `error` detail is dropped. It only echoes the exception's message.
- `response.text()` failing on an error reply is left out.
- Session.HasText: Playwright's has-text match also collapses runs of whitespace and trims the text before comparing, so "Ordinary\n  Shares" matches "Ordinary Shares" there; the model compares the texts as they are, after ASCII lower-casing only.
- Case mapping is ASCII-only. The sources use Unicode `lower()`, `toUpperCase()` and Playwright's case-insensitive matching.
- React state batching is left out: the page's statuses are listed in the order they are set. The skipped-rows warning is set and then replaced by the loaded count in the same callback.
- The artifact `url` is left out of the model's meaning: both logs routes use this field, which is GitHub's metadata URL for the artifact rather than `archive_download_url`. The model follows the code, and what GitHub serves at that URL is outside the model.
- A JSON `null` body throws and gives 500; a number or string has no `accounts` field and gives 400. The model folds these into `Unreadable` and a missing `accounts` field.
- The dispatch body carries the accounts as a JSON string (`JSON.stringify`). The model carries the account list itself, and serialisation is not modelled.
- The local route has no `try`: an unreadable body fails before the stream starts, and a body without `accounts` passes `undefined` to the script. Both are left out; `Launch` takes the serialised accounts as given.
- Owner and repository validation beyond the '/' split and the checks the routes make is left out.
- DispatchRoute.Handle: when the settings split into an owner and repository that fail validation, the contract states only 400 and no call. The message embeds the owner and repository and is not stated.
- Uat3Apply.Offerings: the contract gives the failure cases only. The successful outcomes are stated by `Uat3Apply.OfferingsOutcome`.
