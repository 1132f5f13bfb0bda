/**
 `POST /api/dispatch`: check the uploaded accounts and the GitHub settings,
 then ask GitHub to start the workflow with a `repository_dispatch` event
 carrying the accounts, and report the outcome as an HTTP status and message.
 */
module DispatchRoute {
  import opened Options
  import opened Strings
  import opened Accounts
  import opened GitHub

  /** The request body: Unreadable when it is not JSON or is JSON `null`
      (reading `accounts` of it throws), otherwise a value whose `accounts`
      field is missing or null (None, as for a number or a string) or an array. */
  datatype Request = Unreadable | Payload(accounts: Option<seq<Account>>)

  /** The `repository_dispatch` call: its URL, its two headers, and its body's
      event type and accounts. */
  datatype Dispatch = Dispatch(url: string, authorization: string, apiVersion: string, eventType: string, accounts: seq<Account>)

  /** What `fetch` gives back: an exception, or a response with a status code. */
  datatype Reply = FetchThrew | Reply(status: int)

  /** The route's JSON response, and the dispatch call it made, if any. */
  datatype Response = Response(status: int, message: string, sent: Option<Dispatch>)

  const EventType := "trigger_ipo_bot"

  // Here and in the other route and page modules, a long message is written
  // as a concatenation of shorter literals; it is the same text.
  const NoAccounts := "No accounts provided"
  const DispatchConfigMissing := ConfigMissing + ". Please set GITHUB_PAT " + "and GITHUB_REPO " + "environment variables."
  const BadRepoFormat := "Invalid GITHUB_REPO " + "format. Expected " + "'owner/repo'."
  const Initiated := "IPO application process " + "initiated successfully"
  const InternalError := "Internal server error"

  function InvalidConfig(owner: string, repo: string): string {
    "Invalid GitHub " + "configuration: owner='" + owner + "', repo='" + repo
      + "'. Please set " + "GITHUB_REPO to " + "'owner/repo' format " + "(e.g., " + "'myusername/" + "mero-share-automator')."
  }

  function TriggerFailed(owner: string, repo: string): string {
    "Failed to trigger workflow. " + "Check that GITHUB_PAT has " + "'repo' permissions and " + "GITHUB_REPO is correct " + "(got owner='"
      + owner + "', repo='" + repo + "')."
  }

  /** The reply's `response.ok`. */
  predicate Ok(reply: Reply) {
    reply.Reply? && IsOk(reply.status)
  }

  /** The owner/repo pair passes the route's validation. */
  predicate ValidSlug(owner: string, repo: string) {
    owner != "" && repo != "" && !Contains(owner, "://") && !Contains(owner, "https")
  }

  function DispatchUrl(owner: string, repo: string): string {
    "https://api.github.com/repos/" + owner + "/" + repo + "/dispatches"
  }

  /** Everything the route checks before calling GitHub holds. */
  predicate Accepted(req: Request, cfg: Config) {
    && req.Payload?
    && req.accounts.Some?
    && |req.accounts.value| > 0
    && Set(cfg.token)
    && Set(cfg.repo)
    && ParseRepo(cfg.repo.value).Some?
    && ValidSlug(ParseRepo(cfg.repo.value).value.0, ParseRepo(cfg.repo.value).value.1)
  }

  /** The call the route makes for an accepted request. */
  function Call(req: Request, cfg: Config): Dispatch
    requires Accepted(req, cfg)
  {
    var (owner, repo) := ParseRepo(cfg.repo.value).value;
    Dispatch(DispatchUrl(owner, repo), Authorization(cfg.token.value), ApiVersion, EventType, req.accounts.value)
  }

  /**
   The route. `github` is GitHub's answer to a dispatch call; it is only
   consulted when the call is made.
   */
  function Handle(req: Request, cfg: Config, github: Dispatch -> Reply): (r: Response)
    // GitHub is called exactly for accepted requests, with their accounts
    ensures r.sent.Some? <==> Accepted(req, cfg)
    ensures r.sent.Some? ==> r.sent.value == Call(req, cfg)
    // 200 exactly when the call was made and answered with a 2xx status
    ensures r.status == 200 <==> r.sent.Some? && Ok(github(r.sent.value))
    ensures r.status == 200 ==> r.message == Initiated
    // the error statuses
    ensures req.Unreadable? ==> r == Response(500, InternalError, None)
    ensures req.Payload? && (req.accounts.None? || req.accounts.value == []) ==> r == Response(400, NoAccounts, None)
    ensures req.Payload? && req.accounts.Some? && |req.accounts.value| > 0 ==>
      && (!Set(cfg.token) || !Set(cfg.repo) ==> r == Response(500, DispatchConfigMissing, None))
      && (Set(cfg.token) && Set(cfg.repo) && '/' !in cfg.repo.value ==> r == Response(400, BadRepoFormat, None))
      && (Set(cfg.token) && Set(cfg.repo) && ParseRepo(cfg.repo.value).Some? && !Accepted(req, cfg) ==>
            r.status == 400 && r.sent.None?)
    ensures r.sent.Some? && github(r.sent.value).FetchThrew? ==> r.status == 500 && r.message == InternalError
    ensures r.sent.Some? && github(r.sent.value).Reply? && !Ok(github(r.sent.value)) ==>
      r.status == github(r.sent.value).status
  {
    if req.Unreadable? then Response(500, InternalError, None)
    else if req.accounts.None? || |req.accounts.value| == 0 then Response(400, NoAccounts, None)
    else if !Set(cfg.token) || !Set(cfg.repo) then Response(500, DispatchConfigMissing, None)
    else if ParseRepo(cfg.repo.value).None? then Response(400, BadRepoFormat, None)
    else
      var (owner, repo) := ParseRepo(cfg.repo.value).value;
      if !ValidSlug(owner, repo) then Response(400, InvalidConfig(owner, repo), None)
      else Send(Call(req, cfg), owner, repo, github)
  }

  /** Making the dispatch call and turning GitHub's reply into the response. */
  function Send(call: Dispatch, owner: string, repo: string, github: Dispatch -> Reply): (r: Response)
    ensures r.sent == Some(call)
    ensures r.status == 200 <==> Ok(github(call))
    ensures r.status == 200 ==> r.message == Initiated
    ensures github(call).FetchThrew? ==> r.status == 500 && r.message == InternalError
    ensures github(call).Reply? && !Ok(github(call)) ==> r.status == github(call).status
  {
    var reply := github(call);
    if reply.FetchThrew? then Response(500, InternalError, Some(call))
    else if !Ok(reply) then Response(reply.status, TriggerFailed(owner, repo), Some(call))
    else Response(200, Initiated, Some(call))
  }

  /** The only 2xx status the route reports is its own 200: a failed GitHub
      reply is passed on with its non-2xx status. */
  lemma OnlySuccessIs2xx(req: Request, cfg: Config, github: Dispatch -> Reply)
    ensures IsOk(Handle(req, cfg, github).status) <==> Handle(req, cfg, github).status == 200
  {
    var r := Handle(req, cfg, github);
    if r.sent.Some? && github(r.sent.value).Reply? && !Ok(github(r.sent.value)) {
      assert !IsOk(r.status);
    }
  }

  /** A request carrying accounts is never answered "No accounts provided". */
  lemma AccountsGiven(req: Request, cfg: Config, github: Dispatch -> Reply)
    requires req.Payload? && req.accounts.Some? && |req.accounts.value| > 0
    ensures Handle(req, cfg, github).message != NoAccounts
  {
  }

  /** The two settings accepted by the route that name `owner/repo`. */
  lemma SlugAccepted(req: Request, token: string, owner: string, repo: string)
    requires req.Payload? && req.accounts.Some? && |req.accounts.value| > 0
    requires token != ""
    requires '/' !in owner && '/' !in repo && !EndsWith(repo, ".git")
    requires ValidSlug(owner, repo)
    ensures Accepted(req, Config(Some(token), Some(owner + "/" + repo)))
    ensures Call(req, Config(Some(token), Some(owner + "/" + repo)))
      == Dispatch(DispatchUrl(owner, repo), Authorization(token), ApiVersion, EventType, req.accounts.value)
  {
    ParseSlug(owner, repo);
  }

  lemma CloneUrlAccepted(req: Request, token: string, owner: string, repo: string)
    requires req.Payload? && req.accounts.Some? && |req.accounts.value| > 0
    requires token != ""
    requires '/' !in owner && '/' !in repo && !EndsWith(repo, ".git")
    requires ValidSlug(owner, repo)
    ensures var url := "https://github.com/" + owner + "/" + repo + ".git";
      && Accepted(req, Config(Some(token), Some(url)))
      && Call(req, Config(Some(token), Some(url)))
         == Dispatch(DispatchUrl(owner, repo), Authorization(token), ApiVersion, EventType, req.accounts.value)
  {
    ParseCloneUrl(owner, repo);
  }

  /**
   The setting "owner/repo" and the clone URL "https://github.com/owner/repo.git"
   name the same repository: both lead to the same dispatch call.
   */
  lemma SlugAndCloneUrlAgree(req: Request, token: string, owner: string, repo: string, github: Dispatch -> Reply)
    requires req.Payload? && req.accounts.Some? && |req.accounts.value| > 0
    requires token != ""
    requires '/' !in owner && '/' !in repo && !EndsWith(repo, ".git")
    requires ValidSlug(owner, repo)
    ensures var slug := Handle(req, Config(Some(token), Some(owner + "/" + repo)), github);
      var url := Handle(req, Config(Some(token), Some("https://github.com/" + owner + "/" + repo + ".git")), github);
      && slug.sent == Some(Dispatch(DispatchUrl(owner, repo), Authorization(token), ApiVersion, EventType, req.accounts.value))
      && url.sent == slug.sent
  {
    SlugAccepted(req, token, owner, repo);
    CloneUrlAccepted(req, token, owner, repo);
  }
}
