/**
 `GET /api/logs` and `GET /api/logs/download`: both look up, among the
 repository's workflow artifacts, the first one whose name contains the
 requested upload id. The first route describes that artifact; the second
 fetches its zip archive and passes it on.
 */
module Artifacts {
  import opened Options
  import opened Strings
  import opened Decimal
  import opened GitHub

  /** One entry of GitHub's artifact list. */
  datatype Artifact = Artifact(name: string, size: nat, url: string, createdAt: string, updatedAt: string, expiresAt: string)

  /** The GET of the artifact list: its URL and its `Authorization` header. */
  datatype ListCall = ListCall(url: string, authorization: string)

  /** GitHub's answer to the list call: an exception (the request failed, or
      a 2xx body that is not JSON), or a status and, for a 2xx status, the
      artifacts the body holds. */
  datatype Listing = ListThrew | Listing(status: int, artifacts: seq<Artifact>)

  /** Where a lookup ends: an error response, no matching artifact among
      those listed, or the matching artifact. */
  datatype Outcome =
    | Failed(status: int, message: string)
    | NoMatch(listed: seq<Artifact>)
    | Found(artifact: Artifact)

  /** A lookup's outcome and the list call it made, if any. */
  datatype Lookup = Lookup(outcome: Outcome, asked: Option<ListCall>)

  const UploadIdRequired := "uploadId query " + "parameter is required"
  const BadRepoFormat := "Invalid GITHUB_REPO format"
  const ListFailed := "Failed to fetch " + "artifacts from GitHub"
  const DownloadFailed := "Failed to download " + "artifact from GitHub"
  const InternalError := "Internal server error"

  function NotFoundMessage(uploadId: string): string {
    "No artifact found " + "matching uploadId: " + uploadId
  }

  function ArtifactsUrl(owner: string, repo: string): string {
    "https://api.github.com/repos/" + owner + "/" + repo + "/actions/artifacts"
  }

  // ---------------------------------------------------------------------------
  // Matching
  // ---------------------------------------------------------------------------

  predicate Matches(a: Artifact, uploadId: string) {
    Contains(a.name, uploadId)
  }

  /** `artifacts.find(a => a.name.includes(uploadId))`, as an index. */
  function FindArtifact(arts: seq<Artifact>, uploadId: string): (k: Option<nat>)
    ensures k.Some? ==> k.value < |arts| && Matches(arts[k.value], uploadId)
    ensures k.Some? ==> forall j :: 0 <= j < k.value ==> !Matches(arts[j], uploadId)
    ensures k.None? <==> forall j :: 0 <= j < |arts| ==> !Matches(arts[j], uploadId)
  {
    if |arts| == 0 then None
    else if Matches(arts[0], uploadId) then Some(0)
    else
      match FindArtifact(arts[1..], uploadId)
      case None => None
      case Some(k) => Some(k + 1)
  }

  /**
   Artifacts listed after a match never change it, and when the front part
   has no match the search continues into the rest: the list is searched in
   the order GitHub returns it.
   */
  lemma {:induction false} FindAppend(xs: seq<Artifact>, ys: seq<Artifact>, uploadId: string)
    ensures FindArtifact(xs + ys, uploadId) ==
      match FindArtifact(xs, uploadId)
      case Some(k) => Some(k)
      case None =>
        match FindArtifact(ys, uploadId)
        case None => None
        case Some(k) => Some(|xs| + k)
  {
    if |xs| > 0 {
      assert (xs + ys)[0] == xs[0];
      assert (xs + ys)[1..] == xs[1..] + ys;
      FindAppend(xs[1..], ys, uploadId);
    } else {
      assert xs + ys == ys;
    }
  }

  // ---------------------------------------------------------------------------
  // The lookup both routes share
  // ---------------------------------------------------------------------------

  /** The query, the settings and the repository setting pass the routes' checks. */
  predicate Asks(uploadId: Option<string>, cfg: Config) {
    Set(uploadId) && Set(cfg.token) && Set(cfg.repo) && '/' in cfg.repo.value
  }

  /** The list call for the configured repository. */
  function ListCallFor(cfg: Config): ListCall
    requires Set(cfg.token) && Set(cfg.repo) && '/' in cfg.repo.value
  {
    var (owner, repo) := ParseRepo(cfg.repo.value).value;
    ListCall(ArtifactsUrl(owner, repo), Authorization(cfg.token.value))
  }

  /**
   The part common to both routes: check the query and the settings, list the
   artifacts, and pick the first whose name contains the upload id. The
   routes do not check owner and repository beyond the '/'.
   */
  function Find(uploadId: Option<string>, cfg: Config, github: ListCall -> Listing): (l: Lookup)
    // GitHub is asked exactly when the checks pass, and about the configured repository
    ensures l.asked.Some? <==> Asks(uploadId, cfg)
    ensures l.asked.Some? ==> l.asked.value == ListCallFor(cfg)
    ensures !Set(uploadId) ==> l.outcome == Failed(400, UploadIdRequired)
    ensures Set(uploadId) && (!Set(cfg.token) || !Set(cfg.repo)) ==> l.outcome == Failed(500, ConfigMissing)
    ensures Set(uploadId) && Set(cfg.token) && Set(cfg.repo) && '/' !in cfg.repo.value ==>
      l.outcome == Failed(400, BadRepoFormat)
    ensures l.asked.Some? && github(l.asked.value).ListThrew? ==> l.outcome == Failed(500, InternalError)
    ensures l.asked.Some? && github(l.asked.value).Listing? && !IsOk(github(l.asked.value).status) ==>
      l.outcome == Failed(github(l.asked.value).status, ListFailed)
    // a listed artifact is reported only from a successful listing
    ensures !l.outcome.Failed? ==>
      && l.asked.Some?
      && github(l.asked.value).Listing?
      && IsOk(github(l.asked.value).status)
    ensures l.outcome.NoMatch? ==>
      && l.outcome.listed == github(l.asked.value).artifacts
      && forall j :: 0 <= j < |l.outcome.listed| ==> !Matches(l.outcome.listed[j], uploadId.value)
    ensures l.outcome.Found? ==>
      var arts := github(l.asked.value).artifacts;
      exists k :: 0 <= k < |arts| && l.outcome.artifact == arts[k] && FindArtifact(arts, uploadId.value) == Some(k)
    // an ok listing always ends in a match or its absence
    ensures l.asked.Some? && github(l.asked.value).Listing? && IsOk(github(l.asked.value).status) ==>
      !l.outcome.Failed?
  {
    if !Set(uploadId) then Lookup(Failed(400, UploadIdRequired), None)
    else if !Set(cfg.token) || !Set(cfg.repo) then Lookup(Failed(500, ConfigMissing), None)
    else if '/' !in cfg.repo.value then Lookup(Failed(400, BadRepoFormat), None)
    else
      var call := ListCallFor(cfg);
      var listing := github(call);
      if listing.ListThrew? then Lookup(Failed(500, InternalError), Some(call))
      else if !IsOk(listing.status) then Lookup(Failed(listing.status, ListFailed), Some(call))
      else
        var k := FindArtifact(listing.artifacts, uploadId.value);
        if k.None? then Lookup(NoMatch(listing.artifacts), Some(call))
        else Lookup(Found(listing.artifacts[k.value]), Some(call))
  }

  // ---------------------------------------------------------------------------
  // GET /api/logs
  // ---------------------------------------------------------------------------

  /** An entry of `availableArtifacts` in the 404 body. */
  datatype Summary = Summary(name: string, size: nat, created: string)

  /** The JSON bodies of the logs route. */
  datatype LogsBody =
    | Message(message: string)
    | Unmatched(message: string, available: seq<Summary>)
    | Metadata(uploadId: string, artifactName: string, downloadUrl: string, size: nat, createdAt: string, expiresAt: string)

  datatype LogsResponse = LogsResponse(status: int, body: LogsBody)

  function Summarise(arts: seq<Artifact>): (s: seq<Summary>)
    ensures |s| == |arts|
    ensures forall j :: 0 <= j < |arts| ==>
      s[j] == Summary(arts[j].name, arts[j].size, arts[j].createdAt)
  {
    seq(|arts|, j requires 0 <= j < |arts| => Summary(arts[j].name, arts[j].size, arts[j].createdAt))
  }

  /** The logs route: the matching artifact's metadata and download URL. */
  function Logs(uploadId: Option<string>, cfg: Config, github: ListCall -> Listing): (r: LogsResponse)
    // 200 exactly when an artifact matches, and then it describes that artifact
    ensures r.status == 200 <==> Find(uploadId, cfg, github).outcome.Found?
    ensures r.status == 200 ==>
      var a := Find(uploadId, cfg, github).outcome.artifact;
      && r.body == Metadata(uploadId.value, a.name, a.url, a.size, a.createdAt, a.expiresAt)
      && Contains(r.body.artifactName, r.body.uploadId)
    // the no-match body names the id and summarises every listed artifact, in order
    ensures r.body.Unmatched? <==> Find(uploadId, cfg, github).outcome.NoMatch?
    ensures r.body.Unmatched? ==>
      var listed := Find(uploadId, cfg, github).outcome.listed;
      && r.status == 404
      && r.body.message == NotFoundMessage(uploadId.value)
      && |r.body.available| == |listed|
      && forall j :: 0 <= j < |listed| ==>
           r.body.available[j] == Summary(listed[j].name, listed[j].size, listed[j].createdAt)
    ensures Find(uploadId, cfg, github).outcome.Failed? ==>
      var f := Find(uploadId, cfg, github).outcome;
      r == LogsResponse(f.status, Message(f.message))
  {
    match Find(uploadId, cfg, github).outcome
    case Failed(status, message) => LogsResponse(status, Message(message))
    case NoMatch(listed) => LogsResponse(404, Unmatched(NotFoundMessage(uploadId.value), Summarise(listed)))
    case Found(a) => LogsResponse(200, Metadata(uploadId.value, a.name, a.url, a.size, a.createdAt, a.expiresAt))
  }

  /**
   A 404 from the logs route does not by itself mean that no artifact
   matched: GitHub's own 404 on the list call (an unknown repository, say)
   is passed through with the same status and a different message.
   */
  lemma NotFoundIsAmbiguous(uploadId: string, token: string, owner: string, repo: string)
    requires uploadId != "" && token != ""
    requires '/' !in owner && '/' !in repo && !EndsWith(repo, ".git")
    ensures var cfg := Config(Some(token), Some(owner + "/" + repo));
      var unknownRepo := (c: ListCall) => Listing(404, []);
      var emptyRepo := (c: ListCall) => Listing(200, []);
      && Logs(Some(uploadId), cfg, unknownRepo) == LogsResponse(404, Message(ListFailed))
      && Logs(Some(uploadId), cfg, emptyRepo) == LogsResponse(404, Unmatched(NotFoundMessage(uploadId), []))
  {
    var v := owner + "/" + repo;
    assert v[|owner|] == '/';
  }

  // ---------------------------------------------------------------------------
  // GET /api/logs/download
  // ---------------------------------------------------------------------------

  /** The GET of the artifact's archive (redirects followed). */
  datatype DownloadCall = DownloadCall(url: string, authorization: string)

  /** GitHub's answer to the download call: an exception, or a status and the body's bytes. */
  datatype Fetched = FetchThrew | Fetched(status: int, bytes: seq<bv8>)

  /** A JSON error, or the archive with its three headers. */
  datatype DownloadResponse =
    | Json(status: int, message: string)
    | Zip(bytes: seq<bv8>, contentType: string, disposition: string, contentLength: string)

  /** The route's response and the download call it made, if any. */
  datatype Served = Served(response: DownloadResponse, downloaded: Option<DownloadCall>)

  function Disposition(name: string): string {
    "attachment; filename=\"" + name + ".zip\""
  }

  /** The download route: the matching artifact's zip archive. */
  function Download(uploadId: Option<string>, cfg: Config, github: ListCall -> Listing, fetch: DownloadCall -> Fetched): (s: Served)
    // the archive is fetched exactly for a matching artifact, from its URL, with the token
    ensures s.downloaded.Some? <==> Find(uploadId, cfg, github).outcome.Found?
    ensures s.downloaded.Some? ==>
      s.downloaded.value == DownloadCall(Find(uploadId, cfg, github).outcome.artifact.url, Authorization(cfg.token.value))
    // the archive is served exactly when the download succeeds, byte for byte
    ensures s.response.Zip? <==> s.downloaded.Some? && fetch(s.downloaded.value).Fetched? && IsOk(fetch(s.downloaded.value).status)
    ensures s.response.Zip? ==>
      && s.response.bytes == fetch(s.downloaded.value).bytes
      && s.response.contentType == "application/zip"
      && s.response.disposition == Disposition(Find(uploadId, cfg, github).outcome.artifact.name)
      && IsDigits(s.response.contentLength)
      && ParseDigits(s.response.contentLength) == |s.response.bytes|
    ensures Find(uploadId, cfg, github).outcome.NoMatch? ==> s.response == Json(404, NotFoundMessage(uploadId.value))
    ensures Find(uploadId, cfg, github).outcome.Failed? ==>
      var f := Find(uploadId, cfg, github).outcome;
      s.response == Json(f.status, f.message)
    ensures s.downloaded.Some? && fetch(s.downloaded.value).FetchThrew? ==> s.response == Json(500, InternalError)
    ensures s.downloaded.Some? && fetch(s.downloaded.value).Fetched? && !IsOk(fetch(s.downloaded.value).status) ==>
      s.response == Json(fetch(s.downloaded.value).status, DownloadFailed)
  {
    match Find(uploadId, cfg, github).outcome
    case Failed(status, message) => Served(Json(status, message), None)
    case NoMatch(_) => Served(Json(404, NotFoundMessage(uploadId.value)), None)
    case Found(a) =>
      var call := DownloadCall(a.url, Authorization(cfg.token.value));
      var fetched := fetch(call);
      if fetched.FetchThrew? then Served(Json(500, InternalError), Some(call))
      else if !IsOk(fetched.status) then Served(Json(fetched.status, DownloadFailed), Some(call))
      else
        ParseNatToString(|fetched.bytes|);
        Served(Zip(fetched.bytes, "application/zip", Disposition(a.name), NatToString(|fetched.bytes|)), Some(call))
  }

  /**
   The two routes agree: the download route fetches exactly the artifact whose
   URL the logs route reports, and it answers "no artifact found" exactly
   when the logs route does.
   */
  lemma RoutesAgree(uploadId: Option<string>, cfg: Config, github: ListCall -> Listing, fetch: DownloadCall -> Fetched)
    ensures var logs := Logs(uploadId, cfg, github);
      var served := Download(uploadId, cfg, github, fetch);
      && (logs.status == 200 <==> served.downloaded.Some?)
      && (logs.status == 200 ==> served.downloaded.value.url == logs.body.downloadUrl)
      && (logs.body.Unmatched? <==> Set(uploadId) && served.response == Json(404, NotFoundMessage(uploadId.value)))
  {
    var o := Find(uploadId, cfg, github).outcome;
    if o.Failed? && Set(uploadId) {
      // every error message the lookup produces starts with another letter than 'N'
      assert o.message[0] != 'N' by {
        assert o.message in {ConfigMissing, BadRepoFormat, InternalError, ListFailed};
      }
      assert NotFoundMessage(uploadId.value)[0] == 'N';
    }
    if o.Found? {
      var r := Download(uploadId, cfg, github, fetch).response;
      assert r.Json? ==> r.message[0] != 'N' by {
        assert r.Json? ==> r.message in {InternalError, DownloadFailed};
      }
      assert NotFoundMessage(uploadId.value)[0] == 'N';
    }
  }
}
