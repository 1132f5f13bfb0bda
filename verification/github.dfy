/**
 The GitHub settings shared by the three server routes: the GITHUB_PAT token
 and the GITHUB_REPO setting, which is "owner/repo" or any URL or path ending
 in it. Every route splits the setting at '/', takes the last two pieces as
 owner and repository, and drops one trailing ".git" from the repository.
 */
module GitHub {
  import opened Options
  import opened Strings

  /** The GITHUB_PAT and GITHUB_REPO environment variables. */
  datatype Config = Config(token: Option<string>, repo: Option<string>)

  /** JavaScript truthiness of an optional string: present and not empty. */
  predicate Set(v: Option<string>) {
    v.Some? && v.value != ""
  }

  /** `response.ok`: a status in the 2xx range. */
  predicate IsOk(status: int) {
    200 <= status < 300
  }

  /** The `Authorization` header every route sends. */
  function Authorization(token: string): string {
    "token " + token
  }

  /** The GitHub API version header every route sends. */
  const ApiVersion := "2022-11-28"

  const ConfigMissing := "GitHub configuration missing"

  /** `repo.replace(/\.git$/, "")`: remove one ".git" at the very end. */
  function StripGitSuffix(s: string): (r: string)
    ensures EndsWith(s, ".git") ==> r + ".git" == s
    ensures !EndsWith(s, ".git") ==> r == s
    ensures |r| <= |s| && forall k :: 0 <= k < |r| ==> r[k] == s[k]
  {
    if EndsWith(s, ".git") then s[..|s| - 4] else s
  }

  /** Owner and repository, or None when the value has no '/'. */
  function ParseRepo(v: string): (res: Option<(string, string)>)
    ensures res.None? <==> '/' !in v
    ensures res.Some? ==> '/' !in res.value.0 && '/' !in res.value.1
    ensures res.Some? ==> var parts := Split(v, '/');
      res.value == (parts[|parts| - 2], StripGitSuffix(parts[|parts| - 1]))
  {
    if '/' !in v then None
    else
      var parts := Split(v, '/');
      var repo := StripGitSuffix(parts[|parts| - 1]);
      Some((parts[|parts| - 2], repo))
  }

  /** The plain "owner/repo" form is read back as written. */
  lemma {:induction false} ParseSlug(owner: string, repo: string)
    requires '/' !in owner && '/' !in repo
    requires !EndsWith(repo, ".git")
    ensures ParseRepo(owner + "/" + repo) == Some((owner, repo))
  {
    var v := owner + "/" + repo;
    assert v == owner + ['/'] + repo;
    assert v[|owner|] == '/';
    SplitJoin([owner, repo], '/');
    assert Join([owner, repo], '/') == v;
  }

  /** "owner/repo.git" loses the suffix. */
  lemma ParseSlugGit(owner: string, repo: string)
    requires '/' !in owner && '/' !in repo
    requires !EndsWith(repo, ".git")
    ensures ParseRepo(owner + "/" + repo + ".git") == Some((owner, repo))
  {
    var r := repo + ".git";
    forall k | 0 <= k < |r|
      ensures r[k] != '/'
    {
      if k < |repo| {
        assert r[k] == repo[k];
      }
    }
    assert owner + "/" + repo + ".git" == owner + "/" + r;
    SplitJoin([owner, r], '/');
    assert Join([owner, r], '/') == owner + "/" + r;
    assert r[|r| - 4..] == ".git";
    assert r[..|r| - 4] == repo;
  }

  lemma LastTwo(xs: seq<string>, ys: seq<string>, zs: seq<string>)
    requires zs == xs + ys && |ys| >= 2
    ensures |zs| >= 2 && zs[|zs| - 1] == ys[|ys| - 1] && zs[|zs| - 2] == ys[|ys| - 2]
  {
  }

  /** Anything in front of the last two pieces, such as
      "https://github.com", is ignored. */
  lemma {:induction false} ParseIgnoresPrefix(prefix: string, slug: string)
    requires '/' in slug
    ensures ParseRepo(prefix + "/" + slug) == ParseRepo(slug)
  {
    var v := prefix + "/" + slug;
    assert v == prefix + ['/'] + slug;
    assert '/' in v by {
      assert v[|prefix|] == '/';
    }
    var pp, ps, pv := Split(prefix, '/'), Split(slug, '/'), Split(v, '/');
    SplitAppend(prefix, slug, '/');
    LastTwo(pp, ps, pv);
    ParsedFromParts(v, pv);
    ParsedFromParts(slug, ps);
  }

  lemma ParsedFromParts(v: string, parts: seq<string>)
    requires '/' in v && parts == Split(v, '/')
    ensures |parts| >= 2
    ensures ParseRepo(v) == Some((parts[|parts| - 2], StripGitSuffix(parts[|parts| - 1])))
  {
  }

  /** The clone URL "https://github.com/owner/repo.git" names owner/repo. */
  lemma ParseCloneUrl(owner: string, repo: string)
    requires '/' !in owner && '/' !in repo
    requires !EndsWith(repo, ".git")
    ensures ParseRepo("https://github.com/" + owner + "/" + repo + ".git") == Some((owner, repo))
  {
    var gitSlug := owner + "/" + repo + ".git";
    ParseSlugGit(owner, repo);
    ParseIgnoresPrefix("https://github.com", gitSlug);
    CloneUrlShape(owner, repo);
  }

  lemma CloneUrlShape(owner: string, repo: string)
    ensures "https://github.com/" + owner + "/" + repo + ".git"
      == "https://github.com" + "/" + (owner + "/" + repo + ".git")
  {
    assert "https://github.com" + "/" == "https://github.com/";
  }

  /** The route's "://" test on the owner can never fire: the owner is a
      piece between separators and holds no '/'. */
  lemma OwnerNeverHoldsScheme(v: string)
    requires ParseRepo(v).Some?
    ensures !Contains(ParseRepo(v).value.0, "://")
  {
    var owner := ParseRepo(v).value.0;
    forall i: nat | i <= |owner|
      ensures !OccursAt(owner, "://", i)
    {
      if i + 3 <= |owner| {
        assert owner[i..i + 3][1] == owner[i + 1];
      }
    }
  }
}
