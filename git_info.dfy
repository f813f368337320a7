/** The `GET /api/system/git-info` route (app/routes/api.system.git-info.ts).

    `getGitHubInfo` asks the GitHub REST API for a repository's metadata,
    retrying once with the project's own repository when the first answer is
    a 404, and turning every other failure into `null`.  `loader` projects the
    result into the `local` / `github` / `isForked` response.  The network is
    an oracle: a function from the request sent (URL and headers) to what came
    back.  The value of the `GITHUB_TOKEN` environment variable is a parameter. */
module GitInfoRoute {

  import opened Wrappers

  /** The repository the lookup falls back to, and the one `loader` asks for. */
  const Fallback := "stackblitz-labs/bolt.diy"
  const AcceptV3 := "application/vnd.github.v3+json"
  const ApiRepos := "https://api.github.com/repos/"
  const Unknown := "unknown"

  /** The upstream repository of a fork, as the API describes it. */
  datatype ParentInfo = ParentInfo(
    fullName: string,
    defaultBranch: string,
    stargazersCount: int,
    forksCount: int)

  /** The repository metadata the API returns (`GitHubRepoInfo`). */
  datatype RepoInfo = RepoInfo(
    name: string,
    fullName: string,
    defaultBranch: string,
    stargazersCount: int,
    forksCount: int,
    openIssuesCount: int,
    parent: Option<ParentInfo>)

  /** One HTTP request: the URL and its headers. */
  datatype Request = Request(url: string, headers: map<string, string>)

  /** The body of an answer: parsed metadata, or text `response.json()` fails on. */
  datatype ResponseBody = Data(info: RepoInfo) | Unparsable

  /** What `fetch` yields: it throws (network failure), or an answer arrives. */
  datatype FetchOutcome =
    | NetworkError
    | Answered(status: int, statusText: string, body: ResponseBody)

  /** The result of one lookup: the metadata or `null`, and the requests it sent, in order. */
  datatype Lookup = Lookup(info: Option<RepoInfo>, requests: seq<Request>)

  /** `response.ok`: the status is in the range 200-299. */
  predicate IsOk(status: int)
  {
    200 <= status <= 299
  }

  /** `if (githubToken)`: the variable is defined and not the empty string. */
  predicate TokenSet(token: Option<string>)
  {
    token.Some? && token.value != ""
  }

  function RepoUrl(repo: string): string
  {
    ApiRepos + repo
  }

  /** The headers every request carries. */
  function RequestHeaders(token: Option<string>): (h: map<string, string>)
    ensures "Accept" in h && h["Accept"] == AcceptV3
    ensures "Authorization" in h <==> TokenSet(token)
    ensures TokenSet(token) ==> h["Authorization"] == "token " + token.value
    ensures h.Keys <= {"Accept", "Authorization"}
  {
    var base := map["Accept" := AcceptV3];
    if TokenSet(token) then base["Authorization" := "token " + token.value] else base
  }

  /** The header construction as the source performs it: start from `Accept`
      and add `Authorization` in place when a token is set. */
  method BuildHeaders(token: Option<string>) returns (headers: map<string, string>)
    ensures headers == RequestHeaders(token)
  {
    headers := map["Accept" := AcceptV3];
    if token.Some? && token.value != "" {
      headers := headers["Authorization" := "token " + token.value];
    }
  }

  /** `getGitHubInfo(repo)`.  A non-OK 404 for any repository other than the fallback
      is answered by looking the fallback up instead; any other non-OK status, a fetch
      that throws or a body that does not parse yields `None`.  The fallback itself
      never falls back, which is why the recursion stops. */
  function GetGitHubInfo(repo: string, token: Option<string>, fetch: Request -> FetchOutcome): (r: Lookup)
    ensures 1 <= |r.requests| <= 2
    ensures r.requests[0] == Request(RepoUrl(repo), RequestHeaders(token))
    ensures |r.requests| == 2 ==> repo != Fallback && r.requests[1] == Request(RepoUrl(Fallback), RequestHeaders(token))
    decreases if repo == Fallback then 0 else 1
  {
    var req := Request(RepoUrl(repo), RequestHeaders(token));
    match fetch(req)
    case NetworkError => Lookup(None, [req])
    case Answered(status, _, body) =>
      if !IsOk(status) then
        if status == 404 && repo != Fallback then
          var retry := GetGitHubInfo(Fallback, token, fetch);
          Lookup(retry.info, [req] + retry.requests)
        else
          Lookup(None, [req])
      else
        match body
        case Unparsable => Lookup(None, [req])
        case Data(info) => Lookup(Some(info), [req])
  }

  /** Whether the answer to the first request triggers the fallback.  The `!IsOk`
      conjunct is implied by the 404 and mirrors the source's nesting of the 404
      test inside the non-OK branch. */
  predicate FallsBack(repo: string, first: FetchOutcome)
  {
    first.Answered? && !IsOk(first.status) && first.status == 404 && repo != Fallback
  }

  /** A second request is sent exactly when the first answer is a 404 for a repository
      other than the fallback; the fallback's lookup then is the whole result. */
  lemma {:induction false} FallbackExactlyOn404(repo: string, token: Option<string>, fetch: Request -> FetchOutcome)
    ensures var r := GetGitHubInfo(repo, token, fetch);
            var first := fetch(Request(RepoUrl(repo), RequestHeaders(token)));
            && (|r.requests| == 2 <==> FallsBack(repo, first))
            && (FallsBack(repo, first) ==> r.info == GetGitHubInfo(Fallback, token, fetch).info)
  {
  }

  /** Looking the fallback up sends exactly one request. */
  lemma FallbackNeverFallsBack(token: Option<string>, fetch: Request -> FetchOutcome)
    ensures GetGitHubInfo(Fallback, token, fetch).requests == [Request(RepoUrl(Fallback), RequestHeaders(token))]
  {
  }

  /** Every failure outside the fallback case becomes `None`, and an OK answer
      with a parsed body is returned unchanged. */
  lemma FirstAnswerDecides(repo: string, token: Option<string>, fetch: Request -> FetchOutcome)
    ensures var r := GetGitHubInfo(repo, token, fetch);
            var first := fetch(Request(RepoUrl(repo), RequestHeaders(token)));
            && (first.NetworkError? ==> r.info.None?)
            && (first.Answered? && !IsOk(first.status) && !FallsBack(repo, first) ==> r.info.None?)
            && (first.Answered? && IsOk(first.status) && first.body.Unparsable? ==> r.info.None?)
            && (first.Answered? && IsOk(first.status) && first.body.Data? ==> r.info == Some(first.body.info))
  {
  }

  /** Whatever metadata a lookup returns came, unchanged, from an OK answer to one of
      the requests it sent. */
  lemma {:induction false} InfoComesFromOkAnswer(repo: string, token: Option<string>, fetch: Request -> FetchOutcome)
    ensures var r := GetGitHubInfo(repo, token, fetch);
            r.info.Some? ==>
              exists i :: 0 <= i < |r.requests| && fetch(r.requests[i]).Answered?
                          && IsOk(fetch(r.requests[i]).status)
                          && fetch(r.requests[i]).body == Data(r.info.value)
  {
  }

  // ---- The response of `loader` ----

  /** The `local` block: sentinels, since no local repository can be inspected. */
  datatype LocalInfo = LocalInfo(
    commitHash: string,
    branch: string,
    commitTime: string,
    author: string,
    email: string,
    remoteUrl: string,
    repoName: string)

  datatype CurrentRepo = CurrentRepo(fullName: string, defaultBranch: string, stars: int, forks: int, openIssues: int)

  datatype Upstream = Upstream(fullName: string, defaultBranch: string, stars: int, forks: int)

  datatype GitHubBlock = GitHubBlock(currentRepo: CurrentRepo, upstream: Option<Upstream>)

  /** The response object, without its timestamp. */
  datatype SystemInfo = SystemInfo(local: LocalInfo, github: Option<GitHubBlock>, isForked: bool)

  function ProjectUpstream(p: ParentInfo): Upstream
  {
    Upstream(p.fullName, p.defaultBranch, p.stargazersCount, p.forksCount)
  }

  /** The projection of the looked-up metadata into the response. */
  function Project(info: Option<RepoInfo>): (s: SystemInfo)
    ensures s.local == LocalInfo("no-git-info", Unknown, Unknown, Unknown, Unknown, Unknown, Unknown)
    ensures s.github.None? <==> info.None?
    ensures s.isForked <==> info.Some? && info.value.parent.Some?
    ensures s.isForked <==> s.github.Some? && s.github.value.upstream.Some?
    ensures info.Some? ==>
              var g := info.value;
              var c := s.github.value.currentRepo;
              && c.fullName == g.fullName && c.defaultBranch == g.defaultBranch
              && c.stars == g.stargazersCount && c.forks == g.forksCount
              && c.openIssues == g.openIssuesCount
    ensures info.Some? && info.value.parent.Some? ==>
              var p := info.value.parent.value;
              var u := s.github.value.upstream.value;
              u.fullName == p.fullName && u.defaultBranch == p.defaultBranch
              && u.stars == p.stargazersCount && u.forks == p.forksCount
  {
    var local := LocalInfo("no-git-info", Unknown, Unknown, Unknown, Unknown, Unknown, Unknown);
    match info
    case None => SystemInfo(local, None, false)
    case Some(g) =>
      var upstream := match g.parent
        case None => None
        case Some(p) => Some(ProjectUpstream(p));
      SystemInfo(local, Some(GitHubBlock(CurrentRepo(g.fullName, g.defaultBranch, g.stargazersCount, g.forksCount, g.openIssuesCount), upstream)), g.parent.Some?)
  }

  /** The projection loses only the repository's short `name`: two lookups project to the
      same response exactly when they agree on everything else. */
  lemma ProjectForgetsOnlyName(a: RepoInfo, b: RepoInfo)
    ensures Project(Some(a)) == Project(Some(b)) <==> a.(name := b.name) == b
  {
  }

  /** `loader`: look the fallback repository up and project the result.  Since the
      fallback never falls back, one request is sent, and its answer alone decides
      whether the `github` block is present. */
  function Loader(token: Option<string>, fetch: Request -> FetchOutcome): (s: SystemInfo)
    ensures var answer := fetch(Request(RepoUrl(Fallback), RequestHeaders(token)));
            && (s.github.Some? <==> answer.Answered? && IsOk(answer.status) && answer.body.Data?)
            && (s.github.Some? ==> s == Project(Some(answer.body.info)))
            && (s.github.None? ==> s == Project(None) && !s.isForked)
  {
    Project(GetGitHubInfo(Fallback, token, fetch).info)
  }
}
