/** Pull-request metadata: the number, the two branches, the fork flag and the commit
    count, from the environment, the API and the event payload. */
module PullRequest {
  import opened Wrappers
  import opened Oracles
  import opened Configuration
  import opened EventPayload
  import opened Models
  import opened Event

  /** The commit count: the API's answer with a client and a token (a raised call counts
      as no answer); while there is still no count, the payload's
      `pull_request.commits`. */
  function CommitsCount(cfg: Config, payload: Option<Payload>, api: Option<GitHubApi>, number: int): (r: Option<int>)
    ensures api.Some? && Truthy(cfg.token) && GetPrCommits(api.value, cfg.repository, number).Done?
            && GetPrCommits(api.value, cfg.repository, number).value.Some? ==>
              r == GetPrCommits(api.value, cfg.repository, number).value
    ensures r.Some? ==>
              (api.Some? && Truthy(cfg.token) && GetPrCommits(api.value, cfg.repository, number) == Done(r))
              || (payload.Some? && payload.value.prCommits == r)
    ensures r.None? ==> payload.None? || payload.value.prCommits.None?
  {
    var fromApi :=
      if api.Some? && Truthy(cfg.token) then
        match GetPrCommits(api.value, cfg.repository, number)
        case Done(c) => c
        case Raised(_) => None
      else None;
    if fromApi.None? && payload.Some? then payload.value.prCommits else fromApi
  }

  /** `PullRequestExtractor.extract`. */
  function ExtractPullRequest(cfg: Config, payload: Option<Payload>, api: Option<GitHubApi>): (r: PullRequestMetadata)
    ensures !IsPullRequestEvent(cfg.eventName) ==> r == EmptyPullRequest
    ensures var n := PrNumber(cfg.ref, payload);
            IsPullRequestEvent(cfg.eventName) && (n.None? || n.value == 0) ==> r == EmptyPullRequest
    ensures var n := PrNumber(cfg.ref, payload);
            IsPullRequestEvent(cfg.eventName) && n.Some? && n.value != 0 ==>
              && r.number == n
              && r.sourceBranch == cfg.headRef && r.targetBranch == cfg.baseRef
              && r.isFork == cfg.prHeadRepoFork
              && r.commitsCount == CommitsCount(cfg, payload, api, n.value)
  {
    if !IsPullRequestEvent(cfg.eventName) then EmptyPullRequest
    else
      var n := PrNumber(cfg.ref, payload);
      if n.None? || n.value == 0 then EmptyPullRequest
      else
        PullRequestMetadata(n, cfg.headRef, cfg.baseRef, CommitsCount(cfg, payload, api, n.value), cfg.prHeadRepoFork)
  }

  /** The API never decides the number: with any client, or none, the number, the
      branches and the fork flag are the same. */
  lemma NumberIndependentOfApi(cfg: Config, payload: Option<Payload>, api1: Option<GitHubApi>, api2: Option<GitHubApi>)
    ensures var a := ExtractPullRequest(cfg, payload, api1);
            var b := ExtractPullRequest(cfg, payload, api2);
            a.number == b.number && a.sourceBranch == b.sourceBranch
            && a.targetBranch == b.targetBranch && a.isFork == b.isFork
  {
  }

  /** An API count, zero included, is never replaced by the payload's. */
  lemma ApiCountWins(cfg: Config, payload: Option<Payload>, api: GitHubApi, number: int, count: int)
    requires Truthy(cfg.token) && GetPrCommits(api, cfg.repository, number) == Done(Some(count))
    ensures CommitsCount(cfg, payload, Some(api), number) == Some(count)
  {
  }

  /** A ref in the pull-request shape decides the number over the payload. */
  lemma RefNumberFirst(cfg: Config, payload: Option<Payload>, api: Option<GitHubApi>, n: nat, rest: string)
    requires IsPullRequestEvent(cfg.eventName) && n != 0
    requires cfg.ref == Some(PullRefPrefix + Text.NatToString(n) + "/" + rest)
    ensures ExtractPullRequest(cfg, payload, api).number == Some(n)
  {
    PrNumberFromRefOf(n, rest);
  }
}
