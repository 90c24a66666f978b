/** Branch and tag metadata, and whether the branch is the repository's default. */
module Ref {
  import opened Wrappers
  import opened Oracles
  import opened Configuration
  import opened Models

  /** The default-branch answer and whether the API was asked for it. */
  datatype DefaultCheck = DefaultCheck(isDefault: bool, askedApi: bool)

  /** `_check_default_branch`: the `DEFAULT_BRANCH` input decides when it is set;
      otherwise the API, when there is a client and a token; otherwise, or when the API
      raises, the answer is no. */
  function CheckDefaultBranch(cfg: Config, api: Option<GitHubApi>, branch: string): (r: DefaultCheck)
    ensures Truthy(cfg.defaultBranch) ==> r == DefaultCheck(branch == cfg.defaultBranch.value, false)
    ensures !Truthy(cfg.defaultBranch) ==> (r.askedApi <==> api.Some? && Truthy(cfg.token))
    ensures !Truthy(cfg.defaultBranch) ==>
              (r.isDefault <==> r.askedApi && GetDefaultBranch(api.value, cfg.repository) == Done(branch))
  {
    if Truthy(cfg.defaultBranch) then DefaultCheck(branch == cfg.defaultBranch.value, false)
    else if api.Some? && Truthy(cfg.token) then
      match GetDefaultBranch(api.value, cfg.repository)
      case Done(d) => DefaultCheck(branch == d, true)
      case Raised(_) => DefaultCheck(false, true)
    else DefaultCheck(false, false)
  }

  predicate IsMainName(branch: string) { branch == "main" || branch == "master" }

  datatype RefOutcome = RefOutcome(meta: RefMetadata, askedApi: bool)

  /** `RefExtractor.extract`. */
  function ExtractRef(cfg: Config, api: Option<GitHubApi>): (r: RefOutcome)
    ensures r.meta.branchName.Some? <==> cfg.refType == Some("branch") && Truthy(cfg.refName)
    ensures r.meta.tagName.Some? <==> cfg.refType == Some("tag") && Truthy(cfg.refName)
    ensures r.meta.branchName.Some? ==> r.meta.branchName == cfg.refName
    ensures r.meta.tagName.Some? ==> r.meta.tagName == cfg.refName
    ensures r.meta.isMainBranch <==> r.meta.branchName.Some? && IsMainName(r.meta.branchName.value)
    ensures r.meta.branchName.None? ==> !r.meta.isDefaultBranch && !r.askedApi
    ensures r.meta.branchName.Some? ==>
              var c := CheckDefaultBranch(cfg, api, r.meta.branchName.value);
              r.meta.isDefaultBranch == c.isDefault && r.askedApi == c.askedApi
  {
    if cfg.refType == Some("branch") && Truthy(cfg.refName) then
      var branch := cfg.refName.value;
      var c := CheckDefaultBranch(cfg, api, branch);
      RefOutcome(RefMetadata(Some(branch), None, c.isDefault, IsMainName(branch)), c.askedApi)
    else if cfg.refType == Some("tag") && Truthy(cfg.refName) then
      RefOutcome(RefMetadata(None, cfg.refName, false, false), false)
    else RefOutcome(RefMetadata(None, None, false, false), false)
  }

  /** A ref is never both a branch and a tag, and a tag is never the default branch. */
  lemma BranchOrTag(cfg: Config, api: Option<GitHubApi>)
    ensures var m := ExtractRef(cfg, api).meta;
            !(m.branchName.Some? && m.tagName.Some?)
            && (m.tagName.Some? ==> !m.isDefaultBranch && !m.isMainBranch)
  {
  }

  /** With `DEFAULT_BRANCH` set the API is never asked, and the branch is the default
      exactly when it has that name. */
  lemma DefaultInputDecides(cfg: Config, api: Option<GitHubApi>)
    requires Truthy(cfg.defaultBranch)
    ensures !ExtractRef(cfg, api).askedApi
    ensures ExtractRef(cfg, api).meta.isDefaultBranch <==>
              cfg.refType == Some("branch") && cfg.refName == cfg.defaultBranch
  {
  }

  /** Without the input, a branch is the default only on the API's word. */
  lemma DefaultNeedsApi(cfg: Config, api: Option<GitHubApi>)
    requires !Truthy(cfg.defaultBranch)
    ensures ExtractRef(cfg, api).meta.isDefaultBranch ==>
              && api.Some? && Truthy(cfg.token)
              && GetDefaultBranch(api.value, cfg.repository) == Done(cfg.refName.value)
  {
  }
}
