/** Repository metadata: the short name derived from the full name, and the visibility
    from the `REPO_VISIBILITY` input or the API. */
module Repository {
  import opened Wrappers
  import opened Text
  import opened Oracles
  import opened Configuration
  import opened Models

  /** The repository name: the full name without `owner/` when it starts with that;
      otherwise the text after the first `/`; otherwise the full name. */
  function RepoName(fullName: string, owner: string): (r: string)
    ensures StartsWith(fullName, owner + "/") ==> fullName == owner + "/" + r
    ensures !StartsWith(fullName, owner + "/") && '/' in fullName ==>
              exists i :: 0 <= i < |fullName| && fullName[i] == '/' && '/' !in fullName[..i] && r == fullName[i + 1..]
    ensures !StartsWith(fullName, owner + "/") && '/' !in fullName ==> r == fullName
  {
    if StartsWith(fullName, owner + "/") then
      assert fullName == fullName[..|owner| + 1] + fullName[|owner| + 1..];
      fullName[|owner| + 1..]
    else
      var parts := SplitOnce(fullName, '/');
      if parts.1.Some? then
        var i := |parts.0|;
        assert fullName[..i] == parts.0 && fullName[i] == '/' && fullName[i + 1..] == parts.1.value;
        parts.1.value
      else fullName
  }

  /** `owner/name` gives back `name`. */
  lemma RepoNameOf(owner: string, name: string)
    ensures RepoName(owner + "/" + name, owner) == name
  {
    var full := owner + "/" + name;
    assert full[..|owner + "/"|] == owner + "/";
  }

  /** The visibility flags and whether the API was asked. */
  datatype Visibility = Visibility(isPublic: bool, isPrivate: bool, askedApi: bool)

  /** The visibility: the lowered `REPO_VISIBILITY` when set (`internal` counts as
      private, anything else unknown is neither); otherwise the API's `private` flag
      with a client and a token; otherwise, or when the API raises, neither. */
  function RepoVisibility(cfg: Config, api: Option<GitHubApi>): (r: Visibility)
    ensures !(r.isPublic && r.isPrivate)
    ensures Truthy(cfg.repoVisibility) ==>
              var v := Lower(cfg.repoVisibility.value);
              && !r.askedApi
              && (r.isPublic <==> v == "public")
              && (r.isPrivate <==> v == "private" || v == "internal")
    ensures !Truthy(cfg.repoVisibility) ==> (r.askedApi <==> api.Some? && Truthy(cfg.token))
    ensures !Truthy(cfg.repoVisibility) && r.askedApi && GetPrivate(api.value, cfg.repository).Done? ==>
              r.isPrivate == GetPrivate(api.value, cfg.repository).value && r.isPublic == !r.isPrivate
    ensures !Truthy(cfg.repoVisibility) && !(r.askedApi && GetPrivate(api.value, cfg.repository).Done?) ==>
              !r.isPublic && !r.isPrivate
  {
    if Truthy(cfg.repoVisibility) then
      var v := Lower(cfg.repoVisibility.value);
      Visibility(v == "public", v == "private" || v == "internal", false)
    else if api.Some? && Truthy(cfg.token) then
      match GetPrivate(api.value, cfg.repository)
      case Done(p) => Visibility(!p, p, true)
      case Raised(_) => Visibility(false, false, true)
    else Visibility(false, false, false)
  }

  /** `RepositoryExtractor.extract`, including the model's own check. */
  function ExtractRepository(cfg: Config, api: Option<GitHubApi>): (r: Result<RepositoryMetadata, ModelError>)
    ensures r.Ok?
    ensures r.value.owner == cfg.owner && r.value.fullName == cfg.repository
    ensures r.value.name == RepoName(cfg.repository, cfg.owner)
    ensures var v := RepoVisibility(cfg, api);
            r.value.isPublic == v.isPublic && r.value.isPrivate == v.isPrivate
  {
    var v := RepoVisibility(cfg, api);
    MakeRepository(cfg.owner, RepoName(cfg.repository, cfg.owner), cfg.repository, v.isPublic, v.isPrivate)
  }

  /** The visibility input is case-insensitive. */
  lemma VisibilityIgnoresCase(cfg: Config, api: Option<GitHubApi>, text: string)
    requires cfg.repoVisibility == Some(text) && text != ""
    ensures RepoVisibility(cfg, api) == RepoVisibility(cfg.(repoVisibility := Some(Lower(text))), api)
  {
    LowerIdempotent(text);
  }
}
