/** The changed-file detector: for a push, the payload's before/after range or the
    single commit; for a pull request, the GitHub API or git (with shallow-clone repair,
    the three-dot diff and an ordered fallback chain). Every call the detector makes on
    the git accessor or the API client is recorded in a trace. */
module ChangedFiles {
  import opened Wrappers
  import opened Text
  import opened Oracles
  import opened GitOps
  import opened Configuration
  import opened EventPayload
  import opened Models
  import opened Event

  /** A call the detector makes on the git accessor or the API client. */
  datatype Call =
    | HasGitRepoCall
    | IsShallowCloneCall
    | CommitFilesCategorizedCall(sha: string)
    | DiffCommitsCategorizedCall(from: string, to: string)
    | DiffBranchesCategorizedCall(base: string, head: string)
    | FetchBranchCall(branch: string, depth: Option<int>)
    | DeepenCall(deepenBy: int)
    | GetPrFilesCall(repository: string, number: int)

  predicate IsGitCall(c: Call) { !c.GetPrFilesCall? }

  /** A partial answer: the flat list, the categorised lists, the calls made and the
      accessor afterwards. */
  datatype Step = Step(files: seq<string>, cat: Categorized, trace: seq<Call>, git: Option<Accessor>)

  /** The detector's result: the metadata, the calls made and the accessor afterwards. */
  datatype Detection = Detection(meta: ChangedFilesMetadata, trace: seq<Call>, git: Option<Accessor>)

  function Nothing(trace: seq<Call>, git: Option<Accessor>): (r: Step)
    ensures r.files == [] && r.cat == NoChanges
  {
    Step([], NoChanges, trace, git)
  }

  /** A categorised answer, reported with `files = added ++ modified ++ removed`. */
  function Found(c: Categorized, trace: seq<Call>, git: Option<Accessor>): (r: Step)
    ensures r.files == AllFiles(r.cat) && r.cat == c
  {
    Step(AllFiles(c), c, trace, git)
  }

  // ---- push -------------------------------------------------------------------------

  const NullSha := "0000000000000000000000000000000000000000"

  /** Whether the payload gives a usable before/after range: both strings, both
      non-empty, and `before` neither the all-zero SHA nor `"null"`. */
  predicate HasPushRange(payload: Option<Payload>) {
    && payload.Some?
    && Truthy(StringField(payload.value.before))
    && Truthy(StringField(payload.value.after))
    && StringField(payload.value.before).value != NullSha
    && StringField(payload.value.before).value != "null"
  }

  /** `_extract_push_event`. */
  function PushFiles(cfg: Config, payload: Option<Payload>, git: Option<Accessor>): (r: Step)
    ensures r.git == git
    ensures r.files == AllFiles(r.cat)
    ensures git.None? ==> r.trace == [] && r.cat == NoChanges
    ensures git.Some? && !HasGitRepo(git.value) ==> r.trace == [HasGitRepoCall] && r.cat == NoChanges
    ensures git.Some? && HasGitRepo(git.value) && HasPushRange(payload) ==>
              var before := StringField(payload.value.before).value;
              var after := StringField(payload.value.after).value;
              && r.trace == [HasGitRepoCall, DiffCommitsCategorizedCall(before, after)]
              && r.cat == (match DiffCommitsCategorized(git.value, before, after)
                           case Done(c) => c
                           case Raised(_) => NoChanges)
    ensures git.Some? && HasGitRepo(git.value) && !HasPushRange(payload) ==>
              && r.trace == [HasGitRepoCall, CommitFilesCategorizedCall(cfg.sha)]
              && r.cat == (match CommitFilesCategorized(git.value, cfg.sha)
                           case Done(c) => c
                           case Raised(_) => NoChanges)
  {
    if git.None? then Nothing([], git)
    else if !HasGitRepo(git.value) then Nothing([HasGitRepoCall], git)
    else
      var a := git.value;
      if HasPushRange(payload) then
        var before := StringField(payload.value.before).value;
        var after := StringField(payload.value.after).value;
        var trace := [HasGitRepoCall, DiffCommitsCategorizedCall(before, after)];
        match DiffCommitsCategorized(a, before, after)
        case Done(c) => Found(c, trace, git)
        case Raised(_) => Nothing(trace, git)
      else
        var trace := [HasGitRepoCall, CommitFilesCategorizedCall(cfg.sha)];
        match CommitFilesCategorized(a, cfg.sha)
        case Done(c) => Found(c, trace, git)
        case Raised(_) => Nothing(trace, git)
  }

  // ---- pull requests: choosing a strategy ---------------------------------------------

  datatype Strategy = UseApi | UseGit | NoStrategy

  /** `_determine_pr_strategy`, with the `has_git_repo` calls it makes. */
  function ChooseStrategy(cfg: Config, api: Option<GitHubApi>, git: Option<Accessor>): (r: (Strategy, seq<Call>))
    ensures r.0 == UseApi <==> api.Some? && Truthy(cfg.token) && cfg.changeDetection != Git
    ensures r.0 == UseGit <==>
              git.Some? && HasGitRepo(git.value)
              && (cfg.changeDetection == Git || (cfg.changeDetection == Auto && !(api.Some? && Truthy(cfg.token))))
    ensures forall c :: c in r.1 ==> c == HasGitRepoCall
  {
    var apiReady := api.Some? && Truthy(cfg.token);
    match cfg.changeDetection
    case GitHubApi => (if apiReady then UseApi else NoStrategy, [])
    case Git =>
      if git.None? then (NoStrategy, [])
      else (if HasGitRepo(git.value) then UseGit else NoStrategy, [HasGitRepoCall])
    case Auto =>
      if apiReady then (UseApi, [])
      else if git.None? then (NoStrategy, [])
      else (if HasGitRepo(git.value) then UseGit else NoStrategy, [HasGitRepoCall])
  }

  // ---- pull requests: the API -----------------------------------------------------------

  /** `_extract_pr_api`: every file the API lists, reported as modified. A missing or
      zero PR number, or an API error, gives nothing. */
  function PrFilesFromApi(cfg: Config, payload: Option<Payload>, api: Option<GitHubApi>, git: Option<Accessor>)
    : (r: Step)
    ensures r.git == git
    ensures r.cat.added == [] && r.cat.removed == [] && r.files == r.cat.modified
    ensures forall c :: c in r.trace ==> !IsGitCall(c)
    ensures var n := PrNumber(cfg.ref, payload);
            api.Some? && n.Some? && n.value != 0 && GetPrFiles(api.value, cfg.repository, n.value).Done? ==>
              r.files == GetPrFiles(api.value, cfg.repository, n.value).value
    ensures r.files != [] ==> api.Some? && PrNumber(cfg.ref, payload).Some? && PrNumber(cfg.ref, payload).value != 0
  {
    if api.None? then Nothing([], git)
    else
      var n := PrNumber(cfg.ref, payload);
      if n.None? || n.value == 0 then Nothing([], git)
      else
        var trace := [GetPrFilesCall(cfg.repository, n.value)];
        match GetPrFiles(api.value, cfg.repository, n.value)
        case Done(files) => Step(files, Categorized([], files, []), trace, git)
        case Raised(_) => Nothing(trace, git)
  }

  // ---- pull requests: git ----------------------------------------------------------------

  /** The shallow-clone repair: fetch the base branch at depth 1; only if that raises,
      deepen by the configured depth; a failure of both leaves the accessor as it was. */
  function RepairShallow(a: Accessor, base: string, depth: int): (r: (Accessor, seq<Call>))
    ensures FetchBranch(a, "origin/" + base, Some(1)).Ok? ==>
              r == (FetchBranch(a, "origin/" + base, Some(1)).value, [FetchBranchCall("origin/" + base, Some(1))])
    ensures FetchBranch(a, "origin/" + base, Some(1)).Err? ==>
              && r.1 == [FetchBranchCall("origin/" + base, Some(1)), DeepenCall(depth)]
              && r.0 == (match Deepen(a, depth) case Ok(d) => d case Err(_) => a)
  {
    var fetch := FetchBranchCall("origin/" + base, Some(1));
    match FetchBranch(a, "origin/" + base, Some(1))
    case Ok(f) => (f, [fetch])
    case Err(_) =>
      match Deepen(a, depth)
      case Ok(d) => (d, [fetch, DeepenCall(depth)])
      case Err(_) => (a, [fetch, DeepenCall(depth)])
  }

  /** `_extract_pr_git_fallback`: diff `HEAD^1..HEAD`, then categorise `HEAD`; the
      first non-empty answer wins, a step that raises is skipped. */
  function Fallback(a: Accessor, trace: seq<Call>): (r: Step)
    ensures r.git == Some(a)
    ensures r.files == AllFiles(r.cat)
    ensures var first := DiffCommitsCategorized(a, "HEAD^1", "HEAD");
            var second := CommitFilesCategorized(a, "HEAD");
            if first.Done? && AllFiles(first.value) != [] then
              r.trace == trace + [DiffCommitsCategorizedCall("HEAD^1", "HEAD")] && r.cat == first.value
            else
              && r.trace == trace + [DiffCommitsCategorizedCall("HEAD^1", "HEAD"), CommitFilesCategorizedCall("HEAD")]
              && r.cat == (if second.Done? && AllFiles(second.value) != [] then second.value else NoChanges)
  {
    var t1 := trace + [DiffCommitsCategorizedCall("HEAD^1", "HEAD")];
    var first := DiffCommitsCategorized(a, "HEAD^1", "HEAD");
    if first.Done? && AllFiles(first.value) != [] then Found(first.value, t1, Some(a))
    else
      var t2 := t1 + [CommitFilesCategorizedCall("HEAD")];
      var second := CommitFilesCategorized(a, "HEAD");
      if second.Done? && AllFiles(second.value) != [] then Found(second.value, t2, Some(a))
      else Nothing(t2, Some(a))
  }

  /** The accessor after the shallow probe and, when shallow, the repair; with the calls. */
  function Prepared(a: Accessor, base: string, depth: int): (r: (Accessor, seq<Call>))
    ensures |r.1| > 0 && r.1[0] == IsShallowCloneCall
    ensures !IsShallowClone(a).0 ==> r == (IsShallowClone(a).1, [IsShallowCloneCall])
    ensures IsShallowClone(a).0 ==>
              var rep := RepairShallow(IsShallowClone(a).1, base, depth);
              r == (rep.0, [IsShallowCloneCall] + rep.1)
  {
    var (shallow, a1) := IsShallowClone(a);
    if shallow then
      var (a2, calls) := RepairShallow(a1, base, depth);
      (a2, [IsShallowCloneCall] + calls)
    else (a1, [IsShallowCloneCall])
  }

  /** The three-dot diff of the base branch against `HEAD`, after preparation. */
  function BaseDiff(a: Accessor, base: string, depth: int): MemoCall<Categorized> {
    DiffBranchesCategorized(Prepared(a, base, depth).0, "origin/" + base, "HEAD")
  }

  /** `_extract_pr_git`. */
  function PrFilesFromGit(cfg: Config, git: Option<Accessor>): (r: Step)
    ensures r.files == AllFiles(r.cat)
    ensures git.None? ==> r == Nothing([], git)
    ensures git.Some? && !Truthy(cfg.baseRef) ==> r == Fallback(git.value, [])
    ensures git.Some? && Truthy(cfg.baseRef) ==>
              var base := cfg.baseRef.value;
              var prep := Prepared(git.value, base, cfg.gitFetchDepth);
              var diff := BaseDiff(git.value, base, cfg.gitFetchDepth);
              var trace := prep.1 + [DiffBranchesCategorizedCall("origin/" + base, "HEAD")];
              match diff.result
              case Raised(_) => r == Nothing(trace, Some(diff.after))
              case Done(c) =>
                if AllFiles(c) != [] then r == Found(c, trace, Some(diff.after))
                else r == Fallback(diff.after, trace)
  {
    if git.None? then Nothing([], git)
    else if !Truthy(cfg.baseRef) then Fallback(git.value, [])
    else
      var base := cfg.baseRef.value;
      var prep := Prepared(git.value, base, cfg.gitFetchDepth);
      var diff := DiffBranchesCategorized(prep.0, "origin/" + base, "HEAD");
      var trace := prep.1 + [DiffBranchesCategorizedCall("origin/" + base, "HEAD")];
      match diff.result
      case Raised(_) => Nothing(trace, Some(diff.after))
      case Done(c) =>
        if AllFiles(c) != [] then Found(c, trace, Some(diff.after))
        else Fallback(diff.after, trace)
  }

  /** `_extract_pull_request`. */
  function PrFiles(cfg: Config, payload: Option<Payload>, api: Option<GitHubApi>, git: Option<Accessor>): (r: Step)
    ensures r.files == r.cat.added + r.cat.modified + r.cat.removed
    ensures var (s, calls) := ChooseStrategy(cfg, api, git);
            match s
            case UseApi => r == PrFilesFromApi(cfg, payload, api, git)
            case UseGit => |r.trace| >= |calls| && r.trace[..|calls|] == calls
                           && r.trace[|calls|..] == PrFilesFromGit(cfg, git).trace
                           && r.cat == PrFilesFromGit(cfg, git).cat && r.git == PrFilesFromGit(cfg, git).git
            case NoStrategy => r == Nothing(calls, git)
  {
    var (s, calls) := ChooseStrategy(cfg, api, git);
    match s
    case UseApi => PrFilesFromApi(cfg, payload, api, git)
    case UseGit =>
      var g := PrFilesFromGit(cfg, git);
      assert (calls + g.trace)[|calls|..] == g.trace;
      Step(g.files, g.cat, calls + g.trace, g.git)
    case NoStrategy => Nothing(calls, git)
  }

  /** `ChangedFilesExtractor.extract`. */
  function Detect(cfg: Config, payload: Option<Payload>, api: Option<GitHubApi>, git: Option<Accessor>)
    : (r: Detection)
    ensures CountsSynced(r.meta)
    ensures r.meta.files == r.meta.added + r.meta.modified + r.meta.removed
    ensures cfg.eventName != "push" && !IsPullRequestEvent(cfg.eventName) ==>
              r == Detection(NoChangedFiles, [], git)
    ensures cfg.eventName == "push" ==> r.git == git
  {
    var step :=
      if cfg.eventName == "push" then PushFiles(cfg, payload, git)
      else if IsPullRequestEvent(cfg.eventName) then PrFiles(cfg, payload, api, git)
      else Nothing([], git);
    Detection(MakeChangedFiles(step.files, step.cat.added, step.cat.modified, step.cat.removed), step.trace, step.git)
  }

  // ---- properties of the trace -------------------------------------------------------------

  /** When the API strategy is chosen no git operation is called. */
  lemma ApiStrategyNoGitCalls(cfg: Config, payload: Option<Payload>, api: Option<GitHubApi>, git: Option<Accessor>)
    requires IsPullRequestEvent(cfg.eventName)
    requires ChooseStrategy(cfg, api, git).0 == UseApi
    ensures forall c :: c in Detect(cfg, payload, api, git).trace ==> !IsGitCall(c)
    ensures Detect(cfg, payload, api, git).git == git
  {
  }

  /** Without a strategy the result is empty. */
  lemma NoStrategyEmpty(cfg: Config, payload: Option<Payload>, api: Option<GitHubApi>, git: Option<Accessor>)
    requires IsPullRequestEvent(cfg.eventName)
    requires ChooseStrategy(cfg, api, git).0 == NoStrategy
    ensures Detect(cfg, payload, api, git).meta == NoChangedFiles
  {
  }

  /** On the git strategy `deepen` is called only right after a `fetch_branch` of the
      base branch that raised, and the three-dot diff runs after the repair whatever
      its outcome. */
  lemma DeepenOnlyAfterFailedFetch(cfg: Config, git: Accessor)
    requires Truthy(cfg.baseRef)
    ensures var t := PrFilesFromGit(cfg, Some(git)).trace;
            var base := cfg.baseRef.value;
            var a1 := IsShallowClone(git).1;
            && (forall i :: 0 <= i < |t| && t[i].DeepenCall? ==>
                  && i == 2 && t[1] == FetchBranchCall("origin/" + base, Some(1))
                  && FetchBranch(a1, "origin/" + base, Some(1)).Err?)
            && DiffBranchesCategorizedCall("origin/" + base, "HEAD") in t
  {
    var base := cfg.baseRef.value;
    var prep := Prepared(git, base, cfg.gitFetchDepth);
    var t0 := prep.1 + [DiffBranchesCategorizedCall("origin/" + base, "HEAD")];
    var t := PrFilesFromGit(cfg, Some(git)).trace;
    GitTraceExtends(cfg, git);
    PreparedDeepen(git, base, cfg.gitFetchDepth);
    DeepenWithinPrefix(prep.1, DiffBranchesCategorizedCall("origin/" + base, "HEAD"), t,
                       FetchBranchCall("origin/" + base, Some(1)),
                       FetchBranch(IsShallowClone(git).1, "origin/" + base, Some(1)).Err?);
  }

  /** A trace that starts with a preparation and a non-`deepen` call and then holds no
      `deepen` has its `deepen` calls where the preparation has them. */
  lemma DeepenWithinPrefix(p: seq<Call>, d: Call, t: seq<Call>, fetch: Call, failed: bool)
    requires !d.DeepenCall?
    requires |p| + 1 <= |t| && t[..|p| + 1] == p + [d]
    requires forall i :: |p| + 1 <= i < |t| ==> !t[i].DeepenCall?
    requires forall i :: 0 <= i < |p| && p[i].DeepenCall? ==> i == 2 && p[1] == fetch && failed
    ensures forall i :: 0 <= i < |t| && t[i].DeepenCall? ==> i == 2 && t[1] == fetch && failed
    ensures d in t
  {
    assert forall i :: 0 <= i < |p| ==> t[i] == t[..|p| + 1][i] == p[i];
    assert t[|p|] == t[..|p| + 1][|p|] == d;
  }

  /** The git strategy's trace is the preparation, the three-dot diff, and then only
      calls that are not `deepen`. */
  lemma GitTraceExtends(cfg: Config, git: Accessor)
    requires Truthy(cfg.baseRef)
    ensures var prep := Prepared(git, cfg.baseRef.value, cfg.gitFetchDepth);
            var t0 := prep.1 + [DiffBranchesCategorizedCall("origin/" + cfg.baseRef.value, "HEAD")];
            var t := PrFilesFromGit(cfg, Some(git)).trace;
            && |t0| <= |t| && t[..|t0|] == t0
            && forall i :: |t0| <= i < |t| ==> !t[i].DeepenCall?
  {
    var base := cfg.baseRef.value;
    var diff := BaseDiff(git, base, cfg.gitFetchDepth);
    var t0 := Prepared(git, base, cfg.gitFetchDepth).1 + [DiffBranchesCategorizedCall("origin/" + base, "HEAD")];
    var t := PrFilesFromGit(cfg, Some(git)).trace;
    match diff.result
    case Raised(_) =>
      assert t == t0;
    case Done(c) =>
      if AllFiles(c) != [] {
        assert t == t0;
      } else {
        assert t == Fallback(diff.after, t0).trace;
        FallbackExtends(diff.after, t0);
      }
  }

  /** The fallback only appends to the trace it is given, and never a `deepen`. */
  lemma FallbackExtends(a: Accessor, trace: seq<Call>)
    ensures var t := Fallback(a, trace).trace;
            && |trace| <= |t| && t[..|trace|] == trace
            && forall i :: |trace| <= i < |t| ==> !t[i].DeepenCall?
  {
  }

  /** In the preparation `deepen` can only be the third call, after a failed fetch. */
  lemma PreparedDeepen(a: Accessor, base: string, depth: int)
    ensures var calls := Prepared(a, base, depth).1;
            forall i :: 0 <= i < |calls| && calls[i].DeepenCall? ==>
              && i == 2 && calls[1] == FetchBranchCall("origin/" + base, Some(1))
              && FetchBranch(IsShallowClone(a).1, "origin/" + base, Some(1)).Err?
  {
  }

  /** The fallback chain runs exactly when there is no base branch or the three-dot
      diff came back empty. */
  lemma FallbackIff(cfg: Config, git: Accessor)
    ensures var t := PrFilesFromGit(cfg, Some(git)).trace;
            DiffCommitsCategorizedCall("HEAD^1", "HEAD") in t <==>
              (!Truthy(cfg.baseRef)
               || (BaseDiff(git, cfg.baseRef.value, cfg.gitFetchDepth).result.Done?
                   && AllFiles(BaseDiff(git, cfg.baseRef.value, cfg.gitFetchDepth).result.value) == []))
  {
    var t := PrFilesFromGit(cfg, Some(git)).trace;
    var call := DiffCommitsCategorizedCall("HEAD^1", "HEAD");
    if !Truthy(cfg.baseRef) {
      FallbackOpens(git, []);
    } else {
      var base := cfg.baseRef.value;
      var prep := Prepared(git, base, cfg.gitFetchDepth);
      var diff := BaseDiff(git, base, cfg.gitFetchDepth);
      var t0 := prep.1 + [DiffBranchesCategorizedCall("origin/" + base, "HEAD")];
      PreparedCallsNoDiff(git, base, cfg.gitFetchDepth);
      assert call !in t0;
      match diff.result
      case Raised(_) =>
        assert t == t0;
      case Done(c) =>
        if AllFiles(c) != [] {
          assert t == t0;
        } else {
          assert t == Fallback(diff.after, t0).trace;
          FallbackOpens(diff.after, t0);
        }
    }
  }

  /** The preparation makes no diff call. */
  lemma PreparedCallsNoDiff(a: Accessor, base: string, depth: int)
    ensures forall c :: c in Prepared(a, base, depth).1 ==> !c.DiffCommitsCategorizedCall?
  {
  }

  /** The fallback's first call is the `HEAD^1..HEAD` diff. */
  lemma FallbackOpens(a: Accessor, trace: seq<Call>)
    ensures var t := Fallback(a, trace).trace;
            |trace| < |t| && t[|trace|] == DiffCommitsCategorizedCall("HEAD^1", "HEAD")
  {
  }

  /** The fallback's answer: the first step with a non-empty answer, else nothing; a
      step that raised counts as empty. */
  lemma FallbackFirstNonEmpty(a: Accessor)
    ensures var r := Fallback(a, []);
            var first := DiffCommitsCategorized(a, "HEAD^1", "HEAD");
            var second := CommitFilesCategorized(a, "HEAD");
            && (r.files != [] <==> (first.Done? && AllFiles(first.value) != [])
                                   || (second.Done? && AllFiles(second.value) != []))
            && (first.Done? && AllFiles(first.value) != [] ==> r.cat == first.value)
            && (r.files == [] ==> r.cat == NoChanges)
  {
  }

  /** A push with no accessor, no repository, or a categoriser that raised reports
      nothing. */
  lemma PushEmptyWhenUnavailable(cfg: Config, payload: Option<Payload>, api: Option<GitHubApi>, git: Option<Accessor>)
    requires cfg.eventName == "push"
    requires git.None? || !HasGitRepo(git.value)
             || (HasPushRange(payload)
                 && DiffCommitsCategorized(git.value, StringField(payload.value.before).value,
                                           StringField(payload.value.after).value).Raised?)
             || (!HasPushRange(payload) && CommitFilesCategorized(git.value, cfg.sha).Raised?)
    ensures Detect(cfg, payload, api, git).meta == NoChangedFiles
  {
  }

  /** The push range is used exactly when the payload has one; otherwise the commit
      named by `GITHUB_SHA` is categorised. */
  lemma PushRangeChoice(cfg: Config, payload: Option<Payload>, api: Option<GitHubApi>, git: Accessor)
    requires cfg.eventName == "push" && HasGitRepo(git)
    ensures var t := Detect(cfg, payload, api, Some(git)).trace;
            && (HasPushRange(payload) <==> exists b, a :: DiffCommitsCategorizedCall(b, a) in t)
            && (!HasPushRange(payload) <==> CommitFilesCategorizedCall(cfg.sha) in t)
  {
    var t := Detect(cfg, payload, api, Some(git)).trace;
    if HasPushRange(payload) {
      assert t[1] in t;
    }
  }
}
