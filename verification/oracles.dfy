/** What the model cannot see, as finite tables: the git repository as GitPython
    presents it, the `origin` remote, and the GitHub REST API. Every question the
    code asks of them has an answer here, possibly an exception. */
module Oracles {
  import opened Wrappers

  /** The exception classes the `except` clauses tell apart. `GitError` stands for a
      GitPython error that is not a `GitCommandError` (the latter is a subclass of the
      former); `GitOperationError` is the action's own wrapper raised by `fetch_branch`
      and `deepen`. */
  datatype Exc = GitCommandError | GitError | ValueError | IndexError | GitOperationError | GithubException | OtherError

  /** A call's outcome: a value, or the exception it raised. */
  datatype Outcome<+T> = Done(value: T) | Raised(exc: Exc)

  type CommitId = string

  /** One GitPython `Diff`: the old and new paths (either may be missing) and the three
      status flags. */
  datatype DiffRecord = DiffRecord(
    aPath: Option<string>,
    bPath: Option<string>,
    newFile: bool,
    deletedFile: bool,
    renamedFile: bool)

  /** A resolved commit: its parents, the paths of its tree, the subject line and the
      whole of its message, and its author's name. */
  datatype CommitData = CommitData(
    id: CommitId,
    parents: seq<CommitId>,
    tree: seq<string>,
    summary: string,
    message: string,
    author: Option<string>)

  /** The repository: `repo.commit(rev)`, `a.diff(b)`, `repo.merge_base(a, b)` and
      `git show --name-only`. A question missing from a table raises a default kind:
      `GitCommandError` for the git commands, and `ValueError` for a revision, which is
      what GitPython raises for an unknown full hexadecimal SHA. A ref name it cannot
      resolve raises gitdb's `BadName` instead, which no `except` clause of the core
      names; a table states that case explicitly as `Raised(OtherError)` in `revs`. */
  datatype Repo = Repo(
    revs: map<string, Outcome<CommitData>>,
    diffs: map<(CommitId, CommitId), Outcome<seq<DiffRecord>>>,
    mergeBases: map<(CommitId, CommitId), Outcome<seq<CommitId>>>,
    shows: map<string, Outcome<string>>)

  function ResolveRev(repo: Repo, rev: string): (r: Outcome<CommitData>)
    ensures rev !in repo.revs ==> r == Raised(ValueError)
  {
    if rev in repo.revs then repo.revs[rev] else Raised(ValueError)
  }

  function DiffOf(repo: Repo, from: CommitId, to: CommitId): (r: Outcome<seq<DiffRecord>>)
    ensures (from, to) !in repo.diffs ==> r == Raised(GitCommandError)
  {
    if (from, to) in repo.diffs then repo.diffs[(from, to)] else Raised(GitCommandError)
  }

  function MergeBasesOf(repo: Repo, a: CommitId, b: CommitId): (r: Outcome<seq<CommitId>>)
    ensures (a, b) !in repo.mergeBases ==> r == Raised(GitCommandError)
  {
    if (a, b) in repo.mergeBases then repo.mergeBases[(a, b)] else Raised(GitCommandError)
  }

  function ShowOf(repo: Repo, rev: string): (r: Outcome<string>)
    ensures rev !in repo.shows ==> r == Raised(GitCommandError)
  {
    if rev in repo.shows then repo.shows[rev] else Raised(GitCommandError)
  }

  /** The state a successful fetch leaves behind: the repository with the new history
      and whether `.git/shallow` still exists. */
  datatype Landing = Landing(repo: Repo, shallowMarker: bool)

  /** The `origin` remote: `fetch(refspec[, depth])` and `fetch --deepen=<n>`. A fetch
      missing from a table raises `GitCommandError`. */
  datatype Remote = Remote(
    fetches: map<(string, Option<int>), Outcome<Landing>>,
    deepens: map<int, Outcome<Landing>>)

  function FetchOf(remote: Remote, refspec: string, depth: Option<int>): (r: Outcome<Landing>)
    ensures (refspec, depth) !in remote.fetches ==> r == Raised(GitCommandError)
  {
    if (refspec, depth) in remote.fetches then remote.fetches[(refspec, depth)] else Raised(GitCommandError)
  }

  function DeepenOf(remote: Remote, depth: int): (r: Outcome<Landing>)
    ensures depth !in remote.deepens ==> r == Raised(GitCommandError)
  {
    if depth in remote.deepens then remote.deepens[depth] else Raised(GitCommandError)
  }

  /** The GitHub REST API as the action uses it, keyed by repository full name (and PR
      number). A question missing from a table raises `GithubException`. */
  datatype GitHubApi = GitHubApi(
    prFiles: map<(string, int), seq<string>>,
    prCommits: map<(string, int), Option<int>>,
    defaultBranches: map<string, string>,
    privateFlags: map<string, bool>)

  const MaxPrFiles: nat := 3000

  /** `get_pr_files`: the PR's file names, cut after `MaxPrFiles` entries. */
  function GetPrFiles(api: GitHubApi, repo: string, number: int): (r: Outcome<seq<string>>)
    ensures (repo, number) in api.prFiles <==> r.Done?
    ensures r.Done? ==> |r.value| <= MaxPrFiles && |r.value| <= |api.prFiles[(repo, number)]| && r.value == api.prFiles[(repo, number)][..|r.value|]
    ensures r.Done? && |api.prFiles[(repo, number)]| <= MaxPrFiles ==> r.value == api.prFiles[(repo, number)]
  {
    if (repo, number) in api.prFiles then
      var all := api.prFiles[(repo, number)];
      Done(if |all| <= MaxPrFiles then all else all[..MaxPrFiles])
    else Raised(GithubException)
  }

  /** The `commits_count` entry of `get_pr_metadata`. */
  function GetPrCommits(api: GitHubApi, repo: string, number: int): (r: Outcome<Option<int>>)
    ensures r.Done? <==> (repo, number) in api.prCommits
  {
    if (repo, number) in api.prCommits then Done(api.prCommits[(repo, number)]) else Raised(GithubException)
  }

  function GetDefaultBranch(api: GitHubApi, repo: string): (r: Outcome<string>)
    ensures r.Done? <==> repo in api.defaultBranches
  {
    if repo in api.defaultBranches then Done(api.defaultBranches[repo]) else Raised(GithubException)
  }

  /** `get_repository(name).private`. */
  function GetPrivate(api: GitHubApi, repo: string): (r: Outcome<bool>)
    ensures r.Done? <==> repo in api.privateFlags
  {
    if repo in api.privateFlags then Done(api.privateFlags[repo]) else Raised(GithubException)
  }
}
