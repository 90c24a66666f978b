# repository-metadata-action, modelled in Dafny

This project models the decision logic of the `repository-metadata-action` GitHub
Action. The action reads the workflow's environment, the event payload, the local git
clone and the GitHub REST API. From these it derives one metadata record:
repository, event, ref, commit, pull request, actor, cache key, the files a change
touched, the files of the last commit, and Gerrit change parameters. It flattens that
record into sanitised step outputs and can render a Markdown summary.

The model is functional. The git clone, the `origin` remote and the GitHub API are
finite tables (`Oracles`). A question missing from a table raises a default kind, a
modelling choice: `GitCommandError` for a git command, and `ValueError` for a revision,
which is what GitPython raises for an unknown full SHA. An unresolvable ref name raises
gitdb's `BadName` in GitPython, which no `except` clause of the core names; a table
writes that answer as `Raised(OtherError)` for that name. Each extractor is a pure function of the configuration record, the
payload fields it reads, and those tables. Where an accessor keeps state, the state is
threaded through as a value: the merge-base memo and the cached shallow-clone answer.
The changed-files engine also returns the trace of the accessor calls it made.

Modules, following the program's structure:

- `Wrappers`, `Text` and `Ordering` give Python's meaning of strings. This covers
  `strip`, `split`, ASCII `lower`, `str(int)`, `int(str)`, string ordering, `sorted`
  and `sorted(set(...))`.
- `Validators` is `src/validators.py`.
- `Configuration` is `src/config.py` over an environment map.
- `Oracles` holds the git repository, the remote and the GitHub API as tables.
- `GitOps` is the part of `src/git_operations.py` the extractors rely on.
- `EventPayload` holds the fields of the event payload the extractors read.
- `Models` is `src/models.py`: value objects, their validators and `to_action_outputs`.
- There is one module per extractor: `Event`, `Ref`, `Repository`, `PullRequest`,
  `Cache`, `Actor`, `Commit`, `ChangedFiles`, `LastCommit` and `Gerrit`.
- `Markdown` is the summary sections of `src/formatters/markdown_formatter.py`.

Python's `re.match` with a pattern ending in `$` also accepts one final newline. The
validators, the owner check and the version-tag test model this explicitly
(`Validators.MatchDollar`, `Validators.Unterminated`).

## Model

| member | source | states |
|---|---|---|
| ChangedFiles.Nothing | src/extractors/changed_files.py:193 | the empty answer: no files and three empty lists |
| ChangedFiles.Found | src/extractors/changed_files.py:325-328 | a categorised answer is reported with `files` equal to `added + modified + removed` |
| ChangedFiles.PushFiles | src/extractors/changed_files.py:87-122 | no accessor or no repository gives nothing; a usable before/after range is diffed with `diff_commits_categorized(before, after)`, otherwise `GITHUB_SHA` alone is categorised; a raised exception gives nothing; the trace is exactly the calls made |
| ChangedFiles.ChooseStrategy | src/extractors/changed_files.py:195-228 | the API is chosen iff a client and a token exist and the mode is not `git`; git is chosen iff a repository exists and the mode is `git`, or `auto` without API access; only `has_git_repo` is called |
| ChangedFiles.PrFilesFromApi | src/extractors/changed_files.py:230-285 | every API path is reported as modified and nothing as added or removed; a missing or zero PR number or an API error gives nothing; no git call is made |
| ChangedFiles.RepairShallow | src/extractors/changed_files.py:310-324 | `fetch_branch("origin/" + base, depth=1)` first; `deepen(GIT_FETCH_DEPTH)` only when the fetch raised; a failure of both leaves the accessor as it was |
| ChangedFiles.Fallback | src/extractors/changed_files.py:338-370 | `diff HEAD^1..HEAD`, then categorise `HEAD`; the first non-empty answer wins; raising steps are skipped; nothing when both fail |
| ChangedFiles.Prepared | src/extractors/changed_files.py:310-324 | the shallow probe comes first; the repair runs exactly when the clone is shallow |
| ChangedFiles.PrFilesFromGit | src/extractors/changed_files.py:287-336 | no accessor gives nothing; no base ref goes straight to the fallback; otherwise prepare, run the three-dot diff against `origin/<base>`, and fall back exactly when it is empty; a raised diff gives nothing |
| ChangedFiles.PrFiles | src/extractors/changed_files.py:177-193 | the chosen strategy's answer, after the strategy probe's calls; no strategy gives nothing |
| ChangedFiles.Detect | src/extractors/changed_files.py:46-85 | the counts always match the lists; `files` is `added + modified + removed`; an event other than push or pull request gives the empty result and calls nothing |
| ChangedFiles.ApiStrategyNoGitCalls | src/extractors/changed_files.py:188-189 | when the API is chosen, no git operation is called and the accessor is unchanged |
| ChangedFiles.NoStrategyEmpty | src/extractors/changed_files.py:193 | without a strategy the result is empty |
| ChangedFiles.DeepenOnlyAfterFailedFetch | src/extractors/changed_files.py:310-325 | `deepen` appears only as the third call, right after a `fetch_branch` of the base branch that raised; the three-dot diff runs whatever the repair's outcome |
| ChangedFiles.GitTraceExtends | src/extractors/changed_files.py:310-332 | the git path's calls are the preparation, the three-dot diff, then only calls that are not `deepen` |
| ChangedFiles.PreparedDeepen | src/extractors/changed_files.py:310-324 | in the preparation `deepen` can only be the third call, after a failed fetch |
| ChangedFiles.FallbackIff | src/extractors/changed_files.py:304-307 | the fallback chain runs iff there is no base ref or the three-dot diff came back empty |
| ChangedFiles.FallbackFirstNonEmpty | src/extractors/changed_files.py:353-370 | the fallback gives files iff one of its two steps gave a non-empty answer, the first such answer, and otherwise three empty lists |
| ChangedFiles.PushEmptyWhenUnavailable | src/extractors/changed_files.py:97-122 | a push with no accessor, no repository or a raising categoriser reports nothing |
| ChangedFiles.PushRangeChoice | src/extractors/changed_files.py:103-118 | the range diff is called iff the payload has a usable range; otherwise `GITHUB_SHA` is categorised |
| GitOps.RepoOf | src/git_operations.py:37-51 | a repository handle exists only where `.git` exists; opening errors give none |
| GitOps.AllFiles | src/extractors/changed_files.py:111 | `added + modified + removed` has the summed length and holds exactly the members of the three lists |
| GitOps.Buckets | src/git_operations.py:342-360 | a path is in a bucket iff some diff record routes it there |
| GitOps.Categorize | src/git_operations.py:342-366 | each category is strictly ascending (sorted, no duplicates) and holds exactly the paths some record routes to it |
| GitOps.CategorizeRule | src/git_operations.py:342-360 | the flag priority new → deleted → renamed → plain, in both directions: added iff a new record has that `b_path`; removed iff a non-new deleted record has that `a_path`; modified iff a record that is neither has it as `b_path`, or as `a_path` with no `b_path`; records lacking the path are dropped |
| GitOps.RouteUnique | src/git_operations.py:342-360 | every record lands in at most one category |
| GitOps.OnlyNewFiles | src/git_operations.py:343-345 | a diff of new files only gives empty modified and removed lists |
| GitOps.CategorizeOrderFree | src/git_operations.py:362-366 | the categorised result does not depend on the order of the diff records |
| GitOps.PathsOf | src/git_operations.py:199-205 | the flat loop collects exactly the non-empty `a_path` and `b_path` values |
| GitOps.FlatPaths | src/git_operations.py:199-207 | the flat list is strictly ascending and holds exactly the non-empty `a_path`/`b_path` values |
| GitOps.FlatRenameBothNames | src/git_operations.py:201-205 | a rename contributes both its old and its new name to the flat list |
| GitOps.CategorizedWithinFlat | src/git_operations.py:199-207 | every path a categorised list reports is also in the flat list of the same diff |
| GitOps.Catch | src/git_operations.py:368-370 | an `except` clause turns only the exceptions it names into its fallback value and lets others through |
| GitOps.CommitChange | src/git_operations.py:325-360 | a root commit reports its whole tree as added (sorted, repeats kept); otherwise the categorised diff against the first parent |
| GitOps.CommitFilesCategorized | src/git_operations.py:311-370 | no repository gives three empty lists; no exception of a caught kind escapes, those kinds become three empty lists; whenever the commit resolves and has a parent, each returned list is strictly ascending |
| GitOps.CommitFilesCategorizedValue | src/git_operations.py:311-370 | a revision that fails to resolve gives the caught-kind fallback of its exception; a root commit gives its sorted tree as added; any other commit gives the categorisation of its diff against its first parent when that diff succeeds |
| GitOps.CommitsChange | src/git_operations.py:383-416 | a revision that fails to resolve raises its exception; otherwise the outcome is the categorised two-commit diff, each list strictly ascending |
| GitOps.DiffCommitsCategorized | src/git_operations.py:372-426 | no repository gives three empty lists; no exception of a caught kind escapes; each returned list is strictly ascending |
| GitOps.DiffCommitsCategorizedValue | src/git_operations.py:372-426 | the result is the two-commit diff with the caught kinds turned into empty lists; when both revisions resolve and the diff succeeds, exactly the categorisation of that diff |
| GitOps.LookupMergeBase | src/git_operations.py:450-458 | a memoised key is answered from the memo without computing; otherwise the first merge base (none when there is none) is computed and stored under the key; a raised lookup stores nothing; other memo entries survive and the flat half of the memo is untouched |
| GitOps.DiffBranchesCategorized | src/git_operations.py:428-501 | no repository gives empty lists without computing; no exception of a caught kind escapes; each returned list is strictly ascending; a memoised key is not recomputed and changes nothing; only the memo changes |
| GitOps.DiffBranchesCategorizedValue | src/git_operations.py:428-501 | a base or head that fails to resolve gives the caught-kind fallback and computes nothing; once both resolve, the memo and the computed flag come from the merge-base lookup and the result is the categorised diff from the merge base to head, or from base when there is no merge base, with the caught kinds turned into empty lists |
| GitOps.ThreeDotMemoized | src/git_operations.py:450-458 | repeating a three-dot diff whose merge base is stored asks `merge_base` no more, changes nothing and returns the same answer |
| GitOps.NoMergeBaseFallsBack | src/git_operations.py:448-466 | without a common ancestor the missing merge base is stored as such, the answer is the two-dot diff, and asking again gives it without computing |
| GitOps.LookupMergeBases | src/git_operations.py:270-279 | a memoised pair is answered from the memo without computing; otherwise the whole merge-base list is computed and stored; a raised lookup stores nothing; other entries survive and the categorised half of the memo is untouched |
| GitOps.DiffBranches | src/git_operations.py:248-309 | the flat three-dot diff: no repository gives `[]`; once both revisions resolve, the sorted de-duplicated paths of the diff from the first merge base to head, or of the two-dot diff when there is none, with the caught kinds turned into `[]`; memoised pairs are not recomputed; the categorised half of the memo is untouched |
| GitOps.CommitFiles | src/git_operations.py:173-211 | no repository gives `[]`; a root commit gives its tree as it is; any other commit gives the sorted de-duplicated paths of its diff against its first parent, with the caught kinds turned into `[]` |
| GitOps.DiffCommits | src/git_operations.py:213-246 | no repository gives `[]`; once both revisions resolve, the sorted de-duplicated paths of their diff, with the caught kinds turned into `[]`; a revision that fails to resolve is handled the same way |
| GitOps.IsShallowClone | src/git_operations.py:68-93 | a cached answer is returned as is; otherwise the answer is whether `.git` and `.git/shallow` both exist, and it is cached |
| GitOps.Landed | src/git_operations.py:535-540 | after a successful fetch the shallow flag is unknown again and the whole merge-base memo is empty |
| GitOps.FetchRefspec | src/git_operations.py:519-525 | one leading `origin/` is removed and the refspec is `<name>:refs/remotes/origin/<name>` |
| GitOps.FetchBranch | src/git_operations.py:503-546 | no repository raises `GitOperationError`; success means the remote answered the refspec with the depth passed only when truthy, and resets both caches; every GitPython error becomes `GitOperationError` and other exceptions propagate as they are |
| GitOps.Deepen | src/git_operations.py:548-577 | no repository raises `GitOperationError`; success resets both caches; a `GitCommandError` becomes `GitOperationError` and any other exception propagates as it is |
| GitOps.FetchInvalidatesMemo | src/git_operations.py:537-539 | after a successful fetch the next three-dot diff computes its merge base afresh or changes nothing |
| GitOps.NonEmptyLines | src/git_operations.py:597-598 | every kept line is non-empty and has no surrounding whitespace |
| GitOps.FilesFromShow | src/git_operations.py:579-602 | no repository gives `[]`; a `GitCommandError` from `git show` gives `[]` and any other exception propagates unchanged; otherwise the stripped non-empty lines of `git show --name-only`, in order |
| GitOps.NonEmptyLinesOfJoin | src/git_operations.py:597-598 | names without whitespace, one per line, read back as the same list |
| GitOps.CommitMessage | src/git_operations.py:95-126 | no repository gives `None`; for a resolved commit, the stripped subject line, or `None` when that is empty; a revision that fails to resolve gives `None` for the caught kinds and propagates the rest |
| GitOps.CommitMessageFull | src/git_operations.py:128-150 | no repository gives `None`; an empty message gives `None`, any other the stripped message |
| GitOps.CommitAuthor | src/git_operations.py:152-171 | no repository gives `None`; otherwise the author's name |
| Oracles.GetPrFiles | src/github_api.py:88-99 | the file names of the pull request, in order, cut after 3000 entries; an unknown pull request raises `GithubException` |
| Actor.ActorIdValue | src/extractors/actor.py:31-37 | no id when the configured one is unset or 0; a configured number as it is; raw text through `int()`, none when that fails |
| Actor.ExtractActor | src/extractors/actor.py:26-42 | the name is the configured actor and the id is the configured id read as above |
| Actor.ActorIdFromEnv | src/extractors/actor.py:31-37 | whichever form configuration kept, the id is `int()` of `GITHUB_ACTOR_ID` when it is set and parses, and none otherwise |
| Actor.NonPositiveIdKept | src/extractors/actor.py:31-37 | zero and negative ids, kept raw by configuration, are still reported as numbers here |
| Commit.CommitDetails | src/extractors/commit.py:58-69 | a failed message read loses both message and author; a failed author read keeps the message; successful reads are passed through |
| Commit.ExtractCommit | src/extractors/commit.py:48-78 | built exactly when the SHA has at least seven characters, with the SHA and its first seven as short form; without a repository there is no message or author, with one they are the reads above |
| Commit.CommitAlwaysBuilt | src/extractors/commit.py:48-78 | a SHA that passed validation always gives commit metadata whose short form is a prefix of it |
| Commit.DetailsPassThrough | src/extractors/commit.py:58-62 | successful reads are stored unchanged |
| LastCommit.ExtractLastCommit | src/extractors/changed_files_last_commit.py:53-100 | counts match lists; the categoriser runs exactly when a repository is there; no repository or a failure gives the empty record; otherwise the lists are the categoriser's and the file list is their sorted, duplicate-free union |
| LastCommit.LastCommitCountDistinct | src/extractors/changed_files_last_commit.py:73-95 | the count is the number of distinct paths over the three lists |
| Gerrit.IdAt | src/extractors/gerrit.py:199-203 | the captured group is `I` followed by forty hex digits |
| Gerrit.MatchWidthUnique | src/extractors/gerrit.py:199-203 | backtracking cannot give `\s+` a run other than the whole whitespace run after the key |
| Gerrit.MatchesAtIff | src/extractors/gerrit.py:199-203 | the deterministic reading matches at a position exactly when the pattern does |
| Gerrit.FindFromSpec | src/extractors/gerrit.py:199-203 | the scan reports the first match at or after its start, and nothing exactly when there is none |
| Gerrit.FindChangeId | src/extractors/gerrit.py:199-206 | a found id is `I` followed by forty hex digits |
| Gerrit.FindChangeIdSpec | src/extractors/gerrit.py:199-206 | an id is found exactly when some line is a trailer, and it is that of the first one |
| Gerrit.FirstMatchFound | src/extractors/gerrit.py:199-206 | a match with none before it is the one reported |
| Gerrit.TrailerFound | src/extractors/gerrit.py:176-229 | a message ending in a `Change-Id: <id>` line after a body without the key gives that id |
| Gerrit.TrailerLineMatches | src/extractors/gerrit.py:199-203 | the trailer line matches and captures the id |
| Gerrit.NoMatchInBody | src/extractors/gerrit.py:199-203 | a body without the key holds no match, even one running into the next line |
| Gerrit.FieldKeys | src/extractors/gerrit.py:264-268 | the three spellings tried: the name, `GERRIT_` with the name upper-cased, `gerrit_` with the name |
| Gerrit.FirstTruthy | src/extractors/gerrit.py:264-268 | the value of the first key with a non-empty value, none exactly when no key has one |
| Gerrit.FieldValue | src/extractors/gerrit.py:264-271 | the first spelling with a non-empty value decides: the field is that value, or empty when it is `null`, and later spellings are not consulted; no value under any spelling gives empty |
| Gerrit.SpellingPriority | src/extractors/gerrit.py:264-271 | a field set only under its `GERRIT_` spelling still reaches the result |
| Gerrit.NullBlocksLaterSpellings | src/extractors/gerrit.py:264-271 | a `"null"` under the plain name is the first truthy value, so the field is empty whatever the `GERRIT_` and `gerrit_` spellings hold |
| Gerrit.ExtractGerritFields | src/extractors/gerrit.py:231-273 | every listed field is its value as above, `comment` listed only when requested, every other field empty |
| Gerrit.KeptJson | src/extractors/gerrit.py:123-125 | the decoded object with `comment` removed unless requested, every other key kept with its value |
| Gerrit.KnownFields | src/models.py:118-130 | each field is the object's value for its name, empty when missing |
| Gerrit.FromDispatch | src/extractors/gerrit.py:93-142 | no payload gives nothing; a non-empty `gerrit_json` that decodes to an object is returned as is, non-empty exactly when keys remain; otherwise the separate inputs, exactly when some field is set; no comment unless requested |
| Gerrit.EnvData | src/extractors/gerrit.py:144-170 | each of the nine fields is its `GERRIT_*` variable or empty; the comment is `GERRIT_COMMENT` only when requested, otherwise empty; no source is recorded |
| Gerrit.FromEnvironment | src/extractors/gerrit.py:144-174 | the variables are used exactly when some field is set |
| Gerrit.CommitData | src/extractors/gerrit.py:210-221 | the Change-Id found, `ref-updated` as event, the commit as patch-set revision, the ref name as branch; project, comment, change number, change URL, patch-set number and refspec all empty |
| Gerrit.FromCommitMessage | src/extractors/gerrit.py:176-229 | a result exactly when a repository is there, the message read succeeds and is non-empty, and it holds a trailer; the result is built from that trailer's id |
| Gerrit.ToMetadata | src/extractors/gerrit.py:70-74 | the fields are the candidate's, with its source recorded |
| Gerrit.ExtractGerrit | src/extractors/gerrit.py:43-91 | the source is one of the five; `none` means the empty record; no comment unless requested; the dispatch sources only for `workflow_dispatch` |
| Gerrit.NoneIffNothingFound | src/extractors/gerrit.py:43-91 | the empty record exactly when no source found anything |
| Gerrit.EnvSourceFields | src/extractors/gerrit.py:64-74 | data from the environment is the `GERRIT_*` variables, field by field |
| Gerrit.CommitSourceFields | src/extractors/gerrit.py:67-74 | data from a trailer carries a well-formed Change-Id, the commit, `ref-updated` and the ref name, with every other field empty |
| Gerrit.JsonInputWins | src/extractors/gerrit.py:113-128 | a `gerrit_json` object with a key other than `comment` wins, and its fields are copied |
| Gerrit.EmptyJsonSkipsInputs | src/extractors/gerrit.py:113-128 | a `gerrit_json` of `{}` shuts out the separate inputs, and the search goes on as for any other event |
| Gerrit.EnvironmentBeforeCommit | src/extractors/gerrit.py:64-68 | outside `workflow_dispatch` a set `GERRIT_CHANGE_ID` decides, whatever the commit message |
| Gerrit.TrailerGivesChange | src/extractors/gerrit.py:67-74 | with no other source, a message ending in a trailer gives its id, the commit and `ref-updated` |
| EventPayload.StringField | src/extractors/changed_files.py:164-169 | a `before`/`after` value is kept exactly when it is a string |
| EventPayload.PrNumberFromRef | src/extractors/pull_request.py:114-116 | a number is found iff the ref starts with `refs/pull/`, a digit run and `/`, and it is that run's value |
| EventPayload.ShapesAreRuns | src/extractors/pull_request.py:114 | the pattern can capture only the maximal digit run after the prefix, so the capture is unique |
| EventPayload.PrNumberFromRefOf | src/extractors/changed_files.py:238-241 | a ref written `refs/pull/<n>/<rest>` gives back `n` |
| EventPayload.PrNumber | src/extractors/changed_files.py:230-255 | a pull-request ref wins (even with number 0); otherwise the payload's `pull_request.number` when it is non-zero; otherwise none |
| Event.ParseSuffix | src/extractors/event.py:100 | a read suffix renders back to its text, starts with `-` or `+`, and has a non-empty label over `[A-Za-z0-9.-]` |
| Event.SplitDigits | src/extractors/event.py:100 | splits off the maximal leading ASCII digit run |
| Event.ParsePatch | src/extractors/event.py:100 | an optional `.<digits>` group, read back exactly |
| Event.ParseSound | src/extractors/event.py:100 | whatever the reading accepts is a well-formed version that renders as the tag |
| Event.ParseRender | src/extractors/event.py:100 | every well-formed version is read back from its rendering |
| Event.VersionTagIff | src/extractors/event.py:83-101 | `_is_version_tag` holds iff the tag renders some well-formed `v<digits>(.<digits>){1,2}([-+]<label>)?`, possibly followed by the one newline `$` accepts |
| Event.ExtractEvent | src/extractors/event.py:39-81 | each flag is set iff its event is named; the tag/branch push flags iff a push has that ref type; `tag_push_event` iff a tag push with a non-empty version-tag ref name; the name is copied |
| Event.AtMostOneKind | src/extractors/event.py:39-70 | at most one of the seven kind flags is set, and a version-tag push is a tag push |
| Event.UnknownEventNoFlags | src/extractors/event.py:39-70 | an event the extractor does not know sets no flag |
| Event.VersionOfTag | src/extractors/event.py:100 | a version tag yields a well-formed version it is written as, with at most one final newline after it |
| Event.RenderedIsVersionTag | src/extractors/event.py:100 | every well-formed version, with or without one final newline, is a version tag |
| Ref.CheckDefaultBranch | src/extractors/ref.py:85-117 | a set `DEFAULT_BRANCH` decides by name equality without the API; otherwise the API is asked iff there is a client and a token, and the branch is default iff the API named it; a raised call gives false |
| Ref.ExtractRef | src/extractors/ref.py:48-83 | `branch_name` is set iff the ref type is `branch` with a non-empty name, `tag_name` likewise for `tag`; `is_main_branch` iff the branch is `main` or `master`; the default check runs only for branches |
| Ref.BranchOrTag | src/extractors/ref.py:57-71 | never both a branch and a tag; a tag is neither the default nor the main branch |
| Ref.DefaultInputDecides | src/extractors/ref.py:96-100 | with `DEFAULT_BRANCH` set the API is never asked, and the branch is default iff it has that name |
| Ref.DefaultNeedsApi | src/extractors/ref.py:103-117 | without the input a branch is default only when a client and a token exist and the API named it |
| Repository.RepoName | src/extractors/repository.py:51-57 | the name is the full name minus `owner/` when it starts with that; else the text after the first `/`; else the full name |
| Repository.RepoNameOf | src/extractors/repository.py:52-53 | `owner/name` gives back `name` |
| Repository.RepoVisibility | src/extractors/repository.py:59-81 | never both public and private; a set `REPO_VISIBILITY` decides case-insensitively (`internal` counts as private, other values neither) without the API; otherwise the API's `private` flag with a client and a token; otherwise, or on an API error, neither |
| Repository.ExtractRepository | src/extractors/repository.py:47-91 | always built; owner and full name are copied; the name and visibility are as derived |
| Repository.VisibilityIgnoresCase | src/extractors/repository.py:65 | the visibility input is case-insensitive |
| PullRequest.CommitsCount | src/extractors/pull_request.py:78-95 | the API's count (zero included) when a client and a token exist and the call answered; otherwise the payload's `pull_request.commits`; none only when the payload has none |
| PullRequest.ExtractPullRequest | src/extractors/pull_request.py:42-103 | non-PR events, and a missing or zero number, give empty metadata; otherwise the number, the head and base refs verbatim, the fork flag, and the commit count |
| PullRequest.NumberIndependentOfApi | src/extractors/pull_request.py:57-74 | the API never affects the number, the branches or the fork flag |
| PullRequest.ApiCountWins | src/extractors/pull_request.py:87-95 | an API count, zero included, is never replaced by the payload's |
| PullRequest.RefNumberFirst | src/extractors/pull_request.py:113-116 | a ref `refs/pull/<n>/...` decides the number over the payload |
| Cache.CacheRef | src/extractors/cache.py:29 | an unset or empty ref name becomes `main` |
| Cache.ExtractCache | src/extractors/cache.py:26-45 | raises `IndexError` iff the full name has no `/`; otherwise the restore key is `owner-<text after the first />-<ref>-` and the key is the restore key followed by the SHA |
| Cache.CacheKeyOf | src/extractors/cache.py:27-37 | for `owner/name` the keys are `owner-name-ref-sha` and `owner-name-ref-` |
| Cache.RestoreKeySharedAcrossCommits | src/extractors/cache.py:33-37 | the same repository and ref share the restore key for any commit, and keys differ exactly when the SHAs do |
| Configuration.LoadRequired | src/config.py:43-106 | succeeds exactly when each of the six required variables is present, non-empty and passes its own check; the stored values are the environment's; an absent repository variable is the first error reported |
| Configuration.OwnerAcceptance | src/config.py:64-70 | the owner is accepted exactly when it is 1 to 39 characters of letters, digits, `_`, `.` and `-`, a final newline allowed by the pattern and counted in the length |
| Configuration.OptionalRef | src/config.py:111-156 | an optional ref is kept exactly when present and non-empty, and then unchanged whether or not it passes the ref check |
| Configuration.LoadActorId | src/config.py:158-167 | an absent or empty id gives none; a value that parses as an integer of at least 1 is stored as that number; anything else is kept raw |
| Configuration.ActorIdOfNumber | src/config.py:158-167 | a positive number written in decimal is read back as the same number |
| Configuration.Flag | src/config.py:194-216 | a boolean input is true exactly when its lowered value is `true`, `1` or `yes`; an absent one is false |
| Configuration.FlagIgnoresCase | src/config.py:194-196 | `TRUE` and `Yes` are accepted as true |
| Configuration.SummaryFlag | src/config.py:199-201 | `GITHUB_SUMMARY` decides when non-empty, otherwise `GENERATE_SUMMARY`, otherwise false |
| Configuration.LoadDetectionMode | src/config.py:219-222 | `git` and `github_api` (in any case) choose those modes; everything else, absence included, means `auto` |
| Configuration.LoadGitFetchDepth | src/config.py:225-232 | the depth is always in 1..10000: the parsed value when it is in range, else 15 |
| Configuration.FormatList | src/config.py:235-240 | one entry per non-blank piece, none empty, and every non-blank piece appears stripped and lowered |
| Configuration.FormatListMembers | src/config.py:236-240 | a name is listed exactly when some non-blank piece strips and lowers to it |
| Configuration.FormatListConcat | src/config.py:236-240 | the entries keep the order of their pieces: the list of joined piece lists is the joined lists |
| Configuration.LoadArtifactFormats | src/config.py:235-240 | every format is non-empty and holds no comma |
| Configuration.ArtifactFormatsRoundTrip | src/config.py:235-240 | lower-case names written comma-separated are read back as the same list |
| Configuration.LoadConfig | src/config.py:36-41 | the required variables' error is passed through; loading succeeds exactly when they load and `GITHUB_REF_TYPE` is empty, `branch` or `tag`; a loaded record holds validated values, a depth in range and the token input taking precedence over `GITHUB_TOKEN` |
| Validators.Unterminated | src/validators.py:26 | the string with one final newline removed, or unchanged when it has none: the part a pattern ending in `$` must match |
| Validators.ValidateSha | src/validators.py:53-76 | the empty string is refused as empty; a value is accepted, unchanged, exactly when it is 7 to 64 hex digits of either case (one final newline tolerated) |
| Validators.ShaLengths | src/validators.py:26 | full 40- and 64-digit object names are accepted; fewer than 7 digits are refused |
| Validators.RepositoryMatch | src/validators.py:29 | the `owner/name` pattern with its `$` is matched exactly by the shape stated through the first slash |
| Validators.ValidateRepositoryName | src/validators.py:79-108 | accepted, unchanged, exactly when of `owner/name` shape with an owner of at most 39 and a name of at most 100 characters; the owner error only for a long owner |
| Validators.RepositoryNameAccepted | src/validators.py:79-108 | every well-formed `owner/name` within the limits is accepted |
| Validators.ValidateRefName | src/validators.py:111-145 | accepted, unchanged, exactly when non-empty, of ref characters, not starting with a dash, without `//` and at most 256 long; each error implies its cause |
| Validators.ValidateActorName | src/validators.py:148-171 | accepted, unchanged, exactly when 1 to 39 characters starting alphanumeric, then alphanumerics, `[`, `]` and `-` |
| Validators.ValidateEventName | src/validators.py:174-212 | accepted, unchanged, exactly when a non-empty run of lower-case letters and underscores |
| Validators.FirstContained | src/validators.py:233-235 | the index of the first listed pattern occurring in the string, or none exactly when none occurs |
| Validators.SanitizePathComponent | src/validators.py:215-247 | accepted, unchanged, exactly when non-empty, free of `..`, `~`, `$`, backquote, NUL, CR and LF, not absolute and without a drive letter; a reported pattern is one of the list |
| Validators.SanitizedComponentStaysInside | src/validators.py:215-247 | an accepted component is relative and none of its `/`-separated segments is `..` |
| Validators.RemoveControls | src/validators.py:301-302 | keeps exactly the characters that are not stripped controls, and a clean string unchanged |
| Validators.SanitizeOutputString | src/validators.py:285-308 | no stripped control remains; within the limit the cleaned string is returned, beyond it its first `maxLength` characters plus the marker |
| Validators.SanitizeIdempotent | src/validators.py:285-308 | sanitising an already sanitised value changes nothing |
| Validators.SanitizeClean | src/validators.py:285-308 | a clean value within the limit is output unchanged |
| Validators.ValidateInteger | src/validators.py:311-344 | accepted exactly when the text parses and lies within the given bounds, returning the parsed number; unparsable text is `NotAnInteger` |
| Validators.ValidateIntegerOfString | src/validators.py:311-344 | an integer written in decimal is accepted exactly when in bounds and comes back as itself |
| Models.MakeRepository | src/models.py:16-29 | a repository is built exactly when it is not both public and private, holding the given fields |
| Models.MakeCommit | src/models.py:52-73 | an empty short SHA becomes the SHA's first seven characters; construction succeeds exactly when the short SHA ends up seven characters long; the other fields are kept |
| Models.SyncCounts | src/models.py:108-115 | every count equals its list's length afterwards, whatever was supplied, and the lists are kept |
| Models.SyncCountsFixedPoints | src/models.py:108-115 | syncing leaves a record unchanged exactly when its counts already matched |
| Models.MakeChangedFiles | src/models.py:97-115 | the record holds the given lists with counts equal to their lengths |
| Models.GerritExport | src/models.py:222-232 | `source` is never exported; `comment` is exported, with its value, exactly when requested; nine or ten fields |
| Models.BoolText | src/models.py:161 | the text is `true` or `false`, `true` exactly for a set flag |
| Models.NumberText | src/models.py:187 | empty exactly for no number or 0, otherwise text that parses back to the number |
| Models.FilesOutputs | src/models.py:201-219 | a change-set group yields its eight outputs under the given names, in order |
| Models.RepositoryOutputs | src/models.py:158-162 | the repository group yields its five outputs, in order |
| Models.EventOutputs | src/models.py:165-172 | the event group yields its eight outputs, in order |
| Models.RefOutputs | src/models.py:175-178 | the ref group yields its four outputs, in order |
| Models.CommitOutputs | src/models.py:181-184 | the commit group yields its four outputs, in order |
| Models.PullRequestOutputs | src/models.py:187-191 | the pull-request group yields its five outputs, in order |
| Models.ActorOutputs | src/models.py:194-195 | the actor group yields its two outputs, in order |
| Models.CacheOutputs | src/models.py:198-199 | the cache group yields its two outputs, in order |
| Models.RawOutputs | src/models.py:146-235 | 47 outputs whose names are, in order, the names the source inserts |
| Models.GroupsInOutputs | src/models.py:146-235 | every output of every group, and the Gerrit JSON, is among the outputs |
| Models.SanitizeAll | src/models.py:237-242 | keys kept in order; every value free of stripped controls and within the limit plus the marker; each value is replaced by its sanitised form |
| Models.ToActionOutputs | src/models.py:146-244 | 47 outputs named, in order, as the source inserts them, none carrying a stripped control character or longer than the limit plus the marker |
| Models.BoolTextClean | src/models.py:237-242 | a boolean text passes sanitising unchanged |
| Models.BooleanOutputs | src/models.py:161-191 | the visibility, event, ref and fork flags appear as `true` exactly when set |
| Models.BoolMember | src/models.py:161-191 | any `true`/`false` output of the boolean groups survives sanitising as it is |
| Models.NumberTextClean | src/models.py:187-195 | a number text within the limit passes sanitising unchanged |
| Models.IntToStringClean | src/models.py:203 | the decimal rendering of an integer holds no control character |
| Models.PrNumberOutput | src/models.py:187 | `pr_number` is empty exactly for no number or 0, and otherwise parses back to the number |
| Models.ChangedFilesCountOutput | src/models.py:203 | `changed_files_count` parses back to the number of files |
| Models.ChangedFilesListOutput | src/models.py:201 | `changed_files` splits back at line breaks into the file list when names are clean and the text fits |
| Models.JoinClean | src/models.py:201 | joining clean names with newlines adds no stripped control character |
| Models.GerritJsonExport | src/models.py:222-232 | `gerrit_json` is the sanitised rendering of the exported fields |
| Markdown.ReplaceChar | src/formatters/markdown_formatter.py:357 | a replacement that does not hold the replaced character leaves no occurrence of it |
| Markdown.EscapeIsPerChar | src/formatters/markdown_formatter.py:357 | the two chained replacements escape each backtick and pipe on its own |
| Markdown.EscapeEachGuarded | src/formatters/markdown_formatter.py:357 | after escaping, every backtick and pipe has a backslash before it |
| Markdown.EscapeEachRoundTrip | src/formatters/markdown_formatter.py:357 | removing the added backslashes gives the text back |
| Markdown.EscapeMarkdown | src/formatters/markdown_formatter.py:346-357 | no bare backtick or pipe remains, the escaping can be undone, and text without them is unchanged |
| Markdown.EscapePlain | src/formatters/markdown_formatter.py:357 | text without backticks or pipes is left as it is |
| Markdown.Populated | src/formatters/markdown_formatter.py:327 | exactly the entries with a non-empty value are kept, none added |
| Markdown.PopulatedConcat | src/formatters/markdown_formatter.py:327 | the kept entries stay in input order: filtering a concatenation concatenates the filtered parts |
| Markdown.PopulatedOne | src/formatters/markdown_formatter.py:327 | a single entry is kept exactly when its value is non-empty |
| Markdown.Row | src/formatters/markdown_formatter.py:341 | a row is a non-empty line starting with a pipe |
| Markdown.RowCellRoundTrip | src/formatters/markdown_formatter.py:340-341 | the code-span cell of a row holds no bare backtick or pipe and unescapes to the value |
| Markdown.TableBody | src/formatters/markdown_formatter.py:335-343 | the header and rule, one row per entry in order, then a blank line |
| Markdown.FormatTable | src/formatters/markdown_formatter.py:313-344 | nothing exactly when every value is empty; otherwise the title, a blank line and the table of the populated entries |
| Markdown.RowLines | src/formatters/markdown_formatter.py:338-341 | one row per entry, in order |
| Markdown.TableShowsPopulated | src/formatters/markdown_formatter.py:313-344 | every entry with a non-empty value has its row among the table's rows |
| Markdown.FileItem | src/formatters/markdown_formatter.py:218 | a listed file is a line starting with a dash and a backtick |
| Markdown.FileItems | src/formatters/markdown_formatter.py:217-218 | one item per file, in order |
| Markdown.FileList | src/formatters/markdown_formatter.py:214-221 | nothing exactly for an empty list; otherwise a heading, the first fifty files in order, a line counting the rest when there are more, and a blank line |
| Markdown.ItemCountAppend | src/formatters/markdown_formatter.py:214-239 | items of concatenated lines add up |
| Markdown.ItemCountOfItems | src/formatters/markdown_formatter.py:217-218 | a list of file items has one item per file |
| Markdown.FileListItems | src/formatters/markdown_formatter.py:212-221 | a category lists at most fifty files, the rest only counted |
| Markdown.CountTable | src/formatters/markdown_formatter.py:200-209 | the counts table appears exactly when some count is positive, with one row per positive count |
| Markdown.CountTableRows | src/formatters/markdown_formatter.py:202-207 | the Added, Modified and Removed rows, each carrying its count, appear exactly when that count is positive |
| Markdown.FilesSection | src/formatters/markdown_formatter.py:186-241 | a zero count gives the heading and the warning alone; otherwise the total, the counts table and the three lists |
| Markdown.FilesSectionOf | src/formatters/markdown_formatter.py:189-193 | no metadata and a zero count both give the warning alone |
| Markdown.FormatFilesSection | src/formatters/markdown_formatter.py:173-241 | the section's lines joined by newlines, with the warning when nothing changed |
| Markdown.FormatLastCommitFilesSection | src/formatters/markdown_formatter.py:243-311 | the same layout under the last-commit heading and warning |
| Markdown.SectionItems | src/formatters/markdown_formatter.py:212-239 | a section lists no file when nothing changed, and otherwise at most fifty per category |
| Markdown.NoItemsInFour | src/formatters/markdown_formatter.py:186-193 | heading and warning lines are not items |
| Markdown.ListsItems | src/formatters/markdown_formatter.py:214-239 | the three lists together hold as many items as their shown files |
| Markdown.NotItem | src/formatters/markdown_formatter.py:218 | a line not starting with a dash is not an item |
| Markdown.CountTableHasNoItems | src/formatters/markdown_formatter.py:200-209 | the counts table holds no item |
| Markdown.NoItemsWhenNoneStart | src/formatters/markdown_formatter.py:218 | lines none of which start an item hold no item |
| Markdown.ShownComment | src/formatters/markdown_formatter.py:139-141 | a comment of at most 200 characters is shown whole; a longer one as its first 200 and a three-character marker |
| Markdown.GerritFields | src/formatters/markdown_formatter.py:124-142 | the nine change fields, then the shown comment exactly when requested and non-empty |
| Markdown.GerritLayout | src/formatters/markdown_formatter.py:118-171 | the heading; the warning alone when nothing is populated and the source is `none` |
| Markdown.SourceLines | src/formatters/markdown_formatter.py:154-156 | the source line is shown exactly when the source is neither empty nor `none` |
| Markdown.GerritLines | src/formatters/markdown_formatter.py:107-171 | the heading, then the warning alone when nothing is populated and no source was found |
| Markdown.TableBodyLines | src/formatters/markdown_formatter.py:335-343 | every table line is blank or starts with a pipe |
| Markdown.LayoutWarningIff | src/formatters/markdown_formatter.py:147-169 | the warning appears exactly when there are no rows and the source is `none` |
| Markdown.NotAmongPipeLines | src/formatters/markdown_formatter.py:149 | a non-empty line not starting with a pipe is none of the table lines |
| Markdown.PopulatedFieldShown | src/formatters/markdown_formatter.py:144-167 | every populated field has its row in the section |
| Markdown.WarningIffNothingFound | src/formatters/markdown_formatter.py:147-151 | the warning appears exactly when no field is populated and the source is `none` |
| Markdown.FormatGerritSection | src/formatters/markdown_formatter.py:107-171 | the section's lines joined by newlines, the warning text when nothing was found |
| Markdown.CommentOnlyWhenRequested | src/formatters/markdown_formatter.py:137-142 | a comment row appears only when requested, at most 203 characters and beginning like the comment |
| Text.Lower | src/config.py:194 | each character is lowered on its own and the length is kept |
| Text.LowerIdempotent | src/config.py:219 | lowering a lowered string changes nothing |
| Text.Strip | src/config.py:237-239 | the result is a slice of the input with only whitespace cut from both ends and no whitespace at its own ends |
| Text.StripNoEdgeSpace | src/config.py:237 | a string with no whitespace at either end strips to itself |
| Text.Split | src/validators.py:102 | no piece holds the separator and joining the pieces back gives the input |
| Text.SplitJoin | src/config.py:238 | splitting a join on a separator that no piece holds gives the pieces back |
| Text.SplitOnce | src/extractors/cache.py:28 | with the separator, the input is the text before its first occurrence, the separator and the rest; without it, the whole input and nothing |
| Text.IntToStringRoundTrip | src/models.py:203 | parsing an integer's decimal rendering gives the integer back |
| Text.NatToStringValue | src/models.py:203 | a natural number's rendering is a digit string denoting that number |
| Text.ParseSignedDigits | src/validators.py:330 | an optional minus sign and ASCII digits parse to the signed value of the digits |
| Text.ParseInt | src/validators.py:330 | a parsed number means the stripped text was not empty; an ASCII information separator anywhere makes the parse fail |
| Text.ParseIntSkipsAsciiSpace | src/validators.py:330 | ASCII blanks around the digits are skipped |
| Text.ParseIntSkipsUnicodeSpace | src/validators.py:330 | non-ASCII whitespace around the digits is skipped |
| Text.ParseIntRejectsSeparator | src/validators.py:330 | an information separator before the digits is not whitespace to `int()` |
| Ordering.LessTotal | src/git_operations.py:207 | two different strings are ordered one way or the other |
| Ordering.LessTransitive | src/git_operations.py:207 | string order is transitive |
| Ordering.SortedUnique | src/git_operations.py:207 | the result is strictly ascending and holds exactly the elements of the input |
| Ordering.StrictlySortedUniqueness | src/git_operations.py:207 | two strictly ascending lists with the same elements are equal, so the sorted set depends only on the elements |
| Ordering.StrictlySortedCard | src/extractors/changed_files_last_commit.py:73 | a strictly ascending list is as long as its set of elements |
| Ordering.SortedUniqueOfSorted | src/git_operations.py:207 | sorting a strictly ascending list without duplicates changes nothing |
| Ordering.Sort | src/git_operations.py:332 | the result is ascending and a permutation of the input |

## Left out

- `src/main.py` is left out. It is orchestration, appending to the output and summary files, console printing and a random heredoc delimiter. The extractors it calls are modelled directly.
- `MarkdownFormatter.format` is left out, along with the JSON and YAML formatters, `to_json`/`to_dict` and the artifact generator. The exact JSON text of `gerrit_json` is pydantic's serialisation, so it is a function parameter (`renderJson`). The sections the summary is assembled from are modelled.
- The repository, event, ref, commit, pull-request, actor and cache tables of the summary are not modelled one by one. Each one is `Markdown.FormatTable` applied to fixed key/value lists.
- Event-payload parsing with `ijson`/`json` is left out. The payload is given as the fields already extracted (`EventPayload.Payload`), and only string `before`/`after` values count.
- `Gerrit.FromDispatch` takes a decoded `gerrit_json` as either an object of string fields or not-JSON. A `gerrit_json` that is not a string, or decodes to something other than an object, is not modelled. Nor are non-string values inside it.
- GitPython internals are tables that may raise: commit resolution, tree traversal, `merge_base` and remote fetch.
- `Oracles.ResolveRev`: a revision missing from the table raises `ValueError` by default, which is the GitPython answer for an unknown full SHA. For a ref name it cannot resolve, such as `origin/<base>` of a base branch never fetched, GitPython raises gitdb's `BadName`. That exception escapes `diff_branches_categorized` and is swallowed by the git path of `_extract_pr_git` without running the fallback. A table models that case by listing the name with `Raised(OtherError)`; the default does not.
- `src/github_api.py` is reduced to the four answers the extractors use (`Oracles.GitHubApi`).
- Filesystem probes become boolean fields of the accessor: the existence of `.git` and `.git/shallow`. The `GITHUB_OUTPUT` parent-directory check, `RUNNER_TEMP` resolution and `validate_path_within_directory` are left out.
- Logging, the `get_config` singleton and the exception classes are left out. Exceptions are `Outcome`/`Result` values that carry the exception kind `except` clauses tell apart, not the message text.
- The merge-base memo is a value the accessor functions take and return, not an object with an `Invalidate` method. A successful `fetch_branch` or `deepen` returns an accessor whose memo is empty (`GitOps.Landed`).
- `Text.Lower`: only ASCII letters are lowered. Every keyword the source compares lowered input against is ASCII, so membership tests are exact, but the stored `ARTIFACT_FORMATS` strings differ from Python's for non-ASCII input.
- `Text.ParseInt`: it accepts surrounding whitespace, a sign and ASCII digits with single underscores between them. Python's `int()` also accepts non-ASCII decimal digits; those are not modelled.
- `EventPayload.PrNumberFromRef`: the digit run is ASCII only. Python's `\d` also matches other Unicode decimal digits, which `int()` then reads, so a ref such as `refs/pull/١٢/merge` has a number in the source and none here; `EventPayload.PrNumber`, `PullRequest.ExtractPullRequest` and the other ref parsers share this gap. The Unicode digit table is not modelled.
- `Markdown.FormatTable` takes an ordered list of key/value pairs. The source's dictionaries have distinct keys, so the Gerrit section's `dict` rebuild at `src/formatters/markdown_formatter.py:161` changes nothing.
- The empty-table branch at `src/formatters/markdown_formatter.py:168-169` cannot be taken, because `_format_table` of populated fields is never empty, so the model has no counterpart for it.
- `GitOps.IsShallowClone`: the source's catch-all `except Exception` around the file probes cannot fire in the model, because the probes are plain booleans.
- `Models.RawOutputs`: the JSON of the Gerrit record is a function parameter, so the contract says where it appears, not what text it is.
