/** The value objects the extractors produce, the checks their constructors make, and
    their flattening into the string outputs of the action. */
module Models {
  import opened Wrappers
  import opened Text
  import opened Validators

  /** A constructor check that failed (pydantic raises `ValueError`). */
  datatype ModelError = BothPublicAndPrivate | WrongShortShaLength(length: nat)

  datatype RepositoryMetadata = RepositoryMetadata(
    owner: string, name: string, fullName: string, isPublic: bool, isPrivate: bool)

  /** `RepositoryMetadata(...)`: a repository cannot be both public and private. */
  function MakeRepository(owner: string, name: string, fullName: string, isPublic: bool, isPrivate: bool)
    : (r: Result<RepositoryMetadata, ModelError>)
    ensures r.Ok? <==> !(isPublic && isPrivate)
    ensures r.Ok? ==> r.value == RepositoryMetadata(owner, name, fullName, isPublic, isPrivate)
  {
    if isPublic && isPrivate then Err(BothPublicAndPrivate)
    else Ok(RepositoryMetadata(owner, name, fullName, isPublic, isPrivate))
  }

  datatype EventMetadata = EventMetadata(
    name: string,
    isTagPush: bool,
    isBranchPush: bool,
    isPullRequest: bool,
    isRelease: bool,
    isSchedule: bool,
    isWorkflowDispatch: bool,
    tagPushEvent: bool)

  datatype RefMetadata = RefMetadata(
    branchName: Option<string>, tagName: Option<string>, isDefaultBranch: bool, isMainBranch: bool)

  datatype CommitMetadata = CommitMetadata(
    sha: string, shaShort: string, message: Option<string>, author: Option<string>)

  const ShortShaLength: nat := 7

  /** `CommitMetadata(...)`: an empty short SHA is replaced by the first seven
      characters of the SHA; the short SHA must then have exactly seven characters. */
  function MakeCommit(sha: string, shaShort: string, message: Option<string>, author: Option<string>)
    : (r: Result<CommitMetadata, ModelError>)
    ensures shaShort != "" ==> (r.Ok? <==> |shaShort| == ShortShaLength)
    ensures shaShort == "" ==> (r.Ok? <==> |sha| >= ShortShaLength)
    ensures r.Ok? ==> |r.value.shaShort| == ShortShaLength
    ensures r.Ok? && shaShort == "" ==> r.value.shaShort == sha[..ShortShaLength]
    ensures r.Ok? ==> r.value.sha == sha && r.value.message == message && r.value.author == author
    ensures r.Ok? && shaShort != "" ==> r.value.shaShort == shaShort
  {
    var short := if shaShort == "" then Take(sha, ShortShaLength) else shaShort;
    if |short| != ShortShaLength then Err(WrongShortShaLength(|short|))
    else Ok(CommitMetadata(sha, short, message, author))
  }

  datatype PullRequestMetadata = PullRequestMetadata(
    number: Option<int>,
    sourceBranch: Option<string>,
    targetBranch: Option<string>,
    commitsCount: Option<int>,
    isFork: bool)

  /** `PullRequestMetadata()`: every field `None`, not a fork. */
  const EmptyPullRequest := PullRequestMetadata(None, None, None, None, false)

  datatype ActorMetadata = ActorMetadata(name: string, id: Option<int>)

  datatype CacheMetadata = CacheMetadata(key: string, restoreKey: string)

  datatype ChangedFilesMetadata = ChangedFilesMetadata(
    count: int,
    files: seq<string>,
    added: seq<string>,
    addedCount: int,
    modified: seq<string>,
    modifiedCount: int,
    removed: seq<string>,
    removedCount: int)

  /** Every count equals the length of its list. */
  predicate CountsSynced(m: ChangedFilesMetadata) {
    && m.count == |m.files|
    && m.addedCount == |m.added|
    && m.modifiedCount == |m.modified|
    && m.removedCount == |m.removed|
  }

  /** `sync_counts`: whatever counts were supplied, each is replaced by the length of
      its list; the lists are kept. */
  function SyncCounts(m: ChangedFilesMetadata): (r: ChangedFilesMetadata)
    ensures CountsSynced(r)
    ensures r.files == m.files && r.added == m.added && r.modified == m.modified && r.removed == m.removed
  {
    m.(count := |m.files|, addedCount := |m.added|, modifiedCount := |m.modified|, removedCount := |m.removed|)
  }

  /** Syncing changes nothing exactly when the counts were already right. */
  lemma SyncCountsFixedPoints(m: ChangedFilesMetadata)
    ensures SyncCounts(m) == m <==> CountsSynced(m)
  {
  }

  /** `ChangedFilesMetadata(files=..., added=..., ...)` with counts synced. */
  function MakeChangedFiles(files: seq<string>, added: seq<string>, modified: seq<string>, removed: seq<string>)
    : (r: ChangedFilesMetadata)
    ensures CountsSynced(r)
    ensures r.files == files && r.added == added && r.modified == modified && r.removed == removed
  {
    SyncCounts(ChangedFilesMetadata(0, files, added, 0, modified, 0, removed, 0))
  }

  const NoChangedFiles := MakeChangedFiles([], [], [], [])

  datatype GerritMetadata = GerritMetadata(
    branch: string,
    changeId: string,
    changeNumber: string,
    changeUrl: string,
    eventType: string,
    patchsetNumber: string,
    patchsetRevision: string,
    project: string,
    refspec: string,
    comment: string,
    source: string)

  /** The fields `gerrit_json` exports, in declaration order: `source` never, `comment`
      only when requested. */
  function GerritExport(g: GerritMetadata, includeComment: bool): (r: seq<(string, string)>)
    ensures forall i :: 0 <= i < |r| ==> r[i].0 != "source"
    ensures (exists i :: 0 <= i < |r| && r[i].0 == "comment") <==> includeComment
    ensures includeComment ==> (exists i :: 0 <= i < |r| && r[i] == ("comment", g.comment))
    ensures |r| == if includeComment then 10 else 9
  {
    var base := [("branch", g.branch), ("change_id", g.changeId), ("change_number", g.changeNumber),
                 ("change_url", g.changeUrl), ("event_type", g.eventType),
                 ("patchset_number", g.patchsetNumber), ("patchset_revision", g.patchsetRevision),
                 ("project", g.project), ("refspec", g.refspec)];
    var r := if includeComment then base + [("comment", g.comment)] else base;
    assert includeComment ==> r[9] == ("comment", g.comment);
    r
  }

  datatype CompleteMetadata = CompleteMetadata(
    repository: RepositoryMetadata,
    event: EventMetadata,
    ref: RefMetadata,
    commit: CommitMetadata,
    pullRequest: PullRequestMetadata,
    actor: ActorMetadata,
    cache: CacheMetadata,
    changedFiles: ChangedFilesMetadata,
    changedFilesLastCommit: ChangedFilesMetadata,
    gerrit: GerritMetadata)

  /** `str(b).lower()`. */
  function BoolText(b: bool): (r: string)
    ensures r == "true" || r == "false"
    ensures r == "true" <==> b
  {
    if b then "true" else "false"
  }

  /** `str(n or "")`: the empty string for `None` and for 0. */
  function NumberText(n: Option<int>): (r: string)
    ensures r == "" <==> n.None? || n.value == 0
    ensures r != "" ==> ParseInt(r) == n
  {
    if n.None? || n.value == 0 then ""
    else
      IntToStringRoundTrip(n.value);
      IntToString(n.value)
  }

  /** An output: its key and its text. */
  type Output = (string, string)

  /** The names of a list of outputs, in order. */
  function KeysOf(outs: seq<Output>): (ks: seq<string>)
    ensures |ks| == |outs|
    ensures forall i :: 0 <= i < |outs| ==> ks[i] == outs[i].0
  {
    seq(|outs|, i requires 0 <= i < |outs| => outs[i].0)
  }

  lemma KeysOfConcat(xs: seq<Output>, ys: seq<Output>)
    ensures KeysOf(xs + ys) == KeysOf(xs) + KeysOf(ys)
  {
  }

  /** The outputs of one change-set group: the newline-joined lists and their counts. */
  function FilesOutputs(keys: seq<string>, m: ChangedFilesMetadata): (r: seq<Output>)
    requires |keys| == 8
    ensures KeysOf(r) == keys
  {
    [(keys[0], Join("\n", m.files)), (keys[1], IntToString(m.count)),
     (keys[2], Join("\n", m.added)), (keys[3], IntToString(m.addedCount)),
     (keys[4], Join("\n", m.modified)), (keys[5], IntToString(m.modifiedCount)),
     (keys[6], Join("\n", m.removed)), (keys[7], IntToString(m.removedCount))]
  }

  const ChangedFilesKeys: seq<string> := [
    "changed_files", "changed_files_count", "changed_files_added", "changed_files_added_count",
    "changed_files_modified", "changed_files_modified_count", "changed_files_removed",
    "changed_files_removed_count"]

  const LastCommitKeys: seq<string> := [
    "changed_files_last_commit", "changed_files_last_commit_count",
    "changed_files_last_commit_added", "changed_files_last_commit_added_count",
    "changed_files_last_commit_modified", "changed_files_last_commit_modified_count",
    "changed_files_last_commit_removed", "changed_files_last_commit_removed_count"]

  function RepositoryOutputs(r: RepositoryMetadata): (outs: seq<Output>)
    ensures KeysOf(outs) == RepositoryKeys
  {
    [("repository_owner", r.owner), ("repository_name", r.name), ("repository_full_name", r.fullName),
     ("is_public", BoolText(r.isPublic)), ("is_private", BoolText(r.isPrivate))]
  }

  function EventOutputs(e: EventMetadata): (outs: seq<Output>)
    ensures KeysOf(outs) == EventKeys
  {
    [("event_name", e.name),
     ("is_tag_push", BoolText(e.isTagPush)),
     ("is_branch_push", BoolText(e.isBranchPush)),
     ("is_pull_request", BoolText(e.isPullRequest)),
     ("is_release", BoolText(e.isRelease)),
     ("is_schedule", BoolText(e.isSchedule)),
     ("is_workflow_dispatch", BoolText(e.isWorkflowDispatch)),
     ("tag_push_event", BoolText(e.tagPushEvent))]
  }

  function RefOutputs(r: RefMetadata): (outs: seq<Output>)
    ensures KeysOf(outs) == RefKeys
  {
    [("branch_name", OrEmpty(r.branchName)), ("tag_name", OrEmpty(r.tagName)),
     ("is_default_branch", BoolText(r.isDefaultBranch)), ("is_main_branch", BoolText(r.isMainBranch))]
  }

  function CommitOutputs(c: CommitMetadata): (outs: seq<Output>)
    ensures KeysOf(outs) == CommitKeys
  {
    [("commit_sha", c.sha), ("commit_sha_short", c.shaShort),
     ("commit_message", OrEmpty(c.message)), ("commit_author", OrEmpty(c.author))]
  }

  function PullRequestOutputs(p: PullRequestMetadata): (outs: seq<Output>)
    ensures KeysOf(outs) == PullRequestKeys
  {
    [("pr_number", NumberText(p.number)),
     ("pr_source_branch", OrEmpty(p.sourceBranch)),
     ("pr_target_branch", OrEmpty(p.targetBranch)),
     ("pr_commits_count", NumberText(p.commitsCount)),
     ("is_fork", BoolText(p.isFork))]
  }

  function ActorOutputs(a: ActorMetadata): (outs: seq<Output>)
    ensures KeysOf(outs) == ActorKeys
  {
    [("actor", a.name), ("actor_id", NumberText(a.id))]
  }

  function CacheOutputs(c: CacheMetadata): (outs: seq<Output>)
    ensures KeysOf(outs) == CacheKeys
  {
    [("cache_key", c.key), ("cache_restore_key", c.restoreKey)]
  }

  /** The action's output names, in the order `to_action_outputs` inserts them, group by
      group. */
  const RepositoryKeys: seq<string> :=
    ["repository_owner", "repository_name", "repository_full_name", "is_public", "is_private"]
  const EventKeys: seq<string> :=
    ["event_name", "is_tag_push", "is_branch_push", "is_pull_request", "is_release", "is_schedule",
     "is_workflow_dispatch", "tag_push_event"]
  const RefKeys: seq<string> := ["branch_name", "tag_name", "is_default_branch", "is_main_branch"]
  const CommitKeys: seq<string> := ["commit_sha", "commit_sha_short", "commit_message", "commit_author"]
  const PullRequestKeys: seq<string> :=
    ["pr_number", "pr_source_branch", "pr_target_branch", "pr_commits_count", "is_fork"]
  const ActorKeys: seq<string> := ["actor", "actor_id"]
  const CacheKeys: seq<string> := ["cache_key", "cache_restore_key"]
  const OutputKeys: seq<string> :=
    RepositoryKeys + EventKeys + RefKeys + CommitKeys + PullRequestKeys + ActorKeys + CacheKeys
    + ChangedFilesKeys + LastCommitKeys + ["gerrit_json"]

  /** The output values before sanitising, in the order the source inserts them.
      `renderJson` stands for pydantic's JSON serialisation of the exported Gerrit
      fields. */
  function RawOutputs(m: CompleteMetadata, includeComment: bool, renderJson: seq<(string, string)> -> string)
    : (r: seq<Output>)
    ensures |r| == 47
    ensures KeysOf(r) == OutputKeys
  {
    var g1 := RepositoryOutputs(m.repository);
    var g2 := g1 + EventOutputs(m.event);
    var g3 := g2 + RefOutputs(m.ref);
    var g4 := g3 + CommitOutputs(m.commit);
    var g5 := g4 + PullRequestOutputs(m.pullRequest);
    var g6 := g5 + ActorOutputs(m.actor);
    var g7 := g6 + CacheOutputs(m.cache);
    var g8 := g7 + FilesOutputs(ChangedFilesKeys, m.changedFiles);
    var g9 := g8 + FilesOutputs(LastCommitKeys, m.changedFilesLastCommit);
    var gerrit := [("gerrit_json", renderJson(GerritExport(m.gerrit, includeComment)))];
    KeysOfConcat(g1, EventOutputs(m.event));
    KeysOfConcat(g2, RefOutputs(m.ref));
    KeysOfConcat(g3, CommitOutputs(m.commit));
    KeysOfConcat(g4, PullRequestOutputs(m.pullRequest));
    KeysOfConcat(g5, ActorOutputs(m.actor));
    KeysOfConcat(g6, CacheOutputs(m.cache));
    KeysOfConcat(g7, FilesOutputs(ChangedFilesKeys, m.changedFiles));
    KeysOfConcat(g8, FilesOutputs(LastCommitKeys, m.changedFilesLastCommit));
    KeysOfConcat(g9, gerrit);
    g9 + gerrit
  }

  /** Each group's outputs are among the outputs. */
  lemma GroupsInOutputs(m: CompleteMetadata, includeComment: bool, renderJson: seq<(string, string)> -> string, x: Output)
    requires x in RepositoryOutputs(m.repository) || x in EventOutputs(m.event) || x in RefOutputs(m.ref)
             || x in CommitOutputs(m.commit) || x in PullRequestOutputs(m.pullRequest)
             || x in ActorOutputs(m.actor) || x in CacheOutputs(m.cache)
             || x in FilesOutputs(ChangedFilesKeys, m.changedFiles)
             || x in FilesOutputs(LastCommitKeys, m.changedFilesLastCommit)
             || x == ("gerrit_json", renderJson(GerritExport(m.gerrit, includeComment)))
    ensures x in RawOutputs(m, includeComment, renderJson)
  {
  }

  /** Every value passed through `sanitize_output_string` with the default limit. */
  function SanitizeAll(outs: seq<Output>): (r: seq<Output>)
    ensures |r| == |outs|
    ensures forall i :: 0 <= i < |r| ==> r[i].0 == outs[i].0
    ensures forall i :: 0 <= i < |r| ==>
              |r[i].1| <= MaxOutputStringLength + |TruncationMarker|
              && (forall j :: 0 <= j < |r[i].1| ==> !IsStrippedControl(r[i].1[j]))
    ensures forall k, v :: (k, v) in outs ==> (k, SanitizeOutputString(v, MaxOutputStringLength)) in r
  {
    if |outs| == 0 then []
    else
      var rest := SanitizeAll(outs[1..]);
      var r := [(outs[0].0, SanitizeOutputString(outs[0].1, MaxOutputStringLength))] + rest;
      assert forall i :: 1 <= i < |r| ==> r[i] == rest[i - 1];
      assert forall x :: x in outs ==> x == outs[0] || x in outs[1..];
      r
  }

  /** `to_action_outputs`: the outputs in insertion order, each value sanitised, so no
      output carries a stripped control character or exceeds the limit by more than the
      truncation marker. */
  function ToActionOutputs(m: CompleteMetadata, includeComment: bool, renderJson: seq<(string, string)> -> string)
    : (r: seq<Output>)
    ensures |r| == 47
    ensures KeysOf(r) == OutputKeys
    ensures forall i :: 0 <= i < |r| ==>
              |r[i].1| <= MaxOutputStringLength + |TruncationMarker|
              && (forall j :: 0 <= j < |r[i].1| ==> !IsStrippedControl(r[i].1[j]))
  {
    SanitizeAll(RawOutputs(m, includeComment, renderJson))
  }

  lemma BoolTextClean(b: bool)
    ensures SanitizeOutputString(BoolText(b), MaxOutputStringLength) == BoolText(b)
  {
    SanitizeClean(BoolText(b), MaxOutputStringLength);
  }

  /** Boolean outputs read `"true"` exactly when the flag is set. */
  lemma BooleanOutputs(m: CompleteMetadata, includeComment: bool, renderJson: seq<(string, string)> -> string)
    ensures var out := ToActionOutputs(m, includeComment, renderJson);
            && ("is_public", BoolText(m.repository.isPublic)) in out
            && ("is_private", BoolText(m.repository.isPrivate)) in out
            && ("is_pull_request", BoolText(m.event.isPullRequest)) in out
            && ("tag_push_event", BoolText(m.event.tagPushEvent)) in out
            && ("is_default_branch", BoolText(m.ref.isDefaultBranch)) in out
            && ("is_main_branch", BoolText(m.ref.isMainBranch)) in out
            && ("is_fork", BoolText(m.pullRequest.isFork)) in out
  {
    BoolMember(m, includeComment, renderJson, ("is_public", BoolText(m.repository.isPublic)));
    BoolMember(m, includeComment, renderJson, ("is_private", BoolText(m.repository.isPrivate)));
    BoolMember(m, includeComment, renderJson, ("is_pull_request", BoolText(m.event.isPullRequest)));
    BoolMember(m, includeComment, renderJson, ("tag_push_event", BoolText(m.event.tagPushEvent)));
    BoolMember(m, includeComment, renderJson, ("is_default_branch", BoolText(m.ref.isDefaultBranch)));
    BoolMember(m, includeComment, renderJson, ("is_main_branch", BoolText(m.ref.isMainBranch)));
    BoolMember(m, includeComment, renderJson, ("is_fork", BoolText(m.pullRequest.isFork)));
  }

  lemma BoolMember(m: CompleteMetadata, includeComment: bool, renderJson: seq<(string, string)> -> string, x: Output)
    requires x.1 == "true" || x.1 == "false"
    requires x in RepositoryOutputs(m.repository) || x in EventOutputs(m.event) || x in RefOutputs(m.ref)
             || x in PullRequestOutputs(m.pullRequest)
    ensures x in ToActionOutputs(m, includeComment, renderJson)
  {
    GroupsInOutputs(m, includeComment, renderJson, x);
    if x.1 == "true" { BoolTextClean(true); } else { BoolTextClean(false); }
    ActionOutputsKeep(m, includeComment, renderJson, x);
  }

  /** A raw output whose value is already clean appears unchanged among the action outputs. */
  lemma ActionOutputsKeep(m: CompleteMetadata, includeComment: bool, renderJson: seq<(string, string)> -> string, x: Output)
    requires x in RawOutputs(m, includeComment, renderJson)
    requires SanitizeOutputString(x.1, MaxOutputStringLength) == x.1
    ensures x in ToActionOutputs(m, includeComment, renderJson)
  {
    SanitizeAllKeeps(RawOutputs(m, includeComment, renderJson), x);
  }

  /** An output whose value sanitising leaves alone survives `SanitizeAll` as it is. */
  lemma SanitizeAllKeeps(outs: seq<Output>, x: Output)
    requires x in outs && SanitizeOutputString(x.1, MaxOutputStringLength) == x.1
    ensures x in SanitizeAll(outs)
  {
    assert (x.0, x.1) in outs;
  }

  lemma NumberTextClean(n: Option<int>)
    requires n.Some? ==> |IntToString(n.value)| <= MaxOutputStringLength
    ensures SanitizeOutputString(NumberText(n), MaxOutputStringLength) == NumberText(n)
  {
    if n.Some? && n.value != 0 {
      IntToStringClean(n.value);
      SanitizeClean(IntToString(n.value), MaxOutputStringLength);
    }
  }

  lemma IntToStringClean(i: int)
    ensures forall k :: 0 <= k < |IntToString(i)| ==> !IsStrippedControl(IntToString(i)[k])
  {
    var d := NatToString(if i < 0 then -i else i);
    assert forall k :: 0 <= k < |d| ==> IsDigit(d[k]);
    assert IntToString(i) == (if i < 0 then "-" else "") + d;
  }

  /** The pull-request number output is empty exactly when there is no number or it is
      0, and otherwise parses back to the number. */
  lemma PrNumberOutput(m: CompleteMetadata, includeComment: bool, renderJson: seq<(string, string)> -> string)
    requires m.pullRequest.number.Some? ==> |IntToString(m.pullRequest.number.value)| <= MaxOutputStringLength
    ensures exists v :: ("pr_number", v) in ToActionOutputs(m, includeComment, renderJson)
              && (v == "" <==> m.pullRequest.number.None? || m.pullRequest.number.value == 0)
              && (v != "" ==> ParseInt(v) == m.pullRequest.number)
  {
    var v := NumberText(m.pullRequest.number);
    GroupsInOutputs(m, includeComment, renderJson, ("pr_number", v));
    NumberTextClean(m.pullRequest.number);
    assert ("pr_number", v) in ToActionOutputs(m, includeComment, renderJson);
  }

  /** A change-set count output parses back to the number of files. */
  lemma ChangedFilesCountOutput(m: CompleteMetadata, includeComment: bool, renderJson: seq<(string, string)> -> string)
    requires CountsSynced(m.changedFiles)
    requires |IntToString(|m.changedFiles.files|)| <= MaxOutputStringLength
    ensures exists v :: ("changed_files_count", v) in ToActionOutputs(m, includeComment, renderJson)
              && ParseInt(v) == Some(|m.changedFiles.files|)
  {
    var n := |m.changedFiles.files|;
    assert FilesOutputs(ChangedFilesKeys, m.changedFiles)[1] == ("changed_files_count", IntToString(n));
    GroupsInOutputs(m, includeComment, renderJson, ("changed_files_count", IntToString(n)));
    IntToStringClean(n);
    SanitizeClean(IntToString(n), MaxOutputStringLength);
    IntToStringRoundTrip(n);
    assert ("changed_files_count", IntToString(n)) in ToActionOutputs(m, includeComment, renderJson);
  }

  /** The changed-files output splits back into the list at its line breaks, when no
      name carries a line break or a stripped control character and the joined text
      fits the limit. */
  lemma ChangedFilesListOutput(m: CompleteMetadata, includeComment: bool, renderJson: seq<(string, string)> -> string)
    requires |m.changedFiles.files| > 0
    requires forall i, j :: 0 <= i < |m.changedFiles.files| && 0 <= j < |m.changedFiles.files[i]| ==>
               m.changedFiles.files[i][j] != '\n' && !IsStrippedControl(m.changedFiles.files[i][j])
    requires |Join("\n", m.changedFiles.files)| <= MaxOutputStringLength
    ensures exists v :: ("changed_files", v) in ToActionOutputs(m, includeComment, renderJson)
              && Split(v, '\n') == m.changedFiles.files
  {
    var files := m.changedFiles.files;
    var text := Join("\n", files);
    assert FilesOutputs(ChangedFilesKeys, m.changedFiles)[0] == ("changed_files", text);
    GroupsInOutputs(m, includeComment, renderJson, ("changed_files", text));
    JoinClean(files);
    SanitizeClean(text, MaxOutputStringLength);
    forall i | 0 <= i < |files| ensures '\n' !in files[i] {
      assert forall j :: 0 <= j < |files[i]| ==> files[i][j] != '\n';
    }
    SplitJoin(files, '\n');
    assert ("changed_files", text) in ToActionOutputs(m, includeComment, renderJson);
  }

  lemma {:induction false} JoinClean(xs: seq<string>)
    requires forall i, j :: 0 <= i < |xs| && 0 <= j < |xs[i]| ==> !IsStrippedControl(xs[i][j])
    ensures forall k :: 0 <= k < |Join("\n", xs)| ==> !IsStrippedControl(Join("\n", xs)[k])
  {
    if |xs| > 1 {
      JoinClean(xs[1..]);
      var rest := Join("\n", xs[1..]);
      assert Join("\n", xs) == xs[0] + "\n" + rest;
      forall k | 0 <= k < |Join("\n", xs)| ensures !IsStrippedControl(Join("\n", xs)[k]) {
        if k < |xs[0]| {
          assert Join("\n", xs)[k] == xs[0][k];
        } else if k > |xs[0]| {
          assert Join("\n", xs)[k] == rest[k - |xs[0]| - 1];
        }
      }
    } else if |xs| == 1 {
      assert Join("\n", xs) == xs[0];
    }
  }

  /** `gerrit_json` is the sanitised rendering of the exported fields, which never
      include the source and include the comment only on request. */
  lemma GerritJsonExport(m: CompleteMetadata, includeComment: bool, renderJson: seq<(string, string)> -> string)
    ensures ("gerrit_json", SanitizeOutputString(renderJson(GerritExport(m.gerrit, includeComment)), MaxOutputStringLength))
            in ToActionOutputs(m, includeComment, renderJson)
  {
    GroupsInOutputs(m, includeComment, renderJson, ("gerrit_json", renderJson(GerritExport(m.gerrit, includeComment))));
  }
}
