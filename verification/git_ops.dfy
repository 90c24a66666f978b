/** The git accessor: categorised and flat change lists, the merge-base memo, the
    shallow-clone probe, `fetch_branch`/`deepen`, and `git show` parsing. Every
    operation is a function of the accessor's state; the memo and the shallow flag
    are the only state the accessor itself changes. */
module GitOps {
  import opened Wrappers
  import opened Text
  import opened Ordering
  import opened Oracles

  /** The merge-base memo. The source keeps one dict for both kinds of entry: the
      categorised diff stores the first merge base (or `None`) under the string
      `base + "..." + head`, the flat diff stores the whole list under the pair
      `(base, head)`. Both halves are cleared together. */
  datatype Memo = Memo(threeDot: map<string, Option<CommitId>>, pairs: map<(string, string), seq<CommitId>>)

  const EmptyMemo := Memo(map[], map[])

  /** The accessor: whether `.git` exists, what opening the repository gives, whether
      `.git/shallow` exists, the remote, and the two caches. */
  datatype Accessor = Accessor(
    gitDir: bool,
    repoHandle: Option<Repo>,
    shallowMarker: bool,
    remote: Remote,
    shallowCache: Option<bool>,
    memo: Memo)

  /** The `repo` property: `None` without `.git` or when opening failed. */
  function RepoOf(a: Accessor): (r: Option<Repo>)
    ensures r.Some? ==> a.gitDir
  {
    if a.gitDir then a.repoHandle else None
  }

  /** `has_git_repo`. */
  function HasGitRepo(a: Accessor): bool { a.gitDir }

  datatype Categorized = Categorized(added: seq<string>, modified: seq<string>, removed: seq<string>)

  const NoChanges := Categorized([], [], [])

  /** The three lists concatenated, as the extractors build `files`. */
  function AllFiles(c: Categorized): (r: seq<string>)
    ensures |r| == |c.added| + |c.modified| + |c.removed|
    ensures forall p :: p in r <==> p in c.added || p in c.modified || p in c.removed
  {
    c.added + c.modified + c.removed
  }

  // ---- categorisation ----------------------------------------------------------------

  datatype Bucket = Added | Modified | Removed

  /** Where the categorisation loop puts one record: the first flag set decides, and a
      record without the path that flag calls for contributes nothing. */
  function Route(d: DiffRecord): Option<(Bucket, string)> {
    if d.newFile then
      (if Truthy(d.bPath) then Some((Added, d.bPath.value)) else None)
    else if d.deletedFile then
      (if Truthy(d.aPath) then Some((Removed, d.aPath.value)) else None)
    else if d.renamedFile then
      (if Truthy(d.bPath) then Some((Modified, d.bPath.value)) else None)
    else if Truthy(d.bPath) then Some((Modified, d.bPath.value))
    else if Truthy(d.aPath) then Some((Modified, d.aPath.value))
    else None
  }

  /** The three lists the loop appends to, in record order, before `sorted(set(...))`. */
  function Buckets(ds: seq<DiffRecord>): (r: Categorized)
    ensures forall p :: p in r.added <==> exists i :: 0 <= i < |ds| && Route(ds[i]) == Some((Added, p))
    ensures forall p :: p in r.modified <==> exists i :: 0 <= i < |ds| && Route(ds[i]) == Some((Modified, p))
    ensures forall p :: p in r.removed <==> exists i :: 0 <= i < |ds| && Route(ds[i]) == Some((Removed, p))
  {
    if |ds| == 0 then NoChanges
    else
      var n := |ds| - 1;
      var prev := Buckets(ds[..n]);
      assert forall i :: 0 <= i < n ==> ds[..n][i] == ds[i];
      match Route(ds[n])
      case None => prev
      case Some((Added, p)) => prev.(added := prev.added + [p])
      case Some((Modified, p)) => prev.(modified := prev.modified + [p])
      case Some((Removed, p)) => prev.(removed := prev.removed + [p])
  }

  /** The categorised result of a diff: each list is `sorted(set(...))` of its bucket. */
  function Categorize(ds: seq<DiffRecord>): (r: Categorized)
    ensures StrictlySorted(r.added) && StrictlySorted(r.modified) && StrictlySorted(r.removed)
    ensures forall p :: p in r.added <==> exists i :: 0 <= i < |ds| && Route(ds[i]) == Some((Added, p))
    ensures forall p :: p in r.modified <==> exists i :: 0 <= i < |ds| && Route(ds[i]) == Some((Modified, p))
    ensures forall p :: p in r.removed <==> exists i :: 0 <= i < |ds| && Route(ds[i]) == Some((Removed, p))
  {
    var b := Buckets(ds);
    Categorized(SortedUnique(b.added), SortedUnique(b.modified), SortedUnique(b.removed))
  }

  /** The categorisation rule in terms of the flags: a path is added iff some record
      is a new file with that `b_path`; removed iff some record that is not new is
      deleted with that `a_path`; modified iff some record that is neither new nor
      deleted is a rename to it, or a plain change whose `b_path` is it, or whose
      `b_path` is empty and `a_path` is it. */
  lemma CategorizeRule(ds: seq<DiffRecord>, p: string)
    ensures p in Categorize(ds).added <==>
              p != "" && exists i :: 0 <= i < |ds| && ds[i].newFile && ds[i].bPath == Some(p)
    ensures p in Categorize(ds).removed <==>
              p != "" && exists i :: 0 <= i < |ds| && !ds[i].newFile && ds[i].deletedFile && ds[i].aPath == Some(p)
    ensures p in Categorize(ds).modified <==>
              p != "" && exists i :: (0 <= i < |ds| && !ds[i].newFile && !ds[i].deletedFile
                && (ds[i].bPath == Some(p) || (!ds[i].renamedFile && !Truthy(ds[i].bPath) && ds[i].aPath == Some(p))))
  {
    forall i | 0 <= i < |ds| ensures RouteFlags(ds[i], p) {
      RouteRule(ds[i], p);
    }
  }

  /** `Route` in terms of the flags, for one record and one path. */
  predicate RouteFlags(d: DiffRecord, p: string) {
    && (Route(d) == Some((Added, p)) <==> p != "" && d.newFile && d.bPath == Some(p))
    && (Route(d) == Some((Removed, p)) <==> p != "" && !d.newFile && d.deletedFile && d.aPath == Some(p))
    && (Route(d) == Some((Modified, p)) <==>
          p != "" && !d.newFile && !d.deletedFile
          && (d.bPath == Some(p) || (!d.renamedFile && !Truthy(d.bPath) && d.aPath == Some(p))))
  }

  lemma RouteRule(d: DiffRecord, p: string)
    ensures RouteFlags(d, p)
  {
  }

  /** Each record lands in at most one list, so a path can be in two lists only if two
      records name it. */
  lemma RouteUnique(d: DiffRecord, b1: Bucket, b2: Bucket, p1: string, p2: string)
    requires Route(d) == Some((b1, p1)) && Route(d) == Some((b2, p2))
    ensures b1 == b2 && p1 == p2
  {
  }

  /** A diff made of new files only reports them all as added and nothing else. */
  lemma OnlyNewFiles(ds: seq<DiffRecord>)
    requires forall i :: 0 <= i < |ds| ==> ds[i].newFile
    ensures Categorize(ds).modified == [] && Categorize(ds).removed == []
  {
    HeadIn(Categorize(ds).modified);
    HeadIn(Categorize(ds).removed);
  }

  /** The categorised lists do not depend on the order of the records. */
  lemma CategorizeOrderFree(ds: seq<DiffRecord>, es: seq<DiffRecord>)
    requires multiset(ds) == multiset(es)
    ensures Categorize(ds) == Categorize(es)
  {
    var c, e := Categorize(ds), Categorize(es);
    forall i | 0 <= i < |ds| ensures ds[i] in multiset(es) { assert ds[i] in multiset(ds); }
    forall i | 0 <= i < |es| ensures es[i] in multiset(ds) { assert es[i] in multiset(es); }
    assert forall d :: d in ds <==> d in es by {
      forall d ensures d in ds <==> d in es {
        assert d in ds <==> d in multiset(ds);
        assert d in es <==> d in multiset(es);
      }
    }
    StrictlySortedUniqueness(c.added, e.added);
    StrictlySortedUniqueness(c.modified, e.modified);
    StrictlySortedUniqueness(c.removed, e.removed);
  }

  // ---- flat path lists -----------------------------------------------------------------

  /** The flat loop: `a_path` when set, then `b_path` when set and different. */
  function PathsOf(ds: seq<DiffRecord>): (r: seq<string>)
    ensures forall p :: p in r <==>
              p != "" && exists i :: 0 <= i < |ds| && (ds[i].aPath == Some(p) || ds[i].bPath == Some(p))
  {
    if |ds| == 0 then []
    else
      var n := |ds| - 1;
      var d := ds[n];
      var prev := PathsOf(ds[..n]);
      assert forall i :: 0 <= i < n ==> ds[..n][i] == ds[i];
      prev
        + (if Truthy(d.aPath) then [d.aPath.value] else [])
        + (if Truthy(d.bPath) && d.bPath != d.aPath then [d.bPath.value] else [])
  }

  /** `sorted(set(files))` of the flat loop. */
  function FlatPaths(ds: seq<DiffRecord>): (r: seq<string>)
    ensures StrictlySorted(r)
    ensures forall p :: p in r <==>
              p != "" && exists i :: 0 <= i < |ds| && (ds[i].aPath == Some(p) || ds[i].bPath == Some(p))
  {
    SortedUnique(PathsOf(ds))
  }

  /** A rename contributes both its old and its new name to a flat list. */
  lemma FlatRenameBothNames(ds: seq<DiffRecord>, i: nat, before: string, after: string)
    requires i < |ds| && ds[i].aPath == Some(before) && ds[i].bPath == Some(after) && before != "" && after != ""
    ensures before in FlatPaths(ds) && after in FlatPaths(ds)
  {
  }

  /** Everything the categorised lists report also appears in the flat list. */
  lemma CategorizedWithinFlat(ds: seq<DiffRecord>, p: string)
    requires p in AllFiles(Categorize(ds))
    ensures p in FlatPaths(ds)
  {
    CategorizeRule(ds, p);
  }

  // ---- the accessor's calls ------------------------------------------------------------

  /** Applies an `except` clause: a raised exception it names gives `fallback`, any
      other propagates. */
  function Catch<T>(o: Outcome<T>, caught: set<Exc>, fallback: T): (r: Outcome<T>)
    ensures o.Done? ==> r == o
    ensures o.Raised? && o.exc in caught ==> r == Done(fallback)
    ensures o.Raised? && o.exc !in caught ==> r == o
  {
    if o.Raised? && o.exc in caught then Done(fallback) else o
  }

  const CommitCaught: set<Exc> := {GitCommandError, ValueError, IndexError}
  const DiffCaught: set<Exc> := {GitCommandError, ValueError}
  /** Every GitPython error: what `except GitError` catches. */
  const GitErrors: set<Exc> := {GitCommandError, GitError}

  /** The categorised diff between two commits; an error of `diff` propagates. */
  function CategorizedDiff(repo: Repo, x: CommitId, y: CommitId): (r: Outcome<Categorized>)
    ensures DiffOf(repo, x, y).Done? ==> r == Done(Categorize(DiffOf(repo, x, y).value))
    ensures DiffOf(repo, x, y).Raised? ==> r == Raised(DiffOf(repo, x, y).exc)
  {
    match DiffOf(repo, x, y)
    case Raised(e) => Raised(e)
    case Done(ds) => Done(Categorize(ds))
  }

  /** The flat, sorted and de-duplicated diff between two commits; an error of `diff`
      propagates. */
  function FlatDiff(repo: Repo, x: CommitId, y: CommitId): (r: Outcome<seq<string>>)
    ensures DiffOf(repo, x, y).Done? ==> r == Done(FlatPaths(DiffOf(repo, x, y).value))
    ensures DiffOf(repo, x, y).Raised? ==> r == Raised(DiffOf(repo, x, y).exc)
  {
    match DiffOf(repo, x, y)
    case Raised(e) => Raised(e)
    case Done(ds) => Done(FlatPaths(ds))
  }

  /** All three categorised lists are strictly ascending. */
  predicate SortedLists(c: Categorized) {
    StrictlySorted(c.added) && StrictlySorted(c.modified) && StrictlySorted(c.removed)
  }

  /** The categorised change of one commit against its first parent; a root commit
      reports its whole tree as added, sorted with repeats kept. */
  function CommitChange(repo: Repo, c: CommitData): (r: Outcome<Categorized>)
    ensures |c.parents| == 0 ==> r == Done(Categorized(Sort(c.tree), [], []))
    ensures |c.parents| > 0 && DiffOf(repo, c.parents[0], c.id).Done? ==>
              r == Done(Categorize(DiffOf(repo, c.parents[0], c.id).value))
    ensures |c.parents| > 0 && DiffOf(repo, c.parents[0], c.id).Raised? ==>
              r == Raised(DiffOf(repo, c.parents[0], c.id).exc)
  {
    if |c.parents| == 0 then Done(Categorized(Sort(c.tree), [], []))
    else CategorizedDiff(repo, c.parents[0], c.id)
  }

  /** `get_commit_files_categorized(sha)`. No repository, or an error of the kinds it
      catches, gives three empty lists; other exceptions propagate. */
  function CommitFilesCategorized(a: Accessor, sha: string): (r: Outcome<Categorized>)
    ensures RepoOf(a).None? ==> r == Done(NoChanges)
    ensures r.Raised? ==> r.exc !in CommitCaught
    ensures (r.Done? && RepoOf(a).Some? && ResolveRev(RepoOf(a).value, sha).Done?
             && |ResolveRev(RepoOf(a).value, sha).value.parents| > 0) ==> SortedLists(r.value)
  {
    match RepoOf(a)
    case None => Done(NoChanges)
    case Some(repo) =>
      var res := match ResolveRev(repo, sha)
                 case Raised(e) => Raised(e)
                 case Done(c) => CommitChange(repo, c);
      Catch(res, CommitCaught, NoChanges)
  }

  /** What `get_commit_files_categorized` answers once a repository exists: a failed
      resolution or diff of a caught kind gives three empty lists; a root commit gives its
      sorted tree as added; any other commit the categorisation of its first-parent diff. */
  lemma CommitFilesCategorizedValue(a: Accessor, sha: string)
    requires RepoOf(a).Some?
    ensures var repo := RepoOf(a).value;
            var r := CommitFilesCategorized(a, sha);
            && (ResolveRev(repo, sha).Raised? ==>
                  r == Catch(Raised(ResolveRev(repo, sha).exc), CommitCaught, NoChanges))
            && (ResolveRev(repo, sha).Done? ==>
                  var c := ResolveRev(repo, sha).value;
                  && r == Catch(CommitChange(repo, c), CommitCaught, NoChanges)
                  && (|c.parents| == 0 ==> r == Done(Categorized(Sort(c.tree), [], [])))
                  && (|c.parents| > 0 && DiffOf(repo, c.parents[0], c.id).Done? ==>
                        r == Done(Categorize(DiffOf(repo, c.parents[0], c.id).value))))
  {
  }

  /** The categorised diff between two resolved commits. */
  function CommitsChange(repo: Repo, from: string, to: string): (r: Outcome<Categorized>)
    ensures ResolveRev(repo, from).Raised? ==> r == Raised(ResolveRev(repo, from).exc)
    ensures ResolveRev(repo, from).Done? && ResolveRev(repo, to).Raised? ==>
              r == Raised(ResolveRev(repo, to).exc)
    ensures ResolveRev(repo, from).Done? && ResolveRev(repo, to).Done? ==>
              r == CategorizedDiff(repo, ResolveRev(repo, from).value.id, ResolveRev(repo, to).value.id)
    ensures r.Done? ==> SortedLists(r.value)
  {
    match ResolveRev(repo, from)
    case Raised(e) => Raised(e)
    case Done(f) =>
      match ResolveRev(repo, to)
      case Raised(e) => Raised(e)
      case Done(t) => CategorizedDiff(repo, f.id, t.id)
  }

  /** `diff_commits_categorized(from, to)`. */
  function DiffCommitsCategorized(a: Accessor, from: string, to: string): (r: Outcome<Categorized>)
    ensures RepoOf(a).None? ==> r == Done(NoChanges)
    ensures r.Raised? ==> r.exc !in DiffCaught
    ensures r.Done? ==> SortedLists(r.value)
  {
    match RepoOf(a)
    case None => Done(NoChanges)
    case Some(repo) => Catch(CommitsChange(repo, from, to), DiffCaught, NoChanges)
  }

  /** What `diff_commits_categorized` answers once a repository exists: the two-commit
      diff with the caught kinds turned into three empty lists; when both revisions
      resolve and the diff succeeds, exactly the categorisation of that diff. */
  lemma DiffCommitsCategorizedValue(a: Accessor, from: string, to: string)
    requires RepoOf(a).Some?
    ensures var repo := RepoOf(a).value;
            var r := DiffCommitsCategorized(a, from, to);
            && r == Catch(CommitsChange(repo, from, to), DiffCaught, NoChanges)
            && (ResolveRev(repo, from).Done? && ResolveRev(repo, to).Done?
                && DiffOf(repo, ResolveRev(repo, from).value.id, ResolveRev(repo, to).value.id).Done? ==>
                  r == Done(Categorize(DiffOf(repo, ResolveRev(repo, from).value.id,
                                              ResolveRev(repo, to).value.id).value)))
  {
  }

  /** The result of a call that consults the memo: the outcome, the accessor after it,
      and whether `repo.merge_base` was asked. */
  datatype MemoCall<T> = MemoCall(result: Outcome<T>, after: Accessor, computed: bool)

  /** The memo key of the categorised three-dot diff. */
  function ThreeDotKey(base: string, head: string): string { base + "..." + head }

  /** The merge base to diff from, after looking in the memo: the first of the merge
      bases, or none when there are none. The memo is consulted only after both
      revisions resolved, and a `merge_base` error is not stored. */
  function LookupMergeBase(a: Accessor, repo: Repo, key: string, b: CommitData, h: CommitData)
    : (r: (Outcome<Option<CommitId>>, Accessor, bool))
    ensures key in a.memo.threeDot ==> r == (Done(a.memo.threeDot[key]), a, false)
    ensures key !in a.memo.threeDot ==> r.2
    ensures key !in a.memo.threeDot && MergeBasesOf(repo, b.id, h.id).Raised? ==>
              r.0 == Raised(MergeBasesOf(repo, b.id, h.id).exc)
    ensures key !in a.memo.threeDot && MergeBasesOf(repo, b.id, h.id).Done? ==>
              var bases := MergeBasesOf(repo, b.id, h.id).value;
              r.0 == Done(if |bases| > 0 then Some(bases[0]) else None)
    ensures r.0.Raised? ==> r.1 == a
    ensures r.0.Done? ==> key in r.1.memo.threeDot && r.1.memo.threeDot[key] == r.0.value
    ensures forall k :: k in a.memo.threeDot ==>
              (k in r.1.memo.threeDot && r.1.memo.threeDot[k] == a.memo.threeDot[k])
    ensures r.1.memo.pairs == a.memo.pairs
    ensures r.1 == a.(memo := r.1.memo)
  {
    if key in a.memo.threeDot then (Done(a.memo.threeDot[key]), a, false)
    else
      match MergeBasesOf(repo, b.id, h.id)
      case Raised(e) => (Raised(e), a, true)
      case Done(bases) =>
        var first := if |bases| > 0 then Some(bases[0]) else None;
        (Done(first), a.(memo := a.memo.(threeDot := a.memo.threeDot[key := first])), true)
  }

  /** `diff_branches_categorized(base, head)`: the three-dot diff from the merge base, or
      the two-dot diff when there is none. */
  function DiffBranchesCategorized(a: Accessor, base: string, head: string): (r: MemoCall<Categorized>)
    ensures RepoOf(a).None? ==> r == MemoCall(Done(NoChanges), a, false)
    ensures r.result.Raised? ==> r.result.exc !in DiffCaught
    ensures r.result.Done? ==> SortedLists(r.result.value)
    ensures r.after == a.(memo := r.after.memo)
    ensures r.after.memo.pairs == a.memo.pairs
    ensures ThreeDotKey(base, head) in a.memo.threeDot ==> !r.computed && r.after == a
    ensures forall k :: k in a.memo.threeDot ==>
              (k in r.after.memo.threeDot && r.after.memo.threeDot[k] == a.memo.threeDot[k])
  {
    match RepoOf(a)
    case None => MemoCall(Done(NoChanges), a, false)
    case Some(repo) =>
      match ResolveRev(repo, base)
      case Raised(e) => MemoCall(Catch(Raised(e), DiffCaught, NoChanges), a, false)
      case Done(b) =>
        match ResolveRev(repo, head)
        case Raised(e) => MemoCall(Catch(Raised(e), DiffCaught, NoChanges), a, false)
        case Done(h) =>
          var (mb, a', computed) := LookupMergeBase(a, repo, ThreeDotKey(base, head), b, h);
          match mb
          case Raised(e) => MemoCall(Catch(Raised(e), DiffCaught, NoChanges), a', computed)
          case Done(m) =>
            var from := if m.None? then b.id else m.value;
            MemoCall(Catch(CategorizedDiff(repo, from, h.id), DiffCaught, NoChanges), a', computed)
  }

  /** What `diff_branches_categorized` answers once a repository exists: a failed
      resolution is handled by the `except` clause without touching the memo; otherwise
      the categorised diff from the merge base to head, or the two-dot diff from base
      when there is none, with the caught kinds turned into three empty lists. */
  lemma DiffBranchesCategorizedValue(a: Accessor, base: string, head: string)
    requires RepoOf(a).Some?
    ensures var repo := RepoOf(a).value;
            var r := DiffBranchesCategorized(a, base, head);
            && (ResolveRev(repo, base).Raised? ==>
                  r == MemoCall(Catch(Raised(ResolveRev(repo, base).exc), DiffCaught, NoChanges), a, false))
            && (ResolveRev(repo, base).Done? && ResolveRev(repo, head).Raised? ==>
                  r == MemoCall(Catch(Raised(ResolveRev(repo, head).exc), DiffCaught, NoChanges), a, false))
            && (ResolveRev(repo, base).Done? && ResolveRev(repo, head).Done? ==>
                  var b := ResolveRev(repo, base).value;
                  var h := ResolveRev(repo, head).value;
                  var lookup := LookupMergeBase(a, repo, ThreeDotKey(base, head), b, h);
                  && r.after == lookup.1 && r.computed == lookup.2
                  && (lookup.0.Raised? ==> r.result == Catch(Raised(lookup.0.exc), DiffCaught, NoChanges))
                  && (lookup.0.Done? ==>
                        var from := if lookup.0.value.None? then b.id else lookup.0.value.value;
                        r.result == Catch(CategorizedDiff(repo, from, h.id), DiffCaught, NoChanges)))
  {
  }

  /** The memo at work: once the merge base of a three-dot diff is stored, asking for
      the same diff again does not consult `merge_base`, changes nothing and gives the
      same answer. */
  lemma ThreeDotMemoized(a: Accessor, base: string, head: string)
    ensures var first := DiffBranchesCategorized(a, base, head);
            var second := DiffBranchesCategorized(first.after, base, head);
            ThreeDotKey(base, head) in first.after.memo.threeDot ==>
              !second.computed && second.after == first.after && second.result == first.result
  {
    var first := DiffBranchesCategorized(a, base, head);
    assert RepoOf(first.after) == RepoOf(a);
  }

  /** Branches without a common ancestor: the missing merge base is stored as such, the
      answer is the two-dot diff, and asking again repeats it without `merge_base`. */
  lemma NoMergeBaseFallsBack(a: Accessor, base: string, head: string)
    requires RepoOf(a).Some?
    requires ResolveRev(RepoOf(a).value, base).Done? && ResolveRev(RepoOf(a).value, head).Done?
    requires ThreeDotKey(base, head) !in a.memo.threeDot
    requires MergeBasesOf(RepoOf(a).value, ResolveRev(RepoOf(a).value, base).value.id,
                          ResolveRev(RepoOf(a).value, head).value.id) == Done([])
    ensures var repo := RepoOf(a).value;
            var b := ResolveRev(repo, base).value;
            var h := ResolveRev(repo, head).value;
            var first := DiffBranchesCategorized(a, base, head);
            var second := DiffBranchesCategorized(first.after, base, head);
            && first.computed
            && ThreeDotKey(base, head) in first.after.memo.threeDot
            && first.after.memo.threeDot[ThreeDotKey(base, head)] == None
            && first.result == Catch(CategorizedDiff(repo, b.id, h.id), DiffCaught, NoChanges)
            && !second.computed && second.result == first.result
  {
    DiffBranchesCategorizedValue(a, base, head);
    ThreeDotMemoized(a, base, head);
  }

  /** The merge bases to diff from, after looking in the memo, where the flat variant
      stores the whole list. A `merge_base` error is not stored. */
  function LookupMergeBases(a: Accessor, repo: Repo, key: (string, string), b: CommitData, h: CommitData)
    : (r: (Outcome<seq<CommitId>>, Accessor, bool))
    ensures key in a.memo.pairs ==> r == (Done(a.memo.pairs[key]), a, false)
    ensures key !in a.memo.pairs ==> r.2 && r.0 == MergeBasesOf(repo, b.id, h.id)
    ensures r.0.Raised? ==> r.1 == a
    ensures r.0.Done? ==> key in r.1.memo.pairs && r.1.memo.pairs[key] == r.0.value
    ensures forall k :: k in a.memo.pairs ==>
              (k in r.1.memo.pairs && r.1.memo.pairs[k] == a.memo.pairs[k])
    ensures r.1.memo.threeDot == a.memo.threeDot
    ensures r.1 == a.(memo := r.1.memo)
  {
    if key in a.memo.pairs then (Done(a.memo.pairs[key]), a, false)
    else
      match MergeBasesOf(repo, b.id, h.id)
      case Raised(e) => (Raised(e), a, true)
      case Done(bases) => (Done(bases), a.(memo := a.memo.(pairs := a.memo.pairs[key := bases])), true)
  }

  /** The memo key of the flat three-dot diff. */
  function FlatKey(base: string, head: string): (string, string) { (base, head) }

  /** `diff_branches(base, head)`: the flat variant, with the whole merge-base list
      memoised under the pair key. */
  function DiffBranches(a: Accessor, base: string, head: string): (r: MemoCall<seq<string>>)
    ensures RepoOf(a).None? ==> r == MemoCall(Done([]), a, false)
    ensures RepoOf(a).Some? && ResolveRev(RepoOf(a).value, base).Raised? ==>
              r == MemoCall(Catch(Raised(ResolveRev(RepoOf(a).value, base).exc), DiffCaught, []), a, false)
    ensures RepoOf(a).Some? && ResolveRev(RepoOf(a).value, base).Done?
            && ResolveRev(RepoOf(a).value, head).Raised? ==>
              r == MemoCall(Catch(Raised(ResolveRev(RepoOf(a).value, head).exc), DiffCaught, []), a, false)
    ensures RepoOf(a).Some? ==>
              var repo := RepoOf(a).value;
              ResolveRev(repo, base).Done? && ResolveRev(repo, head).Done? ==>
                var b := ResolveRev(repo, base).value;
                var h := ResolveRev(repo, head).value;
                var lookup := LookupMergeBases(a, repo, FlatKey(base, head), b, h);
                && r.after == lookup.1 && r.computed == lookup.2
                && (lookup.0.Raised? ==> r.result == Catch(Raised(lookup.0.exc), DiffCaught, []))
                && (lookup.0.Done? ==>
                      var from := if |lookup.0.value| == 0 then b.id else lookup.0.value[0];
                      r.result == Catch(FlatDiff(repo, from, h.id), DiffCaught, []))
    ensures r.result.Raised? ==> r.result.exc !in DiffCaught
    ensures r.result.Done? ==> StrictlySorted(r.result.value)
    ensures r.after == a.(memo := r.after.memo)
    ensures r.after.memo.threeDot == a.memo.threeDot
    ensures FlatKey(base, head) in a.memo.pairs ==> !r.computed && r.after == a
  {
    match RepoOf(a)
    case None => MemoCall(Done([]), a, false)
    case Some(repo) =>
      match ResolveRev(repo, base)
      case Raised(e) => MemoCall(Catch(Raised(e), DiffCaught, []), a, false)
      case Done(b) =>
        match ResolveRev(repo, head)
        case Raised(e) => MemoCall(Catch(Raised(e), DiffCaught, []), a, false)
        case Done(h) =>
          var (mbs, a', computed) := LookupMergeBases(a, repo, FlatKey(base, head), b, h);
          match mbs
          case Raised(e) => MemoCall(Catch(Raised(e), DiffCaught, []), a', computed)
          case Done(bases) =>
            var from := if |bases| == 0 then b.id else bases[0];
            MemoCall(Catch(FlatDiff(repo, from, h.id), DiffCaught, []), a', computed)
  }

  /** `get_commit_files(sha)`: the flat list of one commit; a root commit lists its tree
      as it is, unsorted. */
  function CommitFiles(a: Accessor, sha: string): (r: Outcome<seq<string>>)
    ensures RepoOf(a).None? ==> r == Done([])
    ensures r.Raised? ==> r.exc !in CommitCaught
    ensures RepoOf(a).Some? && ResolveRev(RepoOf(a).value, sha).Raised? ==>
              r == Catch(Raised(ResolveRev(RepoOf(a).value, sha).exc), CommitCaught, [])
    ensures RepoOf(a).Some? && ResolveRev(RepoOf(a).value, sha).Done? ==>
              var repo := RepoOf(a).value;
              var c := ResolveRev(repo, sha).value;
              && (|c.parents| == 0 ==> r == Done(c.tree))
              && (|c.parents| > 0 ==> r == Catch(FlatDiff(repo, c.parents[0], c.id), CommitCaught, []))
              && (|c.parents| > 0 && r.Done? ==> StrictlySorted(r.value))
  {
    match RepoOf(a)
    case None => Done([])
    case Some(repo) =>
      var res := match ResolveRev(repo, sha)
                 case Raised(e) => Raised(e)
                 case Done(c) =>
                   if |c.parents| == 0 then Done(c.tree)
                   else FlatDiff(repo, c.parents[0], c.id);
      Catch(res, CommitCaught, [])
  }

  /** `diff_commits(from, to)`: the flat two-dot list. */
  function DiffCommits(a: Accessor, from: string, to: string): (r: Outcome<seq<string>>)
    ensures RepoOf(a).None? ==> r == Done([])
    ensures RepoOf(a).Some? && ResolveRev(RepoOf(a).value, from).Raised? ==>
              r == Catch(Raised(ResolveRev(RepoOf(a).value, from).exc), DiffCaught, [])
    ensures RepoOf(a).Some? && ResolveRev(RepoOf(a).value, from).Done?
            && ResolveRev(RepoOf(a).value, to).Raised? ==>
              r == Catch(Raised(ResolveRev(RepoOf(a).value, to).exc), DiffCaught, [])
    ensures RepoOf(a).Some? ==>
              var repo := RepoOf(a).value;
              ResolveRev(repo, from).Done? && ResolveRev(repo, to).Done? ==>
                r == Catch(FlatDiff(repo, ResolveRev(repo, from).value.id, ResolveRev(repo, to).value.id),
                           DiffCaught, [])
    ensures r.Raised? ==> r.exc !in DiffCaught
    ensures r.Done? ==> StrictlySorted(r.value)
  {
    match RepoOf(a)
    case None => Done([])
    case Some(repo) =>
      var res := match ResolveRev(repo, from)
                 case Raised(e) => Raised(e)
                 case Done(f) =>
                   match ResolveRev(repo, to)
                   case Raised(e) => Raised(e)
                   case Done(t) => FlatDiff(repo, f.id, t.id);
      Catch(res, DiffCaught, [])
  }

  // ---- shallow clones and fetching -------------------------------------------------------

  /** `is_shallow_clone`: the cached answer, else whether `.git/shallow` exists (false
      without `.git`), which is then cached. */
  function IsShallowClone(a: Accessor): (r: (bool, Accessor))
    ensures a.shallowCache.Some? ==> r == (a.shallowCache.value, a)
    ensures a.shallowCache.None? ==> r.0 == (a.gitDir && a.shallowMarker)
    ensures r.1 == a.(shallowCache := Some(r.0))
  {
    if a.shallowCache.Some? then (a.shallowCache.value, a)
    else
      var s := a.gitDir && a.shallowMarker;
      (s, a.(shallowCache := Some(s)))
  }

  /** A successful fetch: the new history is in place, the shallow flag must be probed
      again and every memoised merge base is forgotten. */
  function Landed(a: Accessor, l: Landing): (r: Accessor)
    ensures r.shallowCache.None? && r.memo == EmptyMemo
    ensures r.repoHandle == Some(l.repo) && r.shallowMarker == l.shallowMarker
    ensures r.gitDir == a.gitDir && r.remote == a.remote
  {
    a.(repoHandle := Some(l.repo), shallowMarker := l.shallowMarker, shallowCache := None, memo := EmptyMemo)
  }

  /** The refspec `fetch_branch` asks for: one leading `origin/` removed, then
      `<name>:refs/remotes/origin/<name>`. */
  function FetchRefspec(branch: string): (r: string)
    ensures var name := if StartsWith(branch, "origin/") then branch[7..] else branch;
            r == name + ":refs/remotes/origin/" + name
  {
    var name := if StartsWith(branch, "origin/") then branch[7..] else branch;
    name + ":refs/remotes/origin/" + name
  }

  /** `fetch_branch(branch, depth)`: raises `GitOperationError` without a repository or
      on any GitPython error; other exceptions propagate. The depth is passed only when
      it is truthy. The caches are reset only on success. */
  function FetchBranch(a: Accessor, branch: string, depth: Option<int>): (r: Result<Accessor, Exc>)
    ensures RepoOf(a).None? ==> r == Err(GitOperationError)
    ensures r.Ok? ==> RepoOf(a).Some? && r.value.shallowCache.None? && r.value.memo == EmptyMemo
    ensures r.Ok? ==> var wanted := if depth.Some? && depth.value != 0 then depth else None;
                      FetchOf(a.remote, FetchRefspec(branch), wanted).Done?
                      && r.value == Landed(a, FetchOf(a.remote, FetchRefspec(branch), wanted).value)
    ensures RepoOf(a).Some? ==>
              var wanted := if depth.Some? && depth.value != 0 then depth else None;
              var fetched := FetchOf(a.remote, FetchRefspec(branch), wanted);
              fetched.Raised? ==> r == Err(if fetched.exc in GitErrors then GitOperationError else fetched.exc)
    ensures r.Err? ==> r.error !in GitErrors
  {
    if RepoOf(a).None? then Err(GitOperationError)
    else
      var wanted := if depth.Some? && depth.value != 0 then depth else None;
      match FetchOf(a.remote, FetchRefspec(branch), wanted)
      case Done(l) => Ok(Landed(a, l))
      case Raised(e) => Err(if e in GitErrors then GitOperationError else e)
  }

  /** `deepen(depth)`: `fetch --deepen=<depth>`, with the cache resets of `fetch_branch`;
      only a `GitCommandError` is wrapped in `GitOperationError`, any other exception
      propagates as it is. */
  function Deepen(a: Accessor, depth: int): (r: Result<Accessor, Exc>)
    ensures RepoOf(a).None? ==> r == Err(GitOperationError)
    ensures r.Ok? ==> RepoOf(a).Some? && DeepenOf(a.remote, depth).Done?
                      && r.value == Landed(a, DeepenOf(a.remote, depth).value)
    ensures RepoOf(a).Some? && DeepenOf(a.remote, depth).Raised? ==>
              r == Err(if DeepenOf(a.remote, depth).exc == GitCommandError then GitOperationError
                       else DeepenOf(a.remote, depth).exc)
    ensures r.Err? ==> r.error != GitCommandError
  {
    if RepoOf(a).None? then Err(GitOperationError)
    else
      match DeepenOf(a.remote, depth)
      case Done(l) => Ok(Landed(a, l))
      case Raised(e) => Err(if e == GitCommandError then GitOperationError else e)
  }

  /** After a successful fetch the next three-dot diff asks `merge_base` afresh. */
  lemma FetchInvalidatesMemo(a: Accessor, branch: string, depth: Option<int>, base: string, head: string)
    requires FetchBranch(a, branch, depth).Ok?
    ensures var b := FetchBranch(a, branch, depth).value;
            var call := DiffBranchesCategorized(b, base, head);
            call.computed || call.after == b
  {
  }

  // ---- git show ----------------------------------------------------------------------

  /** The lines of `text` (split at every line break), each stripped, empty ones
      dropped. */
  function NonEmptyLines(text: string): (r: seq<string>)
    ensures forall i :: 0 <= i < |r| ==> r[i] != "" && !IsSpace(r[i][0]) && !IsSpace(r[i][|r[i]| - 1])
    decreases |text|
  {
    if |text| == 0 then []
    else
      var k := LineEnd(text);
      var line := StrippedLine(text, k);
      var rest := if k < |text| then NonEmptyLines(text[k + 1..]) else [];
      if line == "" then rest else [line] + rest
  }

  /** The first `k` characters, stripped. */
  function StrippedLine(text: string, k: nat): (line: string)
    requires k <= |text|
    ensures line == Strip(text[..k])
    ensures line == "" || (!IsSpace(line[0]) && !IsSpace(line[|line| - 1]))
  {
    Strip(text[..k])
  }

  /** Length of the first line: the position of the first line break, or the length. */
  function LineEnd(s: string): (k: nat)
    ensures k <= |s|
    ensures forall i :: 0 <= i < k ==> !IsLineBreak(s[i])
    ensures k < |s| ==> IsLineBreak(s[k])
  {
    if |s| == 0 || IsLineBreak(s[0]) then 0 else 1 + LineEnd(s[1..])
  }

  /** `get_files_from_show(sha)`: the non-empty stripped lines of `git show
      --pretty= --name-only`; a failing git command gives `[]`. */
  function FilesFromShow(a: Accessor, sha: string): (r: Outcome<seq<string>>)
    ensures RepoOf(a).None? ==> r == Done([])
    ensures r.Raised? ==> r.exc != GitCommandError
    ensures RepoOf(a).Some? && ShowOf(RepoOf(a).value, sha).Done? ==>
              r == Done(NonEmptyLines(ShowOf(RepoOf(a).value, sha).value))
    ensures RepoOf(a).Some? && ShowOf(RepoOf(a).value, sha).Raised? ==>
              r == if ShowOf(RepoOf(a).value, sha).exc == GitCommandError then Done([])
                   else Raised(ShowOf(RepoOf(a).value, sha).exc)
  {
    match RepoOf(a)
    case None => Done([])
    case Some(repo) =>
      match ShowOf(repo, sha)
      case Done(text) => Done(NonEmptyLines(text))
      case Raised(e) => Catch(Raised(e), {GitCommandError}, [])
  }

  /** File names without whitespace, one per line, read back as the same list. */
  lemma {:induction false} NonEmptyLinesOfJoin(names: seq<string>)
    requires forall i :: 0 <= i < |names| ==> Word(names[i])
    ensures NonEmptyLines(Join("\n", names)) == names
    decreases |names|
  {
    if |names| == 1 {
      LinesOfWord(names[0]);
    } else if |names| > 1 {
      var tail := names[1..];
      assert forall i :: 0 <= i < |tail| ==> tail[i] == names[i + 1];
      NonEmptyLinesOfJoin(tail);
      assert Join("\n", names) == names[0] + "\n" + Join("\n", tail);
      LinesOfWordThen(names[0], Join("\n", tail));
      assert names == [names[0]] + tail;
    }
  }

  /** A non-empty name with no whitespace in it. */
  predicate Word(n: string) {
    n != "" && forall k :: 0 <= k < |n| ==> !IsSpace(n[k])
  }

  lemma LinesOfWord(n: string)
    requires Word(n)
    ensures NonEmptyLines(n) == [n]
  {
    assert forall i :: 0 <= i < |n| ==> !IsLineBreak(n[i]);
    LineEndAt(n, |n|);
    assert n[..|n|] == n;
    StripNoEdgeSpace(n);
    NonEmptyLinesHead(n, |n|);
  }

  lemma LinesOfWordThen(n: string, rest: string)
    requires Word(n)
    ensures NonEmptyLines(n + "\n" + rest) == [n] + NonEmptyLines(rest)
  {
    var text := n + "\n" + rest;
    assert text[..|n|] == n;
    assert text[|n| + 1..] == rest;
    assert forall i :: 0 <= i < |n| ==> !IsLineBreak(text[i]) by {
      assert forall i :: 0 <= i < |n| ==> text[i] == n[i];
    }
    assert IsLineBreak(text[|n|]);
    LineEndAt(text, |n|);
    StripNoEdgeSpace(n);
    NonEmptyLinesHead(text, |n|);
  }

  /** `NonEmptyLines` of a text whose first line, stripped, is not empty. */
  lemma NonEmptyLinesHead(text: string, k: nat)
    requires k <= |text| && LineEnd(text) == k && StrippedLine(text, k) != ""
    ensures NonEmptyLines(text) == [StrippedLine(text, k)] + (if k < |text| then NonEmptyLines(text[k + 1..]) else [])
  {
  }

  lemma {:induction false} LineEndAt(s: string, k: nat)
    requires k <= |s|
    requires forall i :: 0 <= i < k ==> !IsLineBreak(s[i])
    requires k < |s| ==> IsLineBreak(s[k])
    ensures LineEnd(s) == k
    decreases k
  {
    if k > 0 {
      LineEndAt(s[1..], k - 1);
    }
  }

  // ---- commit details ------------------------------------------------------------------

  /** `get_commit_message(sha)`: the stripped subject line, `None` when it is empty,
      when there is no repository or when the lookup fails in a caught way. */
  function CommitMessage(a: Accessor, sha: string): (r: Outcome<Option<string>>)
    ensures RepoOf(a).None? ==> r == Done(None)
    ensures r.Raised? ==> r.exc !in DiffCaught
    ensures r.Done? && r.value.Some? ==> r.value.value != "" && r.value.value == Strip(r.value.value)
    ensures RepoOf(a).Some? && ResolveRev(RepoOf(a).value, sha).Done? ==>
              var subject := Strip(ResolveRev(RepoOf(a).value, sha).value.summary);
              r == Done(if subject == "" then None else Some(subject))
    ensures RepoOf(a).Some? && ResolveRev(RepoOf(a).value, sha).Raised? ==>
              r == Catch(Raised(ResolveRev(RepoOf(a).value, sha).exc), DiffCaught, None)
  {
    match RepoOf(a)
    case None => Done(None)
    case Some(repo) =>
      match ResolveRev(repo, sha)
      case Raised(e) => Catch(Raised(e), DiffCaught, None)
      case Done(c) =>
        var m := Strip(c.summary);
        StripNoEdgeSpace(m);
        Done(if m == "" then None else Some(m))
  }

  /** `get_commit_message_full(sha)`: the whole message stripped, `None` when the
      message is empty (a message of spaces only gives `""`). */
  function CommitMessageFull(a: Accessor, sha: string): (r: Outcome<Option<string>>)
    ensures RepoOf(a).None? ==> r == Done(None)
    ensures r.Raised? ==> r.exc !in DiffCaught
    ensures RepoOf(a).Some? && ResolveRev(RepoOf(a).value, sha).Done? ==>
              var msg := ResolveRev(RepoOf(a).value, sha).value.message;
              r == Done(if msg == "" then None else Some(Strip(msg)))
  {
    match RepoOf(a)
    case None => Done(None)
    case Some(repo) =>
      match ResolveRev(repo, sha)
      case Raised(e) => Catch(Raised(e), DiffCaught, None)
      case Done(c) => Done(if c.message == "" then None else Some(Strip(c.message)))
  }

  /** `get_commit_author(sha)`: the author's name. */
  function CommitAuthor(a: Accessor, sha: string): (r: Outcome<Option<string>>)
    ensures RepoOf(a).None? ==> r == Done(None)
    ensures r.Raised? ==> r.exc !in DiffCaught
    ensures RepoOf(a).Some? && ResolveRev(RepoOf(a).value, sha).Done? ==>
              r == Done(ResolveRev(RepoOf(a).value, sha).value.author)
  {
    match RepoOf(a)
    case None => Done(None)
    case Some(repo) =>
      match ResolveRev(repo, sha)
      case Raised(e) => Catch(Raised(e), DiffCaught, None)
      case Done(c) => Done(c.author)
  }
}
