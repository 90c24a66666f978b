/** The files changed by the last commit (`HEAD`): the categorised lists as the accessor
    gives them, and their sorted, duplicate-free union. */
module LastCommit {
  import opened Wrappers
  import opened Ordering
  import opened Oracles
  import opened GitOps
  import opened Models

  /** `ChangedFilesLastCommitExtractor.extract`, with whether the categoriser was
      called. */
  datatype LastCommitOutcome = LastCommitOutcome(meta: ChangedFilesMetadata, categorised: bool)

  function ExtractLastCommit(git: Option<Accessor>): (r: LastCommitOutcome)
    ensures CountsSynced(r.meta)
    ensures r.categorised <==> git.Some? && HasGitRepo(git.value)
    ensures !r.categorised ==> r.meta == NoChangedFiles
    ensures r.categorised && CommitFilesCategorized(git.value, "HEAD").Raised? ==> r.meta == NoChangedFiles
    ensures r.categorised && CommitFilesCategorized(git.value, "HEAD").Done? ==>
              var c := CommitFilesCategorized(git.value, "HEAD").value;
              r.meta.added == c.added && r.meta.modified == c.modified && r.meta.removed == c.removed
    ensures StrictlySorted(r.meta.files)
    ensures forall p :: p in r.meta.files <==> p in r.meta.added || p in r.meta.modified || p in r.meta.removed
  {
    if git.None? || !HasGitRepo(git.value) then LastCommitOutcome(NoChangedFiles, false)
    else
      match CommitFilesCategorized(git.value, "HEAD")
      case Raised(_) => LastCommitOutcome(NoChangedFiles, true)
      case Done(c) =>
        var files := SortedUnique(c.added + c.modified + c.removed);
        LastCommitOutcome(MakeChangedFiles(files, c.added, c.modified, c.removed), true)
  }

  /** The count is the number of distinct paths over the three lists. */
  lemma LastCommitCountDistinct(git: Option<Accessor>)
    ensures var m := ExtractLastCommit(git).meta;
            m.count == |set p | p in m.added + m.modified + m.removed|
  {
    var m := ExtractLastCommit(git).meta;
    StrictlySortedCard(m.files);
    assert (set p | p in m.files) == (set p | p in m.added + m.modified + m.removed);
  }
}
