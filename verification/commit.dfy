/** Commit metadata: the SHA and its seven-character short form, and the subject line
    and author read from git when a repository is there. */
module Commit {
  import opened Wrappers
  import opened Text
  import opened Oracles
  import opened Validators
  import opened GitOps
  import opened Configuration
  import opened Models

  /** The message and author, read in that order inside one `try`: a raised message
      read loses both, a raised author read keeps the message. */
  function CommitDetails(a: Accessor, sha: string): (r: (Option<string>, Option<string>))
    ensures CommitMessage(a, sha).Raised? ==> r == (None, None)
    ensures CommitMessage(a, sha).Done? && CommitAuthor(a, sha).Raised? ==> r == (CommitMessage(a, sha).value, None)
    ensures CommitMessage(a, sha).Done? && CommitAuthor(a, sha).Done? ==>
              r == (CommitMessage(a, sha).value, CommitAuthor(a, sha).value)
  {
    match CommitMessage(a, sha)
    case Raised(_) => (None, None)
    case Done(m) =>
      match CommitAuthor(a, sha)
      case Raised(_) => (m, None)
      case Done(au) => (m, au)
  }

  /** `CommitExtractor.extract`. */
  function ExtractCommit(cfg: Config, git: Option<Accessor>): (r: Result<CommitMetadata, ModelError>)
    ensures r.Ok? <==> |cfg.sha| >= ShortShaLength
    ensures r.Ok? ==> r.value.sha == cfg.sha && r.value.shaShort == cfg.sha[..ShortShaLength]
    ensures r.Ok? && (git.None? || !HasGitRepo(git.value)) ==> r.value.message.None? && r.value.author.None?
    ensures r.Ok? && git.Some? && HasGitRepo(git.value) ==>
              (r.value.message, r.value.author) == CommitDetails(git.value, cfg.sha)
  {
    var details := if git.Some? && HasGitRepo(git.value) then CommitDetails(git.value, cfg.sha) else (None, None);
    MakeCommit(cfg.sha, Take(cfg.sha, ShortShaLength), details.0, details.1)
  }

  /** A SHA that passed validation always gives commit metadata whose short form is a
      prefix of it. */
  lemma CommitAlwaysBuilt(cfg: Config, git: Option<Accessor>)
    requires ValidateSha(cfg.sha).Ok?
    ensures ExtractCommit(cfg, git).Ok?
    ensures StartsWith(cfg.sha, ExtractCommit(cfg, git).value.shaShort)
  {
    var t := Unterminated(cfg.sha);
    assert |t| <= |cfg.sha|;
  }

  /** Reads that succeed are passed through unchanged. */
  lemma DetailsPassThrough(cfg: Config, a: Accessor, m: Option<string>, au: Option<string>)
    requires HasGitRepo(a) && |cfg.sha| >= ShortShaLength
    requires CommitMessage(a, cfg.sha) == Done(m) && CommitAuthor(a, cfg.sha) == Done(au)
    ensures ExtractCommit(cfg, Some(a)).value.message == m
    ensures ExtractCommit(cfg, Some(a)).value.author == au
  {
  }
}
