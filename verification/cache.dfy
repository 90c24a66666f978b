/** Cache keys: `owner-repo-ref-sha` and its restore prefix `owner-repo-ref-`. */
module Cache {
  import opened Wrappers
  import opened Text
  import opened Oracles
  import opened Configuration
  import opened Models

  /** `GITHUB_REF_NAME or "main"`. */
  function CacheRef(cfg: Config): (r: string)
    ensures Truthy(cfg.refName) ==> r == cfg.refName.value
    ensures !Truthy(cfg.refName) ==> r == "main"
  {
    if Truthy(cfg.refName) then cfg.refName.value else "main"
  }

  /** `CacheExtractor.extract`. Indexing the second piece of `split("/", 1)` raises
      `IndexError` when the full name has no `/`. */
  function ExtractCache(cfg: Config): (r: Outcome<CacheMetadata>)
    ensures r.Raised? <==> '/' !in cfg.repository
    ensures r.Raised? ==> r.exc == IndexError
    ensures r.Done? ==> r.value.key == r.value.restoreKey + cfg.sha
    ensures r.Done? ==>
              exists i :: 0 <= i < |cfg.repository| && cfg.repository[i] == '/' && '/' !in cfg.repository[..i]
                && r.value.restoreKey == cfg.owner + "-" + cfg.repository[i + 1..] + "-" + CacheRef(cfg) + "-"
  {
    var parts := SplitOnce(cfg.repository, '/');
    match parts.1
    case None => Raised(IndexError)
    case Some(repo) =>
      var i := |parts.0|;
      assert cfg.repository[..i] == parts.0 && cfg.repository[i] == '/' && cfg.repository[i + 1..] == repo;
      var restore := cfg.owner + "-" + repo + "-" + CacheRef(cfg) + "-";
      Done(CacheMetadata(restore + cfg.sha, restore))
  }

  /** For `owner/name` the keys are built from exactly those parts. */
  lemma CacheKeyOf(cfg: Config, name: string)
    requires '/' !in cfg.owner && cfg.repository == cfg.owner + "/" + name
    ensures ExtractCache(cfg) == Done(CacheMetadata(
              cfg.owner + "-" + name + "-" + CacheRef(cfg) + "-" + cfg.sha,
              cfg.owner + "-" + name + "-" + CacheRef(cfg) + "-"))
  {
    var full := cfg.repository;
    assert full[..|cfg.owner|] == cfg.owner && full[|cfg.owner|] == '/';
    IndexOfUnique(full, '/', |cfg.owner|);
    assert full[|cfg.owner| + 1..] == name;
  }

  /** Runs on the same repository and ref share the restore key whatever the commit,
      and their keys differ exactly when the commits do. */
  lemma RestoreKeySharedAcrossCommits(cfg: Config, sha: string)
    requires '/' in cfg.repository
    ensures var a := ExtractCache(cfg);
            var b := ExtractCache(cfg.(sha := sha));
            a.value.restoreKey == b.value.restoreKey
            && (a.value.key == b.value.key <==> cfg.sha == sha)
  {
    var a := ExtractCache(cfg);
    var b := ExtractCache(cfg.(sha := sha));
    if a.value.key == b.value.key {
      assert cfg.sha == a.value.key[|a.value.restoreKey|..];
    }
  }
}
