/** The action's configuration: an environment map turned into a typed record, with
    the required variables validated, the optional ones defaulted and the action
    inputs parsed. */
module Configuration {
  import opened Wrappers
  import opened Text
  import opened Validators

  type Env = map<string, string>

  const DefaultGitFetchDepth: int := 15
  const MaxGitFetchDepth: int := 10000

  /** `os.environ.get(name)`. */
  function Get(env: Env, name: string): (r: Option<string>)
    ensures r.Some? <==> name in env
    ensures r.Some? ==> r.value == env[name]
  {
    if name in env then Some(env[name]) else None
  }

  /** `os.environ.get(name, default)`. */
  function GetOr(env: Env, name: string, default: string): (r: string)
    ensures name in env ==> r == env[name]
    ensures name !in env ==> r == default
  {
    if name in env then env[name] else default
  }

  datatype DetectionMode = Auto | Git | GitHubApi

  /** `GITHUB_ACTOR_ID`: absent, parsed, or kept raw when it is not a positive integer. */
  datatype ActorId = NoActorId | ActorIdNumber(n: int) | ActorIdRaw(raw: string)

  datatype GerritEnv = GerritEnv(
    branch: Option<string>,
    changeId: Option<string>,
    changeNumber: Option<string>,
    changeUrl: Option<string>,
    eventType: Option<string>,
    patchsetNumber: Option<string>,
    patchsetRevision: Option<string>,
    project: Option<string>,
    refspec: Option<string>,
    comment: Option<string>)

  datatype Config = Config(
    repository: string,
    sha: string,
    owner: string,
    actor: string,
    eventName: string,
    output: string,
    stepSummary: Option<string>,
    eventPath: Option<string>,
    ref: Option<string>,
    refName: Option<string>,
    refType: Option<string>,
    baseRef: Option<string>,
    headRef: Option<string>,
    actorId: ActorId,
    repoVisibility: Option<string>,
    prHeadRepoFork: bool,
    defaultBranch: Option<string>,
    token: Option<string>,
    debugMode: bool,
    githubSummary: bool,
    gerritSummary: bool,
    filesSummary: bool,
    artifactUpload: bool,
    gerritIncludeComment: bool,
    changeDetection: DetectionMode,
    gitFetchDepth: int,
    artifactFormats: seq<string>,
    gerrit: GerritEnv)

  /** Why loading stopped: a required variable missing or empty, a value refused, or a
      `GITHUB_REF_TYPE` that is neither `branch` nor `tag`. */
  datatype ConfigError = Missing(name: string) | Invalid(name: string) | InvalidRefType(value: string)

  datatype RequiredVars = RequiredVars(
    repository: string, sha: string, owner: string, actor: string, eventName: string, output: string,
    stepSummary: Option<string>, eventPath: Option<string>)

  // ---- required variables --------------------------------------------------------------

  /** The owner check: 1 to 39 characters of `[A-Za-z0-9_.-]`, the length counted on the
      raw value. */
  predicate IsOwnerBody(t: string) { |t| > 0 && AllChars(t, IsNameChar) }

  predicate ValidOwner(owner: string) {
    owner != "" && |owner| <= 39 && MatchDollar(owner, IsOwnerBody)
  }

  predicate ValidOutputPath(output: string) {
    '\0' !in output && '\n' !in output && '\r' !in output
  }

  /** `_load_required_vars`: each variable in turn must be present and non-empty, then
      pass its check; the first failure is the error. */
  function LoadRequired(env: Env): (r: Result<RequiredVars, ConfigError>)
    ensures r.Ok? <==>
              && Truthy(Get(env, "GITHUB_REPOSITORY")) && ValidateRepositoryName(env["GITHUB_REPOSITORY"]).Ok?
              && Truthy(Get(env, "GITHUB_SHA")) && ValidateSha(env["GITHUB_SHA"]).Ok?
              && Truthy(Get(env, "GITHUB_REPOSITORY_OWNER")) && ValidOwner(env["GITHUB_REPOSITORY_OWNER"])
              && Truthy(Get(env, "GITHUB_ACTOR")) && ValidateActorName(env["GITHUB_ACTOR"]).Ok?
              && Truthy(Get(env, "GITHUB_EVENT_NAME")) && ValidateEventName(env["GITHUB_EVENT_NAME"]).Ok?
              && Truthy(Get(env, "GITHUB_OUTPUT")) && ValidOutputPath(env["GITHUB_OUTPUT"])
    ensures r.Ok? ==>
              && r.value.repository == env["GITHUB_REPOSITORY"] && r.value.sha == env["GITHUB_SHA"]
              && r.value.owner == env["GITHUB_REPOSITORY_OWNER"] && r.value.actor == env["GITHUB_ACTOR"]
              && r.value.eventName == env["GITHUB_EVENT_NAME"] && r.value.output == env["GITHUB_OUTPUT"]
    ensures !Truthy(Get(env, "GITHUB_REPOSITORY")) ==> r == Err(Missing("GITHUB_REPOSITORY"))
    ensures r.Err? ==> r.error.Missing? || r.error.Invalid?
  {
    var repo := Get(env, "GITHUB_REPOSITORY");
    if !Truthy(repo) then Err(Missing("GITHUB_REPOSITORY"))
    else if ValidateRepositoryName(repo.value).Err? then Err(Invalid("GITHUB_REPOSITORY"))
    else
      var sha := Get(env, "GITHUB_SHA");
      if !Truthy(sha) then Err(Missing("GITHUB_SHA"))
      else if ValidateSha(sha.value).Err? then Err(Invalid("GITHUB_SHA"))
      else
        var owner := Get(env, "GITHUB_REPOSITORY_OWNER");
        if !Truthy(owner) then Err(Missing("GITHUB_REPOSITORY_OWNER"))
        else if !ValidOwner(owner.value) then Err(Invalid("GITHUB_REPOSITORY_OWNER"))
        else
          var actor := Get(env, "GITHUB_ACTOR");
          if !Truthy(actor) then Err(Missing("GITHUB_ACTOR"))
          else if ValidateActorName(actor.value).Err? then Err(Invalid("GITHUB_ACTOR"))
          else
            var event := Get(env, "GITHUB_EVENT_NAME");
            if !Truthy(event) then Err(Missing("GITHUB_EVENT_NAME"))
            else if ValidateEventName(event.value).Err? then Err(Invalid("GITHUB_EVENT_NAME"))
            else
              var output := Get(env, "GITHUB_OUTPUT");
              if !Truthy(output) then Err(Missing("GITHUB_OUTPUT"))
              else if !ValidOutputPath(output.value) then Err(Invalid("GITHUB_OUTPUT"))
              else
                Ok(RequiredVars(
                  repo.value, sha.value, owner.value, actor.value, event.value, output.value,
                  if Truthy(Get(env, "GITHUB_STEP_SUMMARY")) then Get(env, "GITHUB_STEP_SUMMARY") else None,
                  if Truthy(Get(env, "GITHUB_EVENT_PATH")) then Get(env, "GITHUB_EVENT_PATH") else None))
  }

  /** The owner is accepted exactly when it is 1 to 39 characters of `[A-Za-z0-9_.-]`
      (a final newline the pattern lets through counts towards the length). */
  lemma OwnerAcceptance(owner: string)
    ensures ValidOwner(owner) <==>
              var t := Unterminated(owner); t != "" && |owner| <= 39 && AllChars(t, IsNameChar)
  {
  }

  // ---- optional variables --------------------------------------------------------------

  /** An optional ref variable: the value when non-empty, else `None`. A value that fails
      `validate_ref_name` is kept as it is, so the check never changes the result. */
  function OptionalRef(env: Env, name: string): (r: Option<string>)
    ensures r.Some? <==> name in env && env[name] != ""
    ensures r.Some? ==> r.value == env[name]
  {
    var raw := Get(env, name);
    if !Truthy(raw) then None
    else
      match ValidateRefName(raw.value)
      case Ok(v) => Some(v)
      case Err(_) => Some(raw.value)
  }

  /** `GITHUB_ACTOR_ID`: a positive integer when it parses as one, else the raw text. */
  function LoadActorId(env: Env): (r: ActorId)
    ensures !Truthy(Get(env, "GITHUB_ACTOR_ID")) <==> r == NoActorId
    ensures r.ActorIdNumber? ==> r.n >= 1 && ParseInt(env["GITHUB_ACTOR_ID"]) == Some(r.n)
    ensures r.ActorIdRaw? ==> r.raw == env["GITHUB_ACTOR_ID"]
                              && (ParseInt(r.raw).None? || ParseInt(r.raw).value < 1)
  {
    var raw := Get(env, "GITHUB_ACTOR_ID");
    if !Truthy(raw) then NoActorId
    else
      match ValidateInteger(raw.value, Some(1), None)
      case Ok(n) => ActorIdNumber(n)
      case Err(_) => ActorIdRaw(raw.value)
  }

  /** A positive id written as Python prints it is stored as that number. */
  lemma ActorIdOfNumber(env: Env, n: int)
    requires n >= 1 && "GITHUB_ACTOR_ID" in env && env["GITHUB_ACTOR_ID"] == IntToString(n)
    ensures LoadActorId(env) == ActorIdNumber(n)
  {
    IntToStringRoundTrip(n);
  }

  // ---- action inputs -----------------------------------------------------------------

  /** The spellings a boolean input accepts as true, compared after lowering. */
  predicate IsTrueWord(s: string) { s == "true" || s == "1" || s == "yes" }

  /** A boolean input defaulting to `"false"`: true iff its lowered value is a true word. */
  function Flag(env: Env, name: string): (r: bool)
    ensures r <==> name in env && IsTrueWord(Lower(env[name]))
  {
    IsTrueWord(Lower(GetOr(env, name, "false")))
  }

  /** Upper-case spellings are accepted as well: `TRUE`, `Yes`. */
  lemma FlagIgnoresCase(env: Env, name: string)
    requires name in env && (env[name] == "TRUE" || env[name] == "Yes")
    ensures Flag(env, name)
  {
    var v := env[name];
    assert Lower(v)[0] == LowerChar(v[0]);
  }

  /** `GITHUB_SUMMARY`, falling back to the older `GENERATE_SUMMARY` when the first is
      absent or empty. */
  function SummaryFlag(env: Env): (r: bool)
    ensures Truthy(Get(env, "GITHUB_SUMMARY")) ==> r == IsTrueWord(Lower(env["GITHUB_SUMMARY"]))
    ensures !Truthy(Get(env, "GITHUB_SUMMARY")) && Truthy(Get(env, "GENERATE_SUMMARY"))
            ==> r == IsTrueWord(Lower(env["GENERATE_SUMMARY"]))
    ensures !Truthy(Get(env, "GITHUB_SUMMARY")) && !Truthy(Get(env, "GENERATE_SUMMARY")) ==> !r
  {
    var chosen := OrElse(OrElse(Get(env, "GITHUB_SUMMARY"), Get(env, "GENERATE_SUMMARY")), Some("false"));
    IsTrueWord(Lower(chosen.value))
  }

  /** `CHANGE_DETECTION`, lowered; anything but `git` or `github_api` means `auto`. */
  function LoadDetectionMode(env: Env): (r: DetectionMode)
    ensures r == Git <==> Lower(GetOr(env, "CHANGE_DETECTION", "auto")) == "git"
    ensures r == GitHubApi <==> Lower(GetOr(env, "CHANGE_DETECTION", "auto")) == "github_api"
  {
    var mode := Lower(GetOr(env, "CHANGE_DETECTION", "auto"));
    if mode == "git" then Git
    else if mode == "github_api" then GitHubApi
    else Auto
  }

  /** `GIT_FETCH_DEPTH`: an integer in 1..10000, otherwise 15. */
  function LoadGitFetchDepth(env: Env): (r: int)
    ensures 1 <= r <= MaxGitFetchDepth
    ensures var p := ParseInt(GetOr(env, "GIT_FETCH_DEPTH", "15"));
            if p.Some? && 1 <= p.value <= MaxGitFetchDepth then r == p.value else r == DefaultGitFetchDepth
  {
    match ValidateInteger(GetOr(env, "GIT_FETCH_DEPTH", "15"), Some(1), Some(MaxGitFetchDepth))
    case Ok(d) => d
    case Err(_) => DefaultGitFetchDepth
  }

  /** How many of the pieces are not blank once stripped. */
  function NonBlankCount(pieces: seq<string>): (n: nat)
    ensures n <= |pieces|
  {
    if |pieces| == 0 then 0
    else (if Strip(pieces[0]) == "" then 0 else 1) + NonBlankCount(pieces[1..])
  }

  /** The comma-separated pieces, each stripped and lowered, empty ones dropped. */
  function FormatList(pieces: seq<string>): (r: seq<string>)
    ensures |r| == NonBlankCount(pieces)
    ensures forall i :: 0 <= i < |r| ==> r[i] != ""
    ensures forall p :: p in pieces && Strip(p) != "" ==> Lower(Strip(p)) in r
  {
    if |pieces| == 0 then []
    else
      var rest := FormatList(pieces[1..]);
      assert forall p :: p in pieces[1..] ==> p in pieces;
      assert forall p :: p in pieces ==> p == pieces[0] || p in pieces[1..];
      if Strip(pieces[0]) == "" then rest else [Lower(Strip(pieces[0]))] + rest
  }

  /** A name is in the list exactly when some non-blank piece strips and lowers to it. */
  lemma {:induction false} FormatListMembers(pieces: seq<string>, x: string)
    ensures x in FormatList(pieces) <==> exists p :: p in pieces && Strip(p) != "" && x == Lower(Strip(p))
  {
    if |pieces| > 0 {
      FormatListMembers(pieces[1..], x);
      if x in FormatList(pieces) && !(Strip(pieces[0]) != "" && x == Lower(Strip(pieces[0]))) {
        assert x in FormatList(pieces[1..]);
        var p :| p in pieces[1..] && Strip(p) != "" && x == Lower(Strip(p));
        assert p in pieces;
      }
      if exists p :: p in pieces && Strip(p) != "" && x == Lower(Strip(p)) {
        var p :| p in pieces && Strip(p) != "" && x == Lower(Strip(p));
        assert Lower(Strip(p)) in FormatList(pieces);
      }
    }
  }

  /** The names keep the order of their pieces: the list of a concatenation is the
      concatenation of the lists. */
  lemma {:induction false} FormatListConcat(xs: seq<string>, ys: seq<string>)
    ensures FormatList(xs + ys) == FormatList(xs) + FormatList(ys)
  {
    if |xs| > 0 {
      assert (xs + ys)[1..] == xs[1..] + ys;
      FormatListConcat(xs[1..], ys);
    } else {
      assert xs + ys == ys;
    }
  }

  /** `ARTIFACT_FORMATS`, defaulting to `json,yaml`. */
  function LoadArtifactFormats(env: Env): (r: seq<string>)
    ensures forall i :: 0 <= i < |r| ==> r[i] != "" && ',' !in r[i]
  {
    var pieces := Split(GetOr(env, "ARTIFACT_FORMATS", "json,yaml"), ',');
    FormatListNoComma(pieces);
    FormatList(pieces)
  }

  lemma {:induction false} FormatListNoComma(pieces: seq<string>)
    requires forall i :: 0 <= i < |pieces| ==> ',' !in pieces[i]
    ensures forall i :: 0 <= i < |FormatList(pieces)| ==> ',' !in FormatList(pieces)[i]
  {
    if |pieces| > 0 {
      FormatListNoComma(pieces[1..]);
      var p := Strip(pieces[0]);
      if p != "" {
        StripIsSlice(pieces[0]);
        assert ',' !in p;
        assert forall k :: 0 <= k < |p| ==> Lower(p)[k] != ',';
      }
    }
  }

  /** Every character of `Strip(s)` is a character of `s`. */
  lemma StripIsSlice(s: string)
    ensures forall ch :: ch in Strip(s) ==> ch in s
  {
    var a := LeadingSpaces(s);
    var rest := s[a..];
    var r := rest[..|rest| - TrailingSpaces(rest)];
    assert Strip(s) == r;
    forall ch | ch in r ensures ch in s {
      var k :| 0 <= k < |r| && r[k] == ch;
      assert s[a + k] == ch;
    }
  }

  /** A list of lower-case format names without spaces or commas, written
      comma-separated, reads back as the same list. */
  lemma {:induction false} ArtifactFormatsRoundTrip(env: Env, formats: seq<string>)
    requires |formats| >= 1
    requires forall i :: 0 <= i < |formats| ==>
               formats[i] != "" && AllChars(formats[i], IsLower)
    requires "ARTIFACT_FORMATS" in env && env["ARTIFACT_FORMATS"] == Join([','], formats)
    ensures LoadArtifactFormats(env) == formats
  {
    assert forall i :: 0 <= i < |formats| ==> ',' !in formats[i] by {
      forall i | 0 <= i < |formats| ensures ',' !in formats[i] {
        var f := formats[i];
        assert forall k :: 0 <= k < |f| ==> IsLower(f[k]);
      }
    }
    SplitJoin(formats, ',');
    FormatListOfNames(formats);
  }

  lemma {:induction false} FormatListOfNames(formats: seq<string>)
    requires forall i :: 0 <= i < |formats| ==> formats[i] != "" && AllChars(formats[i], IsLower)
    ensures FormatList(formats) == formats
  {
    if |formats| > 0 {
      var f := formats[0];
      FormatNameKept(f);
      assert FormatList(formats) == [f] + FormatList(formats[1..]);
      FormatListOfNames(formats[1..]);
      assert formats == [f] + formats[1..];
    }
  }

  /** A lower-case name has no edge whitespace to strip and nothing to lower. */
  lemma FormatNameKept(f: string)
    requires f != "" && AllChars(f, IsLower)
    ensures Strip(f) == f && Lower(Strip(f)) == f
  {
    assert IsLower(f[0]) && IsLower(f[|f| - 1]);
    StripNoEdgeSpace(f);
    assert Lower(f) == f by {
      forall k | 0 <= k < |f| ensures Lower(f)[k] == f[k] { assert IsLower(f[k]); }
    }
  }

  function LoadGerritEnv(env: Env): GerritEnv {
    GerritEnv(
      Get(env, "GERRIT_BRANCH"), Get(env, "GERRIT_CHANGE_ID"), Get(env, "GERRIT_CHANGE_NUMBER"),
      Get(env, "GERRIT_CHANGE_URL"), Get(env, "GERRIT_EVENT_TYPE"), Get(env, "GERRIT_PATCHSET_NUMBER"),
      Get(env, "GERRIT_PATCHSET_REVISION"), Get(env, "GERRIT_PROJECT"), Get(env, "GERRIT_REFSPEC"),
      Get(env, "GERRIT_COMMENT"))
  }

  // ---- the whole record ----------------------------------------------------------------

  /** `Config()`: the required variables, then the optional ones (where only a bad
      `GITHUB_REF_TYPE` can fail), then the action inputs. */
  function LoadConfig(env: Env): (r: Result<Config, ConfigError>)
    ensures LoadRequired(env).Err? ==> r == Err(LoadRequired(env).error)
    ensures r.Ok? <==>
              LoadRequired(env).Ok?
              && !(Truthy(Get(env, "GITHUB_REF_TYPE"))
                   && env["GITHUB_REF_TYPE"] != "branch" && env["GITHUB_REF_TYPE"] != "tag")
    ensures r.Ok? ==>
              && ValidateRepositoryName(r.value.repository).Ok? && ValidateSha(r.value.sha).Ok?
              && ValidOwner(r.value.owner) && ValidateActorName(r.value.actor).Ok?
              && ValidateEventName(r.value.eventName).Ok? && ValidOutputPath(r.value.output)
              && 1 <= r.value.gitFetchDepth <= MaxGitFetchDepth
              && (r.value.refType.Some? ==> r.value.refType.value in {"", "branch", "tag"})
    ensures r.Ok? ==> r.value.token == OrElse(Get(env, "GITHUB_TOKEN_INPUT"), Get(env, "GITHUB_TOKEN"))
  {
    match LoadRequired(env)
    case Err(e) => Err(e)
    case Ok(req) =>
      var refType := Get(env, "GITHUB_REF_TYPE");
      if Truthy(refType) && refType.value != "branch" && refType.value != "tag" then
        Err(InvalidRefType(refType.value))
      else
        Ok(Config(
          req.repository, req.sha, req.owner, req.actor, req.eventName, req.output,
          req.stepSummary, req.eventPath,
          OptionalRef(env, "GITHUB_REF"), OptionalRef(env, "GITHUB_REF_NAME"), refType,
          OptionalRef(env, "GITHUB_BASE_REF"), OptionalRef(env, "GITHUB_HEAD_REF"),
          LoadActorId(env),
          Get(env, "REPO_VISIBILITY"),
          Flag(env, "PR_HEAD_REPO_FORK"),
          Get(env, "DEFAULT_BRANCH"),
          OrElse(Get(env, "GITHUB_TOKEN_INPUT"), Get(env, "GITHUB_TOKEN")),
          Flag(env, "DEBUG_MODE"),
          SummaryFlag(env),
          Flag(env, "GERRIT_SUMMARY"),
          Flag(env, "FILES_SUMMARY"),
          Flag(env, "ARTIFACT_UPLOAD"),
          Flag(env, "GERRIT_INCLUDE_COMMENT"),
          LoadDetectionMode(env),
          LoadGitFetchDepth(env),
          LoadArtifactFormats(env),
          LoadGerritEnv(env)))
  }
}
