/** Gerrit change metadata, looked for in three places in turn: the inputs of a
    `workflow_dispatch` event (one `gerrit_json` object, or separate fields), the
    `GERRIT_*` environment variables, and a `Change-Id:` trailer in the commit message. */
module Gerrit {
  import opened Wrappers
  import opened Text
  import opened Oracles
  import opened GitOps
  import opened Configuration
  import opened EventPayload
  import opened Models

  // ---- the Change-Id trailer -------------------------------------------------------------

  const ChangeIdKey := "Change-Id:"
  /** `I` followed by forty hex digits. */
  const ChangeIdLength: nat := 41

  predicate IsChangeId(id: string) {
    |id| == ChangeIdLength && id[0] == 'I' && AllChars(id[1..], IsHex)
  }

  /** Where `^` may match under `re.MULTILINE`: the start, or just after a newline. */
  predicate LineStart(msg: string, i: int) {
    0 <= i <= |msg| && (i == 0 || msg[i - 1] == '\n')
  }

  /** A Change-Id at `p` that `$` may end: at the end of the text or before a newline. */
  predicate IdEndsLine(msg: string, p: int) {
    0 <= p && p + ChangeIdLength <= |msg| && IsChangeId(msg[p..p + ChangeIdLength])
    && (p + ChangeIdLength == |msg| || msg[p + ChangeIdLength] == '\n')
  }

  /** One way `^Change-Id:\s+(I[0-9a-fA-F]{40})$` can match at `i`, with `\s+` taking
      `w` characters: the regular expression's own reading, backtracking included. */
  predicate PatternMatch(msg: string, i: int, w: int) {
    && LineStart(msg, i) && StartsWith(msg[i..], ChangeIdKey)
    && w >= 1 && i + |ChangeIdKey| + w <= |msg|
    && AllChars(msg[i + |ChangeIdKey|..i + |ChangeIdKey| + w], IsSpace)
    && IdEndsLine(msg, i + |ChangeIdKey| + w)
  }

  /** The deterministic reading: `\s+` takes the whole whitespace run after the key. */
  predicate MatchesAt(msg: string, i: int) {
    && LineStart(msg, i) && StartsWith(msg[i..], ChangeIdKey)
    && var w := LeadingSpaces(msg[i + |ChangeIdKey|..]);
       w >= 1 && IdEndsLine(msg, i + |ChangeIdKey| + w)
  }

  /** The captured group of a match at `i`. */
  function IdAt(msg: string, i: int): (r: string)
    requires MatchesAt(msg, i)
    ensures IsChangeId(r)
  {
    var p := i + |ChangeIdKey| + LeadingSpaces(msg[i + |ChangeIdKey|..]);
    msg[p..p + ChangeIdLength]
  }

  /** Since `I` is not whitespace, backtracking never gives `\s+` a shorter run: the
      pattern matches at `i` exactly when the deterministic reading does, and with the
      same run. */
  lemma {:induction false} MatchWidthUnique(msg: string, i: int, w: int)
    requires PatternMatch(msg, i, w)
    ensures w == LeadingSpaces(msg[i + |ChangeIdKey|..])
  {
    var a := i + |ChangeIdKey|;
    var s := msg[a..];
    assert s[w] == msg[a + w] == 'I';
    assert forall j :: 0 <= j < w ==> s[j] == msg[a..a + w][j];
  }

  lemma MatchesAtIff(msg: string, i: int)
    ensures MatchesAt(msg, i) <==> exists w :: PatternMatch(msg, i, w)
  {
    if MatchesAt(msg, i) {
      var w := LeadingSpaces(msg[i + |ChangeIdKey|..]);
      assert msg[i + |ChangeIdKey|..i + |ChangeIdKey| + w] == msg[i + |ChangeIdKey|..][..w];
      assert PatternMatch(msg, i, w);
    }
    forall w | PatternMatch(msg, i, w) ensures MatchesAt(msg, i) {
      MatchWidthUnique(msg, i, w);
    }
  }

  /** The leftmost match at or after `i`, as `re.search` scans. */
  function FindFrom(msg: string, i: nat): (r: Option<nat>)
    ensures r.Some? ==> i <= r.value <= |msg|
    decreases |msg| + 1 - i
  {
    if i > |msg| then None
    else if MatchesAt(msg, i) then Some(i)
    else FindFrom(msg, i + 1)
  }

  /** The scan finds a match, the first one from `i`, exactly when there is one. */
  lemma {:induction false} FindFromSpec(msg: string, i: nat)
    ensures var r := FindFrom(msg, i);
            && (r.Some? ==> MatchesAt(msg, r.value) && forall j :: i <= j < r.value ==> !MatchesAt(msg, j))
            && (r.None? ==> forall j :: i <= j ==> !MatchesAt(msg, j))
    decreases |msg| + 1 - i
  {
    if i <= |msg| && !MatchesAt(msg, i) {
      FindFromSpec(msg, i + 1);
    }
  }

  /** `re.search(..., re.MULTILINE)` and `group(1)`: the Change-Id of the first line
      that is a trailer. */
  function FindChangeId(msg: string): (r: Option<string>)
    ensures r.Some? ==> IsChangeId(r.value)
  {
    FindFromSpec(msg, 0);
    match FindFrom(msg, 0)
    case None => None
    case Some(i) => Some(IdAt(msg, i))
  }

  /** A Change-Id is found exactly when some line is a trailer, and it is the one of
      the first such line. */
  lemma FindChangeIdSpec(msg: string)
    ensures FindChangeId(msg).Some? <==> exists i :: MatchesAt(msg, i)
    ensures FindChangeId(msg).Some? ==>
              exists i :: MatchesAt(msg, i) && FindChangeId(msg).value == IdAt(msg, i)
                          && forall j :: 0 <= j < i ==> !MatchesAt(msg, j)
  {
    FindFromSpec(msg, 0);
  }

  /** A match with none before it is the one `re.search` reports. */
  lemma FirstMatchFound(msg: string, i: int)
    requires MatchesAt(msg, i)
    requires forall j :: 0 <= j < i ==> !MatchesAt(msg, j)
    ensures FindChangeId(msg) == Some(IdAt(msg, i))
  {
    FindChangeIdSpec(msg);
    var r := FindChangeId(msg);
    var k :| MatchesAt(msg, k) && r.value == IdAt(msg, k) && forall j :: 0 <= j < k ==> !MatchesAt(msg, j);
    assert k == i;
  }

  /** `body`, a newline, and the trailer line `Change-Id: <id>` with `tail` after it. */
  function TrailerMessage(body: string, id: string, tail: string): string {
    body + "\n" + (ChangeIdKey + " " + id + tail)
  }

  /** A message whose trailer line `Change-Id: <id>` follows a body in which no position
      starts the key gives that id back. */
  lemma TrailerFound(body: string, id: string, tail: string)
    requires IsChangeId(id)
    requires tail == "" || tail[0] == '\n'
    requires forall i | 0 <= i <= |body| :: !StartsWith(body[i..], ChangeIdKey)
    ensures FindChangeId(TrailerMessage(body, id, tail)) == Some(id)
  {
    var line := ChangeIdKey + " " + id + tail;
    TrailerLineMatches(body, id, tail);
    NoMatchInBody(body, line);
    FirstMatchFound(body + "\n" + line, |body| + 1);
  }

  /** The trailer line itself matches, capturing the id. */
  lemma TrailerLineMatches(body: string, id: string, tail: string)
    requires IsChangeId(id)
    requires tail == "" || tail[0] == '\n'
    ensures var msg := body + "\n" + (ChangeIdKey + " " + id + tail);
            MatchesAt(msg, |body| + 1) && IdAt(msg, |body| + 1) == id
  {
    var line := ChangeIdKey + " " + id + tail;
    var msg := body + "\n" + line;
    var i0 := |body| + 1;
    assert msg[i0..] == line;
    assert msg[i0 - 1] == '\n';
    TrailerLineAlone(id, tail);
    assert msg[i0 + |ChangeIdKey|..] == line[|ChangeIdKey|..];
    var p := i0 + |ChangeIdKey| + 1;
    assert msg[p..p + ChangeIdLength] == line[|ChangeIdKey| + 1..|ChangeIdKey| + 1 + ChangeIdLength];
    assert p + ChangeIdLength < |msg| ==> msg[p + ChangeIdLength] == line[|ChangeIdKey| + 1 + ChangeIdLength];
  }

  /** The trailer line on its own: the key, one space, the id, then the end or a newline. */
  lemma TrailerLineAlone(id: string, tail: string)
    requires IsChangeId(id)
    requires tail == "" || tail[0] == '\n'
    ensures var line := ChangeIdKey + " " + id + tail;
            && StartsWith(line, ChangeIdKey)
            && LeadingSpaces(line[|ChangeIdKey|..]) == 1
            && line[|ChangeIdKey| + 1..|ChangeIdKey| + 1 + ChangeIdLength] == id
            && (|ChangeIdKey| + 1 + ChangeIdLength == |line| || line[|ChangeIdKey| + 1 + ChangeIdLength] == '\n')
  {
    var line := ChangeIdKey + " " + id + tail;
    var s := line[|ChangeIdKey|..];
    assert s == " " + id + tail;
    assert s[0] == ' ' && s[1] == 'I';
    assert IsSpace(s[0]) && !IsSpace(s[1]);
    assert LeadingSpaces(s[1..]) == 0;
    assert line[..|ChangeIdKey|] == ChangeIdKey;
    assert line[|ChangeIdKey| + 1..|ChangeIdKey| + 1 + ChangeIdLength] == id;
  }

  /** When no position of `body` starts the key, no line of `body` can match, and
      neither can one that runs into the newline after it. */
  lemma NoMatchInBody(body: string, line: string)
    requires forall i | 0 <= i <= |body| :: !StartsWith(body[i..], ChangeIdKey)
    ensures forall j :: 0 <= j <= |body| ==> !MatchesAt(body + "\n" + line, j)
  {
    var msg := body + "\n" + line;
    forall j | 0 <= j <= |body| ensures !StartsWith(msg[j..], ChangeIdKey) {
      if j + |ChangeIdKey| <= |body| {
        assert msg[j..][..|ChangeIdKey|] == body[j..][..|ChangeIdKey|];
      } else if |ChangeIdKey| <= |msg| - j {
        assert msg[j..][..|ChangeIdKey|][|body| - j] == '\n';
      }
    }
  }

  // ---- field dictionaries ---------------------------------------------------------------

  /** The fields of a Gerrit change, as the extractors name them. */
  datatype Field =
    | Branch | ChangeId | ChangeNumber | ChangeUrl | EventType
    | PatchsetNumber | PatchsetRevision | Project | Refspec | Comment

  function Name(f: Field): string {
    match f
    case Branch => "branch"
    case ChangeId => "change_id"
    case ChangeNumber => "change_number"
    case ChangeUrl => "change_url"
    case EventType => "event_type"
    case PatchsetNumber => "patchset_number"
    case PatchsetRevision => "patchset_revision"
    case Project => "project"
    case Refspec => "refspec"
    case Comment => "comment"
  }

  /** A field of the model record. */
  function FieldOf(m: GerritMetadata, f: Field): string {
    match f
    case Branch => m.branch
    case ChangeId => m.changeId
    case ChangeNumber => m.changeNumber
    case ChangeUrl => m.changeUrl
    case EventType => m.eventType
    case PatchsetNumber => m.patchsetNumber
    case PatchsetRevision => m.patchsetRevision
    case Project => m.project
    case Refspec => m.refspec
    case Comment => m.comment
  }

  /** The fields `_extract_gerrit_fields` and the environment reader produce: all but
      `comment`, and `comment` only when it is to be included. */
  predicate Listed(f: Field, includeComment: bool) {
    f != Comment || includeComment
  }

  /** The three spellings tried for a field, in order. */
  function FieldKeys(f: Field): (r: seq<string>)
    ensures |r| == 3 && r[0] == Name(f) && r[1] == "GERRIT_" + Upper(Name(f)) && r[2] == "gerrit_" + Name(f)
  {
    [Name(f), "GERRIT_" + Upper(Name(f)), "gerrit_" + Name(f)]
  }

  predicate HasTruthy(source: map<string, string>, key: string) {
    key in source && source[key] != ""
  }

  /** `source.get(k1) or source.get(k2) or ...`: the first non-empty value. */
  function FirstTruthy(source: map<string, string>, keys: seq<string>): (r: Option<string>)
    ensures r.Some? <==> exists i :: 0 <= i < |keys| && HasTruthy(source, keys[i])
    ensures r.Some? ==> exists i :: 0 <= i < |keys| && HasTruthy(source, keys[i]) && source[keys[i]] == r.value
                                    && forall j :: 0 <= j < i ==> !HasTruthy(source, keys[j])
  {
    if |keys| == 0 then None
    else if HasTruthy(source, keys[0]) then Some(source[keys[0]])
    else
      var r := FirstTruthy(source, keys[1..]);
      assert forall i :: 1 <= i < |keys| ==> keys[i] == keys[1..][i - 1];
      if r.Some? then FirstTruthyShift(source, keys, r.value); r else r
  }

  /** A first hit in the tail, after a miss at the head, is a first hit in the list. */
  lemma FirstTruthyShift(source: map<string, string>, keys: seq<string>, v: string)
    requires |keys| > 0 && !HasTruthy(source, keys[0])
    requires exists i :: 0 <= i < |keys[1..]| && HasTruthy(source, keys[1..][i]) && source[keys[1..][i]] == v
                         && forall j :: 0 <= j < i ==> !HasTruthy(source, keys[1..][j])
    ensures exists i :: 0 <= i < |keys| && HasTruthy(source, keys[i]) && source[keys[i]] == v
                        && forall j :: 0 <= j < i ==> !HasTruthy(source, keys[j])
  {
    var i :| 0 <= i < |keys[1..]| && HasTruthy(source, keys[1..][i]) && source[keys[1..][i]] == v
             && forall j :: 0 <= j < i ==> !HasTruthy(source, keys[1..][j]);
    assert keys[i + 1] == keys[1..][i];
    assert forall j :: 1 <= j < i + 1 ==> keys[j] == keys[1..][j - 1];
  }

  /** One field's value: the first non-empty spelling, with `"null"` read as empty. */
  function FieldValue(source: map<string, string>, f: Field): (r: string)
    ensures r != "" ==> r != "null" && exists i :: 0 <= i < 3 && HasTruthy(source, FieldKeys(f)[i])
                                                  && source[FieldKeys(f)[i]] == r
    ensures HasTruthy(source, Name(f)) && source[Name(f)] != "null" ==> r == source[Name(f)]
    ensures (forall i :: 0 <= i < 3 ==> !HasTruthy(source, FieldKeys(f)[i])) ==> r == ""
    ensures forall i :: 0 <= i < 3 && HasTruthy(source, FieldKeys(f)[i])
                        && (forall j :: 0 <= j < i ==> !HasTruthy(source, FieldKeys(f)[j]))
                        ==> r == (if source[FieldKeys(f)[i]] == "null" then "" else source[FieldKeys(f)[i]])
  {
    match FirstTruthy(source, FieldKeys(f))
    case None => ""
    case Some(v) => if v == "null" then "" else v
  }

  /** `_extract_gerrit_fields`, read into the model record (a field left out reads as
      empty, as its default does). */
  function ExtractGerritFields(source: map<string, string>, includeComment: bool): (r: GerritMetadata)
    ensures forall f :: FieldOf(r, f) == if Listed(f, includeComment) then FieldValue(source, f) else ""
  {
    GerritMetadata(
      FieldValue(source, Branch), FieldValue(source, ChangeId), FieldValue(source, ChangeNumber),
      FieldValue(source, ChangeUrl), FieldValue(source, EventType), FieldValue(source, PatchsetNumber),
      FieldValue(source, PatchsetRevision), FieldValue(source, Project), FieldValue(source, Refspec),
      if includeComment then FieldValue(source, Comment) else "", "")
  }

  /** `_has_any_gerrit_data`: some field is non-empty. */
  predicate HasAnyData(m: GerritMetadata) {
    exists f :: FieldOf(m, f) != ""
  }

  /** What one source found: its fields, whether its dictionary was non-empty (which is
      what decides whether the search stops), and where it came from. */
  datatype Candidate = Candidate(data: GerritMetadata, nonEmpty: bool, source: string)

  const JsonSource := "workflow_dispatch (gerrit_json)"
  const InputsSource := "workflow_dispatch (gerrit_to_platform inputs)"
  const EnvSource := "environment variables"
  const CommitSource := "commit message (Change-Id trailer)"
  const NoSource := "none"

  // ---- the three sources ----------------------------------------------------------------

  /** `json.loads` of the `gerrit_json` input: an object of string fields, or text that
      does not decode (`JSONDecodeError`). */
  datatype GerritJson = JsonObject(fields: map<string, string>) | NotJson

  /** The decoded object with `comment` popped unless it is to be included. */
  function KeptJson(raw: map<string, string>, includeComment: bool): (r: map<string, string>)
    ensures forall k :: k in r <==> k in raw && (includeComment || k != "comment")
    ensures forall k :: k in r ==> r[k] == raw[k]
  {
    if !includeComment && "comment" in raw then raw - {"comment"} else raw
  }

  /** A key's value, or the field default `""`. */
  function Lookup(data: map<string, string>, k: string): string {
    if k in data then data[k] else ""
  }

  /** `GerritMetadata(**data)` for a decoded object: keys that are not fields are
      ignored, missing ones read as empty. */
  function KnownFields(data: map<string, string>): (r: GerritMetadata)
    ensures forall f :: FieldOf(r, f) == Lookup(data, Name(f))
  {
    GerritMetadata(
      Lookup(data, "branch"), Lookup(data, "change_id"), Lookup(data, "change_number"),
      Lookup(data, "change_url"), Lookup(data, "event_type"), Lookup(data, "patchset_number"),
      Lookup(data, "patchset_revision"), Lookup(data, "project"), Lookup(data, "refspec"),
      Lookup(data, "comment"), "")
  }

  /** `_extract_from_workflow_dispatch`. A non-empty `gerrit_json` that decodes to an
      object is returned as it is, even when that leaves nothing; otherwise the separate
      inputs, when any of them is set. */
  function FromDispatch(payload: Option<Payload>, includeComment: bool, decode: string -> GerritJson)
    : (r: Option<Candidate>)
    ensures payload.None? ==> r.None?
    ensures r.Some? ==> r.value.source == JsonSource || r.value.source == InputsSource
    ensures r.Some? && !includeComment ==> r.value.data.comment == ""
    ensures r.Some? && r.value.source == JsonSource ==>
              var raw := Get(payload.value.inputs, "gerrit_json");
              && Truthy(raw) && decode(raw.value).JsonObject?
              && var kept := KeptJson(decode(raw.value).fields, includeComment);
                 r.value.data == KnownFields(kept) && (r.value.nonEmpty <==> |kept| > 0)
    ensures r.Some? && r.value.source == InputsSource ==>
              r.value.data == ExtractGerritFields(payload.value.inputs, includeComment)
              && HasAnyData(r.value.data) && r.value.nonEmpty
    ensures payload.Some? && !(Truthy(Get(payload.value.inputs, "gerrit_json"))
                               && decode(payload.value.inputs["gerrit_json"]).JsonObject?) ==>
              (r.Some? <==> HasAnyData(ExtractGerritFields(payload.value.inputs, includeComment)))
  {
    if payload.None? then None
    else
      var inputs := payload.value.inputs;
      var raw := Get(inputs, "gerrit_json");
      if Truthy(raw) && decode(raw.value).JsonObject? then
        var kept := KeptJson(decode(raw.value).fields, includeComment);
        Some(Candidate(KnownFields(kept), |kept| > 0, JsonSource))
      else
        var fields := ExtractGerritFields(inputs, includeComment);
        if HasAnyData(fields) then Some(Candidate(fields, true, InputsSource)) else None
  }

  /** The dictionary `_extract_from_environment` builds: each `GERRIT_*` variable, empty
      when unset. */
  function EnvData(g: GerritEnv, includeComment: bool): (r: GerritMetadata)
    ensures r.branch == OrEmpty(g.branch) && r.changeId == OrEmpty(g.changeId)
    ensures r.changeNumber == OrEmpty(g.changeNumber) && r.changeUrl == OrEmpty(g.changeUrl)
    ensures r.eventType == OrEmpty(g.eventType) && r.patchsetNumber == OrEmpty(g.patchsetNumber)
    ensures r.patchsetRevision == OrEmpty(g.patchsetRevision) && r.project == OrEmpty(g.project)
    ensures r.refspec == OrEmpty(g.refspec)
    ensures r.comment == if includeComment then OrEmpty(g.comment) else ""
    ensures r.source == ""
  {
    GerritMetadata(
      OrEmpty(g.branch), OrEmpty(g.changeId), OrEmpty(g.changeNumber), OrEmpty(g.changeUrl),
      OrEmpty(g.eventType), OrEmpty(g.patchsetNumber), OrEmpty(g.patchsetRevision), OrEmpty(g.project),
      OrEmpty(g.refspec), if includeComment then OrEmpty(g.comment) else "", "")
  }

  /** `_extract_from_environment`. */
  function FromEnvironment(cfg: Config): (r: Option<Candidate>)
    ensures r.Some? <==> HasAnyData(EnvData(cfg.gerrit, cfg.gerritIncludeComment))
    ensures r.Some? ==> r.value == Candidate(EnvData(cfg.gerrit, cfg.gerritIncludeComment), true, EnvSource)
  {
    var data := EnvData(cfg.gerrit, cfg.gerritIncludeComment);
    if HasAnyData(data) then Some(Candidate(data, true, EnvSource)) else None
  }

  /** The dictionary built from a Change-Id trailer. */
  function CommitData(cfg: Config, changeId: string): (r: GerritMetadata)
    ensures r.changeId == changeId && r.eventType == "ref-updated" && r.patchsetRevision == cfg.sha
    ensures r.branch == OrEmpty(cfg.refName) && r.comment == "" && r.project == ""
    ensures r.changeNumber == "" && r.changeUrl == "" && r.patchsetNumber == "" && r.refspec == ""
  {
    GerritMetadata(OrEmpty(cfg.refName), changeId, "", "", "ref-updated", "", cfg.sha, "", "", "", "")
  }

  /** `_extract_from_commit_message`: only with a repository; any failure reading the
      message, an empty message, or no trailer gives nothing. */
  function FromCommitMessage(cfg: Config, git: Option<Accessor>): (r: Option<Candidate>)
    ensures r.Some? <==>
              && git.Some? && HasGitRepo(git.value)
              && CommitMessageFull(git.value, cfg.sha).Done?
              && Truthy(CommitMessageFull(git.value, cfg.sha).value)
              && FindChangeId(CommitMessageFull(git.value, cfg.sha).value.value).Some?
    ensures r.Some? ==>
              r.value == Candidate(CommitData(cfg, FindChangeId(CommitMessageFull(git.value, cfg.sha).value.value).value),
                                   true, CommitSource)
  {
    if git.None? || !HasGitRepo(git.value) then None
    else
      match CommitMessageFull(git.value, cfg.sha)
      case Raised(_) => None
      case Done(msg) =>
        if !Truthy(msg) then None
        else
          match FindChangeId(msg.value)
          case None => None
          case Some(id) => Some(Candidate(CommitData(cfg, id), true, CommitSource))
  }

  // ---- the extractor -------------------------------------------------------------------

  /** `GerritMetadata(**data)` after `data["source"] = source`. */
  function ToMetadata(c: Candidate): (r: GerritMetadata)
    ensures r.source == c.source
    ensures forall f :: FieldOf(r, f) == FieldOf(c.data, f)
  {
    c.data.(source := c.source)
  }

  /** The result when no source has anything. */
  const NoGerrit := GerritMetadata("", "", "", "", "", "", "", "", "", "", NoSource)

  predicate Usable(c: Option<Candidate>) {
    c.Some? && c.value.nonEmpty
  }

  function DispatchCandidate(cfg: Config, payload: Option<Payload>, decode: string -> GerritJson): Option<Candidate> {
    if cfg.eventName == "workflow_dispatch" then FromDispatch(payload, cfg.gerritIncludeComment, decode) else None
  }

  /** `GerritExtractor.extract`: the first source whose dictionary is non-empty. */
  function ExtractGerrit(cfg: Config, payload: Option<Payload>, git: Option<Accessor>, decode: string -> GerritJson)
    : (r: GerritMetadata)
    ensures r.source in {JsonSource, InputsSource, EnvSource, CommitSource, NoSource}
    ensures r.source == NoSource ==> r == NoGerrit
    ensures !cfg.gerritIncludeComment ==> r.comment == ""
    ensures r.source == JsonSource || r.source == InputsSource ==> cfg.eventName == "workflow_dispatch"
  {
    var d := DispatchCandidate(cfg, payload, decode);
    if Usable(d) then ToMetadata(d.value)
    else
      var e := FromEnvironment(cfg);
      if Usable(e) then ToMetadata(e.value)
      else
        var c := FromCommitMessage(cfg, git);
        if Usable(c) then ToMetadata(c.value) else NoGerrit
  }

  // ---- properties -------------------------------------------------------------------------

  /** The result is the empty record exactly when no source found anything. */
  lemma NoneIffNothingFound(cfg: Config, payload: Option<Payload>, git: Option<Accessor>, decode: string -> GerritJson)
    ensures ExtractGerrit(cfg, payload, git, decode).source == NoSource <==>
              && !Usable(DispatchCandidate(cfg, payload, decode))
              && !HasAnyData(EnvData(cfg.gerrit, cfg.gerritIncludeComment))
              && FromCommitMessage(cfg, git).None?
  {
  }

  /** Data from the environment is the `GERRIT_*` variables, field by field. */
  lemma EnvSourceFields(cfg: Config, payload: Option<Payload>, git: Option<Accessor>, decode: string -> GerritJson)
    requires ExtractGerrit(cfg, payload, git, decode).source == EnvSource
    ensures var r := ExtractGerrit(cfg, payload, git, decode);
            && r.branch == OrEmpty(cfg.gerrit.branch) && r.changeId == OrEmpty(cfg.gerrit.changeId)
            && r.changeNumber == OrEmpty(cfg.gerrit.changeNumber) && r.changeUrl == OrEmpty(cfg.gerrit.changeUrl)
            && r.eventType == OrEmpty(cfg.gerrit.eventType) && r.patchsetNumber == OrEmpty(cfg.gerrit.patchsetNumber)
            && r.patchsetRevision == OrEmpty(cfg.gerrit.patchsetRevision) && r.project == OrEmpty(cfg.gerrit.project)
            && r.refspec == OrEmpty(cfg.gerrit.refspec)
            && (cfg.gerritIncludeComment ==> r.comment == OrEmpty(cfg.gerrit.comment))
  {
  }

  /** Data from a trailer carries a well-formed Change-Id, the commit as the patch-set
      revision, `ref-updated` as the event and the ref name as the branch. */
  lemma CommitSourceFields(cfg: Config, payload: Option<Payload>, git: Option<Accessor>, decode: string -> GerritJson)
    requires ExtractGerrit(cfg, payload, git, decode).source == CommitSource
    ensures var r := ExtractGerrit(cfg, payload, git, decode);
            && IsChangeId(r.changeId) && r.eventType == "ref-updated" && r.patchsetRevision == cfg.sha
            && r.branch == OrEmpty(cfg.refName) && r.comment == "" && r.project == ""
            && r.changeNumber == "" && r.changeUrl == "" && r.patchsetNumber == "" && r.refspec == ""
  {
  }

  /** A `gerrit_json` object with a key other than `comment` wins over every other
      source, and its fields are copied. */
  lemma JsonInputWins(cfg: Config, p: Payload, git: Option<Accessor>, decode: string -> GerritJson,
                      fields: map<string, string>, k: string)
    requires cfg.eventName == "workflow_dispatch"
    requires Truthy(Get(p.inputs, "gerrit_json")) && decode(p.inputs["gerrit_json"]) == JsonObject(fields)
    requires k in fields && k != "comment"
    ensures var r := ExtractGerrit(cfg, Some(p), git, decode);
            r.source == JsonSource && ("change_id" in fields ==> r.changeId == fields["change_id"])
  {
    var kept := KeptJson(fields, cfg.gerritIncludeComment);
    assert k in kept;
  }

  /** A `gerrit_json` that decodes to `{}` still shuts out the separate workflow inputs:
      the search moves on to the environment as for any other event. */
  lemma EmptyJsonSkipsInputs(cfg: Config, p: Payload, git: Option<Accessor>, decode: string -> GerritJson)
    requires cfg.eventName == "workflow_dispatch"
    requires Truthy(Get(p.inputs, "gerrit_json")) && decode(p.inputs["gerrit_json"]) == JsonObject(map[])
    ensures ExtractGerrit(cfg, Some(p), git, decode).source != InputsSource
    ensures ExtractGerrit(cfg, Some(p), git, decode) ==
              ExtractGerrit(cfg.(eventName := "push"), Some(p), git, decode)
  {
    EmptyJsonUnusable(p, cfg.gerritIncludeComment, decode);
    PastDispatch(cfg, "push", Some(p), git, decode);
  }

  /** A `gerrit_json` object with no fields gives a candidate that does not stop the search. */
  lemma EmptyJsonUnusable(p: Payload, includeComment: bool, decode: string -> GerritJson)
    requires Truthy(Get(p.inputs, "gerrit_json")) && decode(p.inputs["gerrit_json"]) == JsonObject(map[])
    ensures !Usable(FromDispatch(Some(p), includeComment, decode))
  {
    var kept := KeptJson(map[], includeComment);
    assert |kept| == 0 by { assert forall k :: k !in kept; }
  }

  /** Once the dispatch inputs are out of play, the event name no longer matters. */
  lemma PastDispatch(cfg: Config, event: string, payload: Option<Payload>, git: Option<Accessor>, decode: string -> GerritJson)
    requires !Usable(DispatchCandidate(cfg, payload, decode))
    requires event != "workflow_dispatch"
    ensures ExtractGerrit(cfg, payload, git, decode) == ExtractGerrit(cfg.(eventName := event), payload, git, decode)
  {
    var other := cfg.(eventName := event);
    assert DispatchCandidate(other, payload, decode) == None;
    assert FromEnvironment(cfg) == FromEnvironment(other);
    assert FromCommitMessage(cfg, git) == FromCommitMessage(other, git);
  }

  /** Outside `workflow_dispatch`, a set `GERRIT_CHANGE_ID` decides the result, whatever
      the commit message says. */
  lemma EnvironmentBeforeCommit(cfg: Config, payload: Option<Payload>, git: Option<Accessor>, decode: string -> GerritJson)
    requires cfg.eventName != "workflow_dispatch"
    requires Truthy(cfg.gerrit.changeId)
    ensures ExtractGerrit(cfg, payload, git, decode).source == EnvSource
    ensures ExtractGerrit(cfg, payload, git, decode).changeId == cfg.gerrit.changeId.value
  {
    assert FieldOf(EnvData(cfg.gerrit, cfg.gerritIncludeComment), ChangeId) != "";
  }

  /** With no other source, a commit message ending in a trailer gives its Change-Id, the
      commit as the patch-set revision and `ref-updated` as the event. */
  lemma TrailerGivesChange(cfg: Config, git: Accessor, body: string, id: string)
    requires cfg.eventName != "workflow_dispatch"
    requires !HasAnyData(EnvData(cfg.gerrit, cfg.gerritIncludeComment))
    requires HasGitRepo(git) && IsChangeId(id)
    requires forall i | 0 <= i <= |body| :: !StartsWith(body[i..], ChangeIdKey)
    requires CommitMessageFull(git, cfg.sha) == Done(Some(TrailerMessage(body, id, "")))
    ensures var r := ExtractGerrit(cfg, None, Some(git), _ => NotJson);
            r.source == CommitSource && r.changeId == id && r.patchsetRevision == cfg.sha && r.eventType == "ref-updated"
  {
    var msg := TrailerMessage(body, id, "");
    TrailerFound(body, id, "");
    assert Truthy(Some(msg)) by { assert |msg| > 0; }
    assert DispatchCandidate(cfg, None, _ => NotJson) == None;
    assert FromEnvironment(cfg) == None;
    var c := FromCommitMessage(cfg, Some(git));
    assert c == Some(Candidate(CommitData(cfg, id), true, CommitSource));
    assert ExtractGerrit(cfg, None, Some(git), _ => NotJson) == ToMetadata(c.value);
  }

  /** A `"null"` under the plain name is the first truthy value: the field is empty, and the
      `GERRIT_` and `gerrit_` spellings are not consulted. */
  lemma NullBlocksLaterSpellings(source: map<string, string>, f: Field)
    requires Name(f) in source && source[Name(f)] == "null"
    ensures FieldValue(source, f) == ""
  {
  }

  /** A field set only under its `GERRIT_` spelling still reaches the result. */
  lemma SpellingPriority(source: map<string, string>, f: Field, v: string)
    requires v != "" && v != "null"
    requires !HasTruthy(source, Name(f)) && HasTruthy(source, "GERRIT_" + Upper(Name(f)))
    requires source["GERRIT_" + Upper(Name(f))] == v
    ensures FieldValue(source, f) == v
  {
    var keys := FieldKeys(f);
    assert !HasTruthy(source, keys[0]) && HasTruthy(source, keys[1]);
    assert keys[1..][0] == keys[1];
    assert FirstTruthy(source, keys[1..]) == Some(v);
    assert FirstTruthy(source, keys) == Some(v);
  }
}
