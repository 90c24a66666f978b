/** The event classification: which kind of workflow run this is and whether a push
    is of a tag, a branch or a version tag. */
module Event {
  import opened Wrappers
  import opened Text
  import opened Validators
  import opened Configuration
  import opened Models

  predicate IsPullRequestEvent(name: string) { name == "pull_request" || name == "pull_request_target" }

  // ---- version tags -------------------------------------------------------------------

  /** The pieces of a version tag `v<major>.<minor>[.<patch>][<sep><label>]`. */
  datatype Version = Version(major: string, minor: string, patch: Option<string>, suffix: Option<(char, string)>)

  predicate IsLabelChar(c: char) { IsAlnum(c) || c == '.' || c == '-' }

  predicate Digits(s: string) { |s| > 0 && AllChars(s, IsDigit) }

  /** What the pattern `^v[0-9]+(\.[0-9]+){1,2}([-\+][A-Za-z0-9\.-]+)?` asks of each
      piece. */
  predicate WellFormed(v: Version) {
    && Digits(v.major) && Digits(v.minor)
    && (v.patch.Some? ==> Digits(v.patch.value))
    && (v.suffix.Some? ==>
          && (v.suffix.value.0 == '-' || v.suffix.value.0 == '+')
          && |v.suffix.value.1| > 0 && AllChars(v.suffix.value.1, IsLabelChar))
  }

  function PatchText(p: Option<string>): string {
    if p.Some? then "." + p.value else ""
  }

  function SuffixText(s: Option<(char, string)>): string {
    if s.Some? then [s.value.0] + s.value.1 else ""
  }

  /** The tag a version is written as. */
  function Render(v: Version): string {
    "v" + (v.major + ("." + (v.minor + (PatchText(v.patch) + SuffixText(v.suffix)))))
  }

  function ParseSuffix(s: string): (r: Option<Option<(char, string)>>)
    ensures r.Some? ==> SuffixText(r.value) == s
    ensures r.Some? && r.value.Some? ==>
              && (r.value.value.0 == '-' || r.value.value.0 == '+')
              && |r.value.value.1| > 0 && AllChars(r.value.value.1, IsLabelChar)
  {
    if s == "" then Some(None)
    else if (s[0] == '-' || s[0] == '+') && |s| > 1 && AllChars(s[1..], IsLabelChar) then
      assert [s[0]] + s[1..] == s;
      Some(Some((s[0], s[1..])))
    else None
  }

  /** The run of ASCII digits at the start of `s`, and what follows it. */
  function SplitDigits(s: string): (r: (string, string))
    ensures s == r.0 + r.1 && AllChars(r.0, IsDigit)
    ensures r.1 == "" || !IsDigit(r.1[0])
  {
    var k := DigitRun(s);
    assert s == s[..k] + s[k..];
    (s[..k], s[k..])
  }

  lemma SplitDigitsOf(d: string, rest: string)
    requires AllChars(d, IsDigit) && (rest == "" || !IsDigit(rest[0]))
    ensures SplitDigits(d + rest) == (d, rest)
  {
    var s := d + rest;
    assert s[..|d|] == d;
    DigitRunAt(s, |d|);
    assert s[|d|..] == rest;
  }

  /** An optional `.<digits>` group. */
  function ParsePatch(s: string): (r: (Option<string>, string))
    ensures PatchText(r.0) + r.1 == s
    ensures r.0.Some? ==> Digits(r.0.value)
  {
    if |s| > 0 && s[0] == '.' && SplitDigits(s[1..]).0 != "" then
      var sp := SplitDigits(s[1..]);
      assert s == "." + s[1..];
      assert PatchText(Some(sp.0)) + sp.1 == "." + (sp.0 + sp.1);
      (Some(sp.0), sp.1)
    else (None, s)
  }

  lemma ParsePatchOf(p: Option<string>, sfx: Option<(char, string)>)
    requires p.Some? ==> Digits(p.value)
    requires sfx.Some? ==> sfx.value.0 == '-' || sfx.value.0 == '+'
    ensures ParsePatch(PatchText(p) + SuffixText(sfx)) == (p, SuffixText(sfx))
  {
    var rest := SuffixText(sfx);
    assert rest != "" ==> rest[0] == sfx.value.0;
    if p.Some? {
      var s := PatchText(p) + rest;
      assert s[0] == '.';
      assert s[1..] == p.value + rest;
      SplitDigitsOf(p.value, rest);
    } else {
      assert PatchText(p) + rest == rest;
    }
  }

  /** A left-to-right reading of a tag as a version, `None` when the pattern fails. */
  function ParseVersion(t: string): (r: Option<Version>)
  {
    if |t| == 0 || t[0] != 'v' then None
    else
      var sp1 := SplitDigits(t[1..]);
      var r1 := sp1.1;
      if sp1.0 == "" || r1 == "" || r1[0] != '.' then None
      else
        var sp2 := SplitDigits(r1[1..]);
        if sp2.0 == "" then None
        else
          var pp := ParsePatch(sp2.1);
          var sfx := ParseSuffix(pp.1);
          if sfx.None? then None
          else
            Some(Version(sp1.0, sp2.0, pp.0, sfx.value))
  }

  /** What the reading returns is well formed and renders as the tag it was read from. */
  lemma ParseSound(t: string)
    ensures ParseVersion(t).Some? ==> WellFormed(ParseVersion(t).value) && Render(ParseVersion(t).value) == t
  {
    if ParseVersion(t).Some? {
      RenderOfParse(t);
    }
  }

  lemma RenderOfParse(t: string)
    requires ParseVersion(t).Some?
    ensures Render(ParseVersion(t).value) == t
  {
    var sp1 := SplitDigits(t[1..]);
    var r1 := sp1.1;
    var sp2 := SplitDigits(r1[1..]);
    var pp := ParsePatch(sp2.1);
    var sfx := ParseSuffix(pp.1).value;
    var tail := PatchText(pp.0) + SuffixText(sfx);
    var v := ParseVersion(t).value;
    assert v == Version(sp1.0, sp2.0, pp.0, sfx);
    assert Render(v) == "v" + (sp1.0 + ("." + (sp2.0 + tail)));
    assert sp2.1 == tail;
    assert r1 == "." + (sp2.0 + tail) by { assert r1 == "." + r1[1..]; }
    assert t == "v" + (sp1.0 + r1) by { assert t == "v" + t[1..]; }
  }

  lemma ParseSuffixOf(sfx: Option<(char, string)>)
    requires sfx.Some? ==>
               && (sfx.value.0 == '-' || sfx.value.0 == '+')
               && |sfx.value.1| > 0 && AllChars(sfx.value.1, IsLabelChar)
    ensures ParseSuffix(SuffixText(sfx)) == Some(sfx)
  {
    if sfx.Some? {
      assert SuffixText(sfx)[1..] == sfx.value.1;
    }
  }

  /** Every well-formed version is read back from its rendering. */
  lemma ParseRender(v: Version)
    requires WellFormed(v)
    ensures ParseVersion(Render(v)) == Some(v)
  {
    var t := Render(v);
    var tail := PatchText(v.patch) + SuffixText(v.suffix);
    var r1 := "." + (v.minor + tail);
    assert t[0] == 'v' && t[1..] == v.major + r1;
    SplitDigitsOf(v.major, r1);
    assert r1[0] == '.' && r1[1..] == v.minor + tail;
    assert tail != "" ==> tail[0] == '.' || tail[0] == '-' || tail[0] == '+';
    SplitDigitsOf(v.minor, tail);
    ParsePatchOf(v.patch, v.suffix);
    ParseSuffixOf(v.suffix);
    ParseVersionSteps(t, v.major, r1, v.minor, tail, v.patch, v.suffix);
  }

  /** `ParseVersion` in terms of what each of its steps returned. */
  lemma ParseVersionSteps(t: string, major: string, r1: string, minor: string, r2: string,
                          patch: Option<string>, sfx: Option<(char, string)>)
    requires |t| > 0 && t[0] == 'v' && SplitDigits(t[1..]) == (major, r1)
    requires major != "" && r1 != "" && r1[0] == '.'
    requires SplitDigits(r1[1..]) == (minor, r2) && minor != ""
    requires ParsePatch(r2) == (patch, SuffixText(sfx))
    requires ParseSuffix(SuffixText(sfx)) == Some(sfx)
    ensures ParseVersion(t) == Some(Version(major, minor, patch, sfx))
  {
  }

  predicate IsVersionBody(s: string) { ParseVersion(s).Some? }

  /** `_is_version_tag`: `re.match` of the version pattern ending in `$`, which also
      accepts one final newline. */
  predicate IsVersionTag(tag: string) { MatchDollar(tag, IsVersionBody) }

  /** A tag is a version tag exactly when it renders some well-formed version, possibly
      followed by one newline. */
  lemma VersionTagIff(tag: string)
    ensures IsVersionTag(tag) <==>
              exists v :: WellFormed(v) && (Render(v) == tag || Render(v) + "\n" == tag)
  {
    forall v | WellFormed(v) && (Render(v) == tag || Render(v) + "\n" == tag)
      ensures IsVersionTag(tag)
    {
      RenderedIsVersionTag(v, tag);
    }
    if IsVersionTag(tag) {
      var v := VersionOfTag(tag);
    }
  }

  lemma VersionOfTag(tag: string) returns (v: Version)
    requires IsVersionTag(tag)
    ensures WellFormed(v) && (Render(v) == tag || Render(v) + "\n" == tag)
  {
    if IsVersionBody(tag) {
      v := VersionOfBody(tag);
    } else {
      v := VersionOfTerminated(tag);
    }
  }

  lemma VersionOfTerminated(tag: string) returns (v: Version)
    requires |tag| > 0 && tag[|tag| - 1] == '\n' && IsVersionBody(tag[..|tag| - 1])
    ensures WellFormed(v) && Render(v) + "\n" == tag
  {
    var body := tag[..|tag| - 1];
    v := VersionOfBody(body);
    assert tag == body + "\n";
  }

  lemma VersionOfBody(body: string) returns (v: Version)
    requires IsVersionBody(body)
    ensures WellFormed(v) && Render(v) == body
  {
    ParseSound(body);
    v := ParseVersion(body).value;
  }

  lemma RenderedIsVersionTag(v: Version, tag: string)
    requires WellFormed(v) && (Render(v) == tag || Render(v) + "\n" == tag)
    ensures IsVersionTag(tag)
  {
    ParseRender(v);
    if Render(v) != tag {
      assert tag[..|tag| - 1] == Render(v);
    }
  }

  // ---- the extractor ---------------------------------------------------------------------

  /** `EventExtractor.extract`. */
  function ExtractEvent(cfg: Config): (r: EventMetadata)
    ensures r.name == cfg.eventName
    ensures r.isPullRequest <==> IsPullRequestEvent(cfg.eventName)
    ensures r.isRelease <==> cfg.eventName == "release"
    ensures r.isSchedule <==> cfg.eventName == "schedule"
    ensures r.isWorkflowDispatch <==> cfg.eventName == "workflow_dispatch"
    ensures r.isTagPush <==> cfg.eventName == "push" && cfg.refType == Some("tag")
    ensures r.isBranchPush <==> cfg.eventName == "push" && cfg.refType == Some("branch")
    ensures r.tagPushEvent <==> r.isTagPush && Truthy(cfg.refName) && IsVersionTag(cfg.refName.value)
  {
    var name := cfg.eventName;
    var push := name == "push";
    var tagPush := push && cfg.refType == Some("tag");
    EventMetadata(
      name,
      tagPush,
      push && cfg.refType == Some("branch"),
      IsPullRequestEvent(name),
      name == "release",
      name == "schedule",
      name == "workflow_dispatch",
      tagPush && Truthy(cfg.refName) && IsVersionTag(cfg.refName.value))
  }

  /** How many of the seven kind flags are set. */
  function KindCount(e: EventMetadata): nat {
    (if e.isTagPush then 1 else 0) + (if e.isBranchPush then 1 else 0)
    + (if e.isPullRequest then 1 else 0) + (if e.isRelease then 1 else 0)
    + (if e.isSchedule then 1 else 0) + (if e.isWorkflowDispatch then 1 else 0)
    + (if e.tagPushEvent && !e.isTagPush then 1 else 0)
  }

  /** At most one kind flag is set, and a version-tag push is a tag push. */
  lemma AtMostOneKind(cfg: Config)
    ensures KindCount(ExtractEvent(cfg)) <= 1
    ensures ExtractEvent(cfg).tagPushEvent ==> ExtractEvent(cfg).isTagPush
  {
  }

  /** An event the extractor does not know sets no flag. */
  lemma UnknownEventNoFlags(cfg: Config)
    requires cfg.eventName !in {"push", "pull_request", "pull_request_target", "release", "schedule", "workflow_dispatch"}
    ensures KindCount(ExtractEvent(cfg)) == 0 && !ExtractEvent(cfg).tagPushEvent
  {
  }
}
