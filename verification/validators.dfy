/** The input validator: the regular-expression checks applied to environment
    values, the path-component guard, output sanitising and integer parsing. */
module Validators {
  import opened Wrappers
  import opened Text

  const MaxRepositoryOwnerLength: nat := 39
  const MaxRepositoryNameLength: nat := 100
  const MaxRefNameLength: nat := 256
  const MaxOutputStringLength: nat := 10000
  const TruncationMarker := "...[truncated]"

  /** Why a value was refused; the message text itself is not modelled. */
  datatype ValidationError =
    | Empty
    | InvalidCharacters
    | OwnerTooLong
    | NameTooLong
    | StartsWithDash
    | ConsecutiveSlashes
    | TooLong
    | DangerousPattern(pattern: string)
    | AbsolutePath
    | DriveLetter
    | NotAnInteger
    | BelowMinimum(min: int)
    | AboveMaximum(max: int)

  /** Python's `re.match(r"^P$", s)` where `body` holds of exactly the strings `P`
      matches in full: `$` matches at the very end and also just before one final
      newline. */
  predicate MatchDollar(s: string, body: string -> bool) {
    body(s) || (|s| > 0 && s[|s| - 1] == '\n' && body(s[..|s| - 1]))
  }

  /** `s` without one final newline, if it has one. */
  function Unterminated(s: string): (r: string)
    ensures |s| > 0 && s[|s| - 1] == '\n' ==> s == r + "\n"
    ensures (|s| == 0 || s[|s| - 1] != '\n') ==> r == s
  {
    if |s| > 0 && s[|s| - 1] == '\n' then s[..|s| - 1] else s
  }

  // ---- SHA -------------------------------------------------------------------------

  predicate IsShaBody(t: string) { 7 <= |t| <= 64 && AllChars(t, IsHex) }

  /** `validate_sha`: a 7 to 64 character hexadecimal string, either case. */
  function ValidateSha(sha: string): (r: Result<string, ValidationError>)
    ensures sha == "" ==> r == Err(Empty)
    ensures r.Ok? ==> r.value == sha
    ensures r.Ok? <==> var t := Unterminated(sha); 7 <= |t| <= 64 && AllChars(t, IsHex)
    ensures r.Err? ==> r.error == Empty || r.error == InvalidCharacters
  {
    if sha == "" then Err(Empty)
    else if !MatchDollar(sha, IsShaBody) then Err(InvalidCharacters)
    else Ok(sha)
  }

  /** Full SHA-1 and SHA-256 object names are accepted; a string of six hex digits is
      not. */
  lemma ShaLengths(sha: string)
    requires AllChars(sha, IsHex)
    ensures |sha| == 40 || |sha| == 64 ==> ValidateSha(sha) == Ok(sha)
    ensures |sha| < 7 ==> ValidateSha(sha).Err?
  {
    if |sha| > 0 { assert IsHex(sha[|sha| - 1]); }
  }

  // ---- repository name ---------------------------------------------------------------

  predicate IsNameChar(c: char) { IsAlnum(c) || c == '_' || c == '.' || c == '-' }

  /** `[a-zA-Z0-9_.-]+/[a-zA-Z0-9_.-]+` matched in full. */
  predicate IsRepositoryBody(t: string) {
    && '/' in t
    && var i := IndexOf(t, '/');
    && 0 < i && i + 1 < |t|
    && AllChars(t[..i], IsNameChar) && AllChars(t[i + 1..], IsNameChar)
  }

  /** The repository pattern, `$` included, in terms of the first slash. */
  predicate RepositoryShape(s: string) {
    && '/' in s
    && var i := IndexOf(s, '/');
    && var t := Unterminated(s);
    && 0 < i && i + 1 < |t|
    && AllChars(t[..i], IsNameChar) && AllChars(t[i + 1..], IsNameChar)
  }

  lemma RepositoryMatch(s: string)
    ensures MatchDollar(s, IsRepositoryBody) <==> RepositoryShape(s)
  {
    var t := Unterminated(s);
    if t != s {
      assert s[|s| - 1] == '\n' && !IsNameChar(s[|s| - 1]);
      if '/' in t {
        IndexOfPrefix(s, t, '/');
        var i := IndexOf(s, '/');
        assert !AllChars(s[i + 1..], IsNameChar) by {
          if i + 1 < |s| { assert s[i + 1..][|s| - i - 2] == s[|s| - 1]; }
        }
      }
    }
  }

  /** With a single slash, Python's `split("/")` gives the owner and the name. */
  lemma SplitAtOnlySlash(s: string)
    requires '/' in s && '/' !in s[IndexOf(s, '/') + 1..]
    ensures var i := IndexOf(s, '/'); Split(s, '/') == [s[..i], s[i + 1..]]
  {
  }

  /** `validate_repository_name`: the `owner/name` shape first, then the owner's and the
      name's lengths; the name part keeps a final newline the pattern let through. */
  function ValidateRepositoryName(s: string): (r: Result<string, ValidationError>)
    ensures r.Ok? ==> r.value == s
    ensures r.Ok? <==>
              && RepositoryShape(s)
              && IndexOf(s, '/') <= MaxRepositoryOwnerLength
              && |s| - (IndexOf(s, '/') + 1) <= MaxRepositoryNameLength
    ensures r == Err(OwnerTooLong) ==> '/' in s && IndexOf(s, '/') > MaxRepositoryOwnerLength
  {
    RepositoryMatch(s);
    if s == "" then Err(Empty)
    else if !MatchDollar(s, IsRepositoryBody) then Err(InvalidCharacters)
    else
      var i := IndexOf(s, '/');
      assert '/' !in s[i + 1..] by {
        var t := Unterminated(s);
        assert forall k :: i + 1 <= k < |t| ==> t[k] != '/' by {
          forall k | i + 1 <= k < |t| ensures t[k] != '/' { assert IsNameChar(t[i + 1..][k - i - 1]); }
        }
      }
      SplitAtOnlySlash(s);
      var parts := Split(s, '/');
      if |parts[0]| > MaxRepositoryOwnerLength then Err(OwnerTooLong)
      else if |parts[1]| > MaxRepositoryNameLength then Err(NameTooLong)
      else Ok(s)
  }

  /** Every well-formed `owner/name` within the length limits is accepted. */
  lemma RepositoryNameAccepted(owner: string, name: string)
    requires 0 < |owner| <= MaxRepositoryOwnerLength && 0 < |name| <= MaxRepositoryNameLength
    requires AllChars(owner, IsNameChar) && AllChars(name, IsNameChar)
    ensures ValidateRepositoryName(owner + "/" + name) == Ok(owner + "/" + name)
  {
    var s := owner + "/" + name;
    assert s[|owner|] == '/';
    assert '/' !in owner by { forall k | 0 <= k < |owner| ensures owner[k] != '/' { assert IsNameChar(owner[k]); } }
    assert s[..|owner|] == owner;
    assert IndexOf(s, '/') == |owner|;
    assert s[|s| - 1] == name[|name| - 1];
    assert Unterminated(s) == s;
    assert s[|owner| + 1..] == name;
  }

  // ---- ref name ----------------------------------------------------------------------

  predicate IsRefChar(c: char) { IsAlnum(c) || c == '/' || c == '_' || c == '.' || c == '-' }

  predicate IsRefBody(t: string) { |t| > 0 && AllChars(t, IsRefChar) }

  /** `validate_ref_name`: checked in order for emptiness, the character set, a leading
      dash, consecutive slashes and the length limit. */
  function ValidateRefName(ref: string): (r: Result<string, ValidationError>)
    ensures r.Ok? ==> r.value == ref
    ensures r.Ok? <==>
              && Unterminated(ref) != "" && AllChars(Unterminated(ref), IsRefChar)
              && ref[0] != '-' && !Contains(ref, "//") && |ref| <= MaxRefNameLength
    ensures ref == "" ==> r == Err(Empty)
    ensures r == Err(TooLong) ==> |ref| > MaxRefNameLength
    ensures r == Err(StartsWithDash) ==> ref[0] == '-'
    ensures r == Err(ConsecutiveSlashes) ==> Contains(ref, "//")
  {
    if ref == "" then Err(Empty)
    else if !MatchDollar(ref, IsRefBody) then Err(InvalidCharacters)
    else if StartsWith(ref, "-") then Err(StartsWithDash)
    else if Contains(ref, "//") then Err(ConsecutiveSlashes)
    else if |ref| > MaxRefNameLength then Err(TooLong)
    else Ok(ref)
  }

  // ---- actor and event names -----------------------------------------------------------

  predicate IsActorChar(c: char) { IsAlnum(c) || c == '[' || c == ']' || c == '-' }

  /** `[a-zA-Z0-9][a-zA-Z0-9\[\]-]{0,38}` matched in full. */
  predicate IsActorBody(t: string) {
    1 <= |t| <= 39 && IsAlnum(t[0]) && AllChars(t[1..], IsActorChar)
  }

  /** `validate_actor_name`: 1 to 39 characters, starting alphanumeric, then
      alphanumerics, dashes and square brackets (`dependabot[bot]`). */
  function ValidateActorName(actor: string): (r: Result<string, ValidationError>)
    ensures r.Ok? ==> r.value == actor
    ensures r.Ok? <==> var t := Unterminated(actor);
                       1 <= |t| <= 39 && IsAlnum(t[0]) && forall i :: 0 < i < |t| ==> IsActorChar(t[i])
    ensures actor == "" ==> r == Err(Empty)
  {
    if actor == "" then Err(Empty)
    else if !MatchDollar(actor, IsActorBody) then Err(InvalidCharacters)
    else Ok(actor)
  }

  predicate IsEventChar(c: char) { IsLower(c) || c == '_' }

  predicate IsEventBody(t: string) { |t| > 0 && AllChars(t, IsEventChar) }

  /** `validate_event_name`: lower-case letters and underscores. The list of known
      event names is consulted only to do nothing, so it does not appear here. */
  function ValidateEventName(event: string): (r: Result<string, ValidationError>)
    ensures r.Ok? ==> r.value == event
    ensures r.Ok? <==> var t := Unterminated(event); t != "" && AllChars(t, IsEventChar)
    ensures event == "" ==> r == Err(Empty)
  {
    if event == "" then Err(Empty)
    else if !MatchDollar(event, IsEventBody) then Err(InvalidCharacters)
    else Ok(event)
  }

  // ---- path components ---------------------------------------------------------------

  /** The dangerous substrings, in the order they are checked. */
  const PathTraversalPatterns: seq<string> := ["..", "~", "$", "`", "\0", "\n", "\r"]

  /** The position in `pats` of the first pattern that occurs in `s`. */
  function FirstContained(s: string, pats: seq<string>): (r: Option<nat>)
    ensures r.None? <==> forall k :: 0 <= k < |pats| ==> !Contains(s, pats[k])
    ensures r.Some? ==> r.value < |pats| && Contains(s, pats[r.value])
                        && forall j :: 0 <= j < r.value ==> !Contains(s, pats[j])
  {
    if |pats| == 0 then None
    else if Contains(s, pats[0]) then Some(0)
    else
      match FirstContained(s, pats[1..])
      case None => None
      case Some(k) => Some(k + 1)
  }

  predicate IsAsciiLetter(c: char) { IsLower(c) || IsUpper(c) }

  /** `sanitize_path_component`: refuses the empty string, any of the dangerous
      substrings (the first one found is reported), an absolute path and a leading
      drive letter. */
  function SanitizePathComponent(c: string): (r: Result<string, ValidationError>)
    ensures r.Ok? ==> r.value == c
    ensures r.Ok? <==>
              && c != ""
              && !Contains(c, "..")
              && '~' !in c && '$' !in c && '`' !in c && '\0' !in c && '\n' !in c && '\r' !in c
              && c[0] != '/'
              && !(|c| >= 2 && IsAsciiLetter(c[0]) && c[1] == ':')
    ensures r.Err? && r.error.DangerousPattern? ==> r.error.pattern in PathTraversalPatterns
  {
    ContainsChar(c, '~');
    ContainsChar(c, '$');
    ContainsChar(c, '`');
    ContainsChar(c, '\0');
    ContainsChar(c, '\n');
    ContainsChar(c, '\r');
    if c == "" then Err(Empty)
    else
      match FirstContained(c, PathTraversalPatterns)
      case Some(k) => Err(DangerousPattern(PathTraversalPatterns[k]))
      case None =>
        assert !Contains(c, PathTraversalPatterns[0]);
        assert !Contains(c, PathTraversalPatterns[1]);
        assert !Contains(c, PathTraversalPatterns[2]);
        assert !Contains(c, PathTraversalPatterns[3]);
        assert !Contains(c, PathTraversalPatterns[4]);
        assert !Contains(c, PathTraversalPatterns[5]);
        assert !Contains(c, PathTraversalPatterns[6]);
        if StartsWith(c, "/") then Err(AbsolutePath)
        else if |c| >= 2 && IsAsciiLetter(c[0]) && c[1] == ':' then Err(DriveLetter)
        else Ok(c)
  }

  /** A substring of a suffix is a substring of the whole. */
  lemma ContainsInSuffix(s: string, j: nat, p: string)
    requires j <= |s| && Contains(s[j..], p)
    ensures Contains(s, p)
  {
    var m := ContainsWitness(s[j..], p);
    assert s[j + m..j + m + |p|] == s[j..][m..m + |p|];
    ContainsAt(s, p, j + m);
  }

  /** A piece of `Split(s, c)` is a substring of `s`. */
  lemma {:induction false} SplitPiecesOccur(s: string, c: char, k: nat)
    requires k < |Split(s, c)|
    ensures Contains(s, Split(s, c)[k])
    decreases |s|
  {
    if c !in s {
      assert s[0..0 + |s|] == s;
      ContainsAt(s, s, 0);
    } else {
      var i := IndexOf(s, c);
      var rest := Split(s[i + 1..], c);
      assert Split(s, c) == [s[..i]] + rest;
      if k == 0 {
        assert s[0..0 + i] == s[..i];
        ContainsAt(s, s[..i], 0);
      } else {
        SplitPiecesOccur(s[i + 1..], c, k - 1);
        ContainsInSuffix(s, i + 1, rest[k - 1]);
      }
    }
  }

  /** A component the sanitiser lets through cannot leave its directory: it is
      relative and none of its `/`-separated segments is `..`. */
  lemma SanitizedComponentStaysInside(c: string)
    requires SanitizePathComponent(c).Ok?
    ensures c[0] != '/'
    ensures forall k :: 0 <= k < |Split(c, '/')| ==> Split(c, '/')[k] != ".."
  {
    forall k | 0 <= k < |Split(c, '/')|
      ensures Split(c, '/')[k] != ".."
    {
      SplitPiecesOccur(c, '/', k);
    }
  }

  // ---- output strings ----------------------------------------------------------------

  /** The control characters output sanitising deletes: everything below a space
      except tab, newline and carriage return, and DEL. */
  predicate IsStrippedControl(c: char) {
    c <= '\U{8}' || c == '\U{b}' || c == '\U{c}' || ('\U{e}' <= c <= '\U{1f}') || c == '\U{7f}'
  }

  /** `s` with every stripped control character deleted, the rest kept in order. */
  function RemoveControls(s: string): (r: string)
    ensures |r| <= |s|
    ensures forall ch :: ch in r <==> ch in s && !IsStrippedControl(ch)
    ensures (forall i :: 0 <= i < |s| ==> !IsStrippedControl(s[i])) ==> r == s
  {
    if |s| == 0 then ""
    else
      var rest := RemoveControls(s[1..]);
      assert forall ch :: ch in s <==> ch == s[0] || ch in s[1..];
      (if IsStrippedControl(s[0]) then "" else [s[0]]) + rest
  }

  /** `sanitize_output_string`: control characters removed, then cut to `maxLength`
      characters with a marker appended when longer. */
  function SanitizeOutputString(value: string, maxLength: nat): (r: string)
    ensures value == "" ==> r == ""
    ensures forall i :: 0 <= i < |r| ==> !IsStrippedControl(r[i])
    ensures |r| <= maxLength + |TruncationMarker|
    ensures |RemoveControls(value)| <= maxLength ==> r == RemoveControls(value)
    ensures |RemoveControls(value)| > maxLength ==> r == RemoveControls(value)[..maxLength] + TruncationMarker
  {
    if value == "" then ""
    else
      var s := RemoveControls(value);
      assert forall i :: 0 <= i < |s| ==> s[i] in s;
      if |s| > maxLength then s[..maxLength] + TruncationMarker else s
  }

  /** Sanitising twice gives the same as sanitising once: a truncated result starts
      with the same `maxLength` characters and so is cut back to itself. */
  lemma SanitizeIdempotent(value: string, maxLength: nat)
    ensures SanitizeOutputString(SanitizeOutputString(value, maxLength), maxLength)
            == SanitizeOutputString(value, maxLength)
  {
    var r := SanitizeOutputString(value, maxLength);
    assert RemoveControls(r) == r;
    if |RemoveControls(value)| > maxLength {
      assert r == r[..maxLength] + TruncationMarker;
    }
  }

  /** A value with no control characters and within the limit is output unchanged. */
  lemma SanitizeClean(value: string, maxLength: nat)
    requires |value| <= maxLength
    requires forall i :: 0 <= i < |value| ==> !IsStrippedControl(value[i])
    ensures SanitizeOutputString(value, maxLength) == value
  {
  }

  // ---- integers ----------------------------------------------------------------------

  /** `validate_integer`: `int(value)` with inclusive optional bounds, the minimum
      checked first. */
  function ValidateInteger(value: string, min: Option<int>, max: Option<int>): (r: Result<int, ValidationError>)
    ensures r.Ok? <==> ParseInt(value).Some?
                       && (min.Some? ==> min.value <= ParseInt(value).value)
                       && (max.Some? ==> ParseInt(value).value <= max.value)
    ensures r.Ok? ==> Some(r.value) == ParseInt(value)
    ensures ParseInt(value).None? ==> r == Err(NotAnInteger)
  {
    match ParseInt(value)
    case None => Err(NotAnInteger)
    case Some(v) =>
      if min.Some? && v < min.value then Err(BelowMinimum(min.value))
      else if max.Some? && v > max.value then Err(AboveMaximum(max.value))
      else Ok(v)
  }

  /** Any integer written the way Python prints it is accepted exactly when it lies in
      the bounds, and comes back as itself. */
  lemma ValidateIntegerOfString(i: int, min: Option<int>, max: Option<int>)
    ensures ValidateInteger(IntToString(i), min, max).Ok?
            <==> (min.Some? ==> min.value <= i) && (max.Some? ==> i <= max.value)
    ensures ValidateInteger(IntToString(i), min, max).Ok? ==> ValidateInteger(IntToString(i), min, max).value == i
  {
    IntToStringRoundTrip(i);
  }
}
