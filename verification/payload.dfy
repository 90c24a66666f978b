/** The event payload (the JSON file at `GITHUB_EVENT_PATH`), as the fields the
    extractors read from it, and the pull-request number both the change detector and
    the pull-request extractor derive from `GITHUB_REF` or that payload. */
module EventPayload {
  import opened Wrappers
  import opened Text

  /** A top-level `before`/`after` value: only strings are used. */
  datatype PayloadValue = Str(s: string) | NonString

  /** What the extractors read from the payload. `None` fields are absent (or `null`).
      The whole payload is `None` when the path is unset, the file is missing or it
      cannot be read. */
  datatype Payload = Payload(
    before: Option<PayloadValue>,
    after: Option<PayloadValue>,
    prNumber: Option<int>,
    prCommits: Option<int>,
    inputs: map<string, string>)

  /** The string value of `before`/`after`, as the streaming loop keeps it. */
  function StringField(v: Option<PayloadValue>): (r: Option<string>)
    ensures r.Some? <==> v.Some? && v.value.Str?
    ensures r.Some? ==> v == Some(Str(r.value))
  {
    if v.Some? && v.value.Str? then Some(v.value.s) else None
  }

  const PullRefPrefix := "refs/pull/"

  /** The shape `re.match(r"refs/pull/(\d+)/", ref)` accepts: the prefix, a non-empty
      digit run and a `/` (anything may follow). */
  predicate PullRefShape(ref: string, digits: string) {
    && StartsWith(ref, PullRefPrefix)
    && |digits| > 0 && AllChars(digits, IsDigit)
    && |ref| > |PullRefPrefix| + |digits|
    && ref[|PullRefPrefix|..|PullRefPrefix| + |digits|] == digits
    && ref[|PullRefPrefix| + |digits|] == '/'
  }

  /** The number in a pull-request ref, `None` when the ref does not have the shape. */
  function PrNumberFromRef(ref: string): (r: Option<int>)
    ensures r.Some? <==> exists digits :: PullRefShape(ref, digits)
    ensures forall digits :: PullRefShape(ref, digits) ==> r == Some(DigitsValue(digits))
  {
    if !StartsWith(ref, PullRefPrefix) then None
    else
      var tail := ref[|PullRefPrefix|..];
      var k := DigitRun(tail);
      ShapesAreRuns(ref);
      if k == 0 || k == |tail| || tail[k] != '/' then None
      else
        var digits := tail[..k];
        assert PullRefShape(ref, digits);
        Some(DigitsValue(digits))
  }

  /** Every digit string the pattern can capture is the maximal digit run after the
      prefix, so the capture is unique. */
  lemma ShapesAreRuns(ref: string)
    requires StartsWith(ref, PullRefPrefix)
    ensures forall digits :: PullRefShape(ref, digits) ==>
              var tail := ref[|PullRefPrefix|..];
              DigitRun(tail) == |digits| < |tail| && digits == tail[..|digits|] && tail[|digits|] == '/'
  {
    forall digits | PullRefShape(ref, digits)
      ensures var tail := ref[|PullRefPrefix|..];
              DigitRun(tail) == |digits| < |tail| && digits == tail[..|digits|] && tail[|digits|] == '/'
    {
      var tail := ref[|PullRefPrefix|..];
      assert tail[..|digits|] == digits;
      DigitRunAt(tail, |digits|);
    }
  }

  /** A ref written as `refs/pull/<n>/<rest>` gives back `n`. */
  lemma PrNumberFromRefOf(n: nat, rest: string)
    ensures PrNumberFromRef(PullRefPrefix + NatToString(n) + "/" + rest) == Some(n)
  {
    var d := NatToString(n);
    var ref := PullRefPrefix + d + "/" + rest;
    assert ref[|PullRefPrefix|..|PullRefPrefix| + |d|] == d;
    assert PullRefShape(ref, d);
    NatToStringValue(n);
  }

  /** `_get_pr_number`/`_extract_pr_number`: the number in `GITHUB_REF` when it has the
      pull-request shape; otherwise the payload's `pull_request.number` when truthy. A
      ref number is returned even when it is 0. */
  function PrNumber(ref: Option<string>, payload: Option<Payload>): (r: Option<int>)
    ensures Truthy(ref) && PrNumberFromRef(ref.value).Some? ==> r == PrNumberFromRef(ref.value)
    ensures !(Truthy(ref) && PrNumberFromRef(ref.value).Some?) ==>
              (r.Some? <==> payload.Some? && payload.value.prNumber.Some? && payload.value.prNumber.value != 0)
    ensures r.Some? && !(Truthy(ref) && PrNumberFromRef(ref.value).Some?) ==> r == payload.value.prNumber
  {
    if Truthy(ref) && PrNumberFromRef(ref.value).Some? then PrNumberFromRef(ref.value)
    else if payload.Some? && payload.value.prNumber.Some? && payload.value.prNumber.value != 0 then
      payload.value.prNumber
    else None
  }
}
