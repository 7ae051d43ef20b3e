/** `get_ad_archive_id`: the archive id read out of an ad's snapshot URL with
    the regular expression `/\?id=([0-9]+)`. */
module ArchiveIds {
  import opened Results
  import opened Decimal
  import opened Values

  const IdMarker := "/?id="

  /** The pattern matches at position `p`: the marker, then at least one digit. */
  predicate MatchAt(url: string, p: int) {
    0 <= p && p + |IdMarker| < |url| && url[p..p + |IdMarker|] == IdMarker && IsDigit(url[p + |IdMarker|])
  }

  /** `re.search` tries the positions from left to right: the first position at
      or after `from` where the pattern matches. */
  function LeftmostMatch(url: string, from: nat): (r: Option<nat>)
    ensures r.Some? ==> from <= r.value && MatchAt(url, r.value)
    ensures r.Some? ==> forall q | from <= q < r.value :: !MatchAt(url, q)
    ensures r.None? ==> forall q | from <= q :: !MatchAt(url, q)
    decreases |url| - from
  {
    if from + |IdMarker| >= |url| then None
    else if MatchAt(url, from) then Some(from)
    else LeftmostMatch(url, from + 1)
  }

  /** The end of the run of digits that starts at `i`: `[0-9]+` is greedy. */
  function DigitRunEnd(url: string, i: nat): (k: nat)
    requires i <= |url|
    ensures i <= k <= |url|
    ensures AllDigits(url[i..k])
    ensures k == |url| || !IsDigit(url[k])
    decreases |url| - i
  {
    if i < |url| && IsDigit(url[i]) then DigitRunEnd(url, i + 1) else i
  }

  /** The id in a snapshot URL: the whole digit run after the leftmost marker
      that a digit follows; `None` when there is no such marker. */
  function SnapshotId(url: string): (r: Option<string>)
    ensures r.None? <==> forall q :: !MatchAt(url, q)
    ensures r.Some? ==> |r.value| >= 1 && AllDigits(r.value)
  {
    match LeftmostMatch(url, 0)
    case None => None
    case Some(p) =>
      var start := p + |IdMarker|;
      Some(url[start..DigitRunEnd(url, start)])
  }

  /** When `p` is the leftmost match, the id is the maximal digit run right
      after the marker at `p`. */
  lemma SnapshotIdAtLeftmostMatch(url: string, p: int)
    requires MatchAt(url, p)
    requires forall q | 0 <= q < p :: !MatchAt(url, q)
    ensures SnapshotId(url).Some?
    ensures var id := SnapshotId(url).value;
      && url[p + |IdMarker|..p + |IdMarker| + |id|] == id
      && (p + |IdMarker| + |id| == |url| || !IsDigit(url[p + |IdMarker| + |id|]))
  {
    var m := LeftmostMatch(url, 0);
    assert m.Some?;
    assert m.value == p;
  }

  /** What `get_ad_archive_id` raises instead of returning. */
  datatype IdFault =
    | NoSnapshotUrl     // KeyError: the record has no snapshot URL
    | SnapshotNotText   // TypeError: `re.search` on a non-string
    | NoMatch           // AttributeError: `.group` on the `None` of a failed search

  function ArchiveId(data: Record): (r: Result<string, IdFault>)
    ensures r.Ok? <==> SnapshotUrlField in data && data[SnapshotUrlField].Str?
                       && exists q :: MatchAt(data[SnapshotUrlField].text, q)
    ensures r.Ok? ==> Some(r.value) == SnapshotId(data[SnapshotUrlField].text)
  {
    if SnapshotUrlField !in data then Err(NoSnapshotUrl)
    else match data[SnapshotUrlField]
      case Str(url) =>
        (match SnapshotId(url)
         case None => Err(NoMatch)
         case Some(id) => Ok(id))
      case _ => Err(SnapshotNotText)
  }
}
