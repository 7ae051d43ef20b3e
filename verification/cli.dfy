/** The command-line front end: validation of the `--country` and `--fields`
    arguments, the traversal configured from the options, and the choice of
    the operator that consumes it. */
module Cli {
  import opened Results
  import opened Text
  import opened Values
  import opened Query
  import opened Traversal
  import opened Operators

  // ---------------------------------------------------------------------
  // --country
  // ---------------------------------------------------------------------

  predicate NotBlank(s: string) {
    !IsBlank(s)
  }

  /** The comma-separated pieces that `strip()` leaves non-empty; the pieces
      themselves are kept unstripped. */
  function CountryPieces(input: string): (r: seq<string>)
    ensures forall i | 0 <= i < |r| :: !IsBlank(r[i]) && ',' !in r[i]
  {
    Filter(Split(input, ','), NotBlank)
  }

  /** The code of every piece, when each piece has one. */
  function CountryCodes(pieces: seq<string>, countryCode: string -> Option<string>): (codes: seq<string>)
    requires forall i | 0 <= i < |pieces| :: countryCode(pieces[i]).Some?
    ensures |codes| == |pieces|
    ensures forall i | 0 <= i < |pieces| :: Some(codes[i]) == countryCode(pieces[i])
  {
    if |pieces| == 0 then []
    else [countryCode(pieces[0]).value] + CountryCodes(pieces[1..], countryCode)
  }

  /** The pieces without a code, each once, in order of first appearance: the
      keys of the `invalid_inputs` dictionary. */
  function UnknownCountries(pieces: seq<string>, countryCode: string -> Option<string>): (r: seq<string>)
    ensures forall i | 0 <= i < |r| :: r[i] in pieces && countryCode(r[i]).None?
    ensures forall i | 0 <= i < |pieces| :: countryCode(pieces[i]).None? ==> pieces[i] in r
    ensures forall i, j | 0 <= i < j < |r| :: r[i] != r[j]
  {
    var unknown := Filter(pieces, (p: string) => countryCode(p).None?);
    forall i | 0 <= i < |pieces| && countryCode(pieces[i]).None? ensures pieces[i] in unknown {
      FilterKeeps(pieces, (p: string) => countryCode(p).None?, i);
    }
    forall i | 0 <= i < |unknown| ensures unknown[i] in pieces {
      assert unknown[i] in multiset(unknown);
    }
    Distinct(unknown)
  }

  /** `validate_country_param`, with the country lookup passed in: the empty
      argument passes as empty; otherwise the codes of the non-blank pieces,
      comma-joined, or the argument error naming every unknown piece. */
  function ValidateCountry(input: string, countryCode: string -> Option<string>): (r: Result<string, string>)
    ensures input == "" ==> r == Ok("")
    ensures input != "" && |CountryPieces(input)| == 0 ==> r == Err("Country cannot be empty")
    ensures input != "" ==>
      (r.Ok? <==> |CountryPieces(input)| > 0
                  && forall i | 0 <= i < |CountryPieces(input)| :: countryCode(CountryPieces(input)[i]).Some?)
    ensures input != "" && r.Err? && |CountryPieces(input)| > 0 ==>
      r.error == "Invalid/unsupported country code: " + Join(UnknownCountries(CountryPieces(input), countryCode), ",")
  {
    if input == "" then Ok("")
    else
      var pieces := CountryPieces(input);
      if |pieces| == 0 then Err("Country cannot be empty")
      else
        var unknown := UnknownCountries(pieces, countryCode);
        if |unknown| > 0 then Err("Invalid/unsupported country code: " + Join(unknown, ","))
        else Ok(Join(CountryCodes(pieces, countryCode), ","))
  }

  /** The accepted value splits back into the codes of the pieces, in the order
      the pieces were given, when no code contains a comma. */
  lemma CountryCodesRoundTrip(input: string, countryCode: string -> Option<string>)
    requires input != "" && ValidateCountry(input, countryCode).Ok?
    requires forall i | 0 <= i < |CountryPieces(input)| ::
      countryCode(CountryPieces(input)[i]).Some? && ',' !in countryCode(CountryPieces(input)[i]).value
    ensures var codes := Split(ValidateCountry(input, countryCode).value, ',');
      && |codes| == |CountryPieces(input)|
      && forall i | 0 <= i < |codes| :: Some(codes[i]) == countryCode(CountryPieces(input)[i])
  {
    var codes := CountryCodes(CountryPieces(input), countryCode);
    SplitJoin(codes, ',');
  }

  // ---------------------------------------------------------------------
  // --fields
  // ---------------------------------------------------------------------

  /** `filter(lambda x: x, map(lambda x: x.strip(), parts))`: each piece
      stripped, the empty ones dropped. */
  function StrippedPieces(parts: seq<string>): (r: seq<string>)
    ensures forall i | 0 <= i < |r| :: Trimmed(r[i])
    decreases |parts|
  {
    if |parts| == 0 then []
    else
      var p := Strip(parts[0]);
      var rest := StrippedPieces(parts[1..]);
      if p == "" then rest
      else
        StripNonEmpty(parts[0]);
        [p] + rest
  }

  /** `map(lambda x: x.strip(), parts)`. */
  function StripEach(parts: seq<string>): (r: seq<string>)
    ensures |r| == |parts|
    ensures forall i | 0 <= i < |parts| :: r[i] == Strip(parts[i])
  {
    if |parts| == 0 then [] else [Strip(parts[0])] + StripEach(parts[1..])
  }

  predicate NonEmpty(s: string) {
    s != ""
  }

  /** The pieces kept are exactly the non-empty stripped pieces, in order and
      with repeats: the `filter` over the `map`. */
  lemma {:induction false} StrippedPiecesFilter(parts: seq<string>)
    ensures StrippedPieces(parts) == Filter(StripEach(parts), NonEmpty)
    decreases |parts|
  {
    if |parts| > 0 {
      var s := StripEach(parts);
      StrippedPiecesFilter(parts[1..]);
      assert s[1..] == StripEach(parts[1..]);
      assert s[0] == Strip(parts[0]);
    }
  }

  /** Stripping brings in no character the pieces did not already hold. */
  lemma {:induction false} StrippedPiecesDropOnly(parts: seq<string>, c: char)
    requires forall i | 0 <= i < |parts| :: c !in parts[i]
    ensures forall i | 0 <= i < |StrippedPieces(parts)| :: c !in StrippedPieces(parts)[i]
    decreases |parts|
  {
    if |parts| > 0 {
      var p := Strip(parts[0]);
      var rest := StrippedPieces(parts[1..]);
      assert c !in parts[0];
      StripDropsOnly(parts[0], c);
      StrippedPiecesDropOnly(parts[1..], c);
      if p != "" {
        assert StrippedPieces(parts) == [p] + rest;
        forall i | 0 <= i < |rest| + 1 ensures c !in ([p] + rest)[i] {
          if i > 0 {
            assert ([p] + rest)[i] == rest[i - 1];
          }
        }
      }
    }
  }

  /** Pieces already stripped and non-empty come through unchanged. */
  lemma {:induction false} StrippedPiecesFixed(parts: seq<string>)
    requires forall i | 0 <= i < |parts| :: Trimmed(parts[i])
    ensures StrippedPieces(parts) == parts
    decreases |parts|
  {
    if |parts| > 0 {
      StripTrimmed(parts[0]);
      StrippedPiecesFixed(parts[1..]);
    }
  }

  /** The stripped, non-empty comma-separated pieces. */
  function FieldPieces(input: string): (r: seq<string>)
    ensures forall i | 0 <= i < |r| :: Trimmed(r[i]) && ',' !in r[i]
  {
    StrippedPiecesDropOnly(Split(input, ','), ',');
    StrippedPieces(Split(input, ','))
  }

  /** The pieces the field check rejects, repeats included, in order. */
  function UnsupportedFields(pieces: seq<string>, isValid: string -> bool): (r: seq<string>)
    ensures forall i | 0 <= i < |r| :: !isValid(r[i])
    ensures forall i | 0 <= i < |pieces| :: !isValid(pieces[i]) ==> pieces[i] in r
    ensures forall x :: multiset(r)[x] == if isValid(x) then 0 else multiset(pieces)[x]
    ensures IsSubsequence(r, pieces)
  {
    var r := Filter(pieces, (f: string) => !isValid(f));
    forall i | 0 <= i < |pieces| && !isValid(pieces[i]) ensures pieces[i] in r {
      FilterKeeps(pieces, (f: string) => !isValid(f), i);
    }
    r
  }

  /** No field is rejected exactly when every piece passes the check. */
  lemma NoneUnsupported(pieces: seq<string>, isValid: string -> bool)
    ensures |UnsupportedFields(pieces, isValid)| == 0 <==> forall i | 0 <= i < |pieces| :: isValid(pieces[i])
  {
    var r := UnsupportedFields(pieces, isValid);
    if |r| > 0 {
      assert !isValid(r[0]);
      assert r[0] in multiset(r);
    }
  }

  /** `validate_fields_param`, with the field check passed in: the empty
      argument becomes `False` (here `None`); otherwise the stripped non-empty
      pieces comma-joined, or the argument error listing the unsupported ones
      (repeats included, in order). */
  function ValidateFields(input: string, isValid: string -> bool): (r: Result<Option<string>, string>)
    ensures input == "" <==> r == Ok(None)
    ensures input != "" && |FieldPieces(input)| == 0 ==> r == Err("Fields cannot be empty")
    ensures input != "" ==>
      (r.Ok? <==> |FieldPieces(input)| > 0
                  && forall i | 0 <= i < |FieldPieces(input)| :: isValid(FieldPieces(input)[i]))
    ensures input != "" && r.Err? && |FieldPieces(input)| > 0 ==>
      r.error == "Unsupported fields: " + Join(UnsupportedFields(FieldPieces(input), isValid), ",")
    ensures r.Ok? && r.value.Some? ==> Split(r.value.value, ',') == FieldPieces(input)
  {
    if input == "" then Ok(None)
    else
      var pieces := FieldPieces(input);
      if |pieces| == 0 then Err("Fields cannot be empty")
      else
        var invalid := UnsupportedFields(pieces, isValid);
        NoneUnsupported(pieces, isValid);
        if |invalid| == 0 then
          SplitJoin(pieces, ',');
          Ok(Some(Join(pieces, ",")))
        else Err("Unsupported fields: " + Join(invalid, ","))
  }

  /** An accepted field list is accepted again unchanged: the normal form is a
      fixed point of the validation. */
  lemma ValidateFieldsIdempotent(input: string, isValid: string -> bool)
    ensures var r := ValidateFields(input, isValid);
      r.Ok? && r.value.Some? ==> ValidateFields(r.value.value, isValid) == Ok(Some(r.value.value))
  {
    if !(ValidateFields(input, isValid).Ok? && ValidateFields(input, isValid).value.Some?) {
      return;
    }
    var pieces := FieldPieces(input);
    var f := Join(pieces, ",");
    assert ValidateFields(input, isValid) == Ok(Some(f));
    assert Trimmed(pieces[0]);
    assert f != "" by {
      if |pieces| > 1 {
        assert f == pieces[0] + "," + Join(pieces[1..], ",");
      }
    }
    StrippedPiecesFixed(pieces);
    assert FieldPieces(f) == pieces;
  }

  // ---------------------------------------------------------------------
  // main
  // ---------------------------------------------------------------------

  /** The parsed command line. Options without a default are `None` when not
      given; the others always hold a value (argparse's defaults are "ALL" for
      the three status and type options, 250 for the batch size and 3 for the
      retry limit). */
  datatype Options = Options(
    accessToken: Option<string>,
    fields: string,
    searchTerms: Option<string>,
    country: string,
    searchPageIds: Option<string>,
    adActiveStatus: string,
    adType: string,
    mediaType: string,
    afterDate: Option<string>,
    afterPageToken: Option<string>,
    batchSize: int,
    retryLimit: int,
    action: string,
    args: seq<string>)

  /** Given and truthy. */
  predicate Given(o: Option<string>) {
    o.Some? && o.value != ""
  }

  /** The access token: the environment's when it is set and non-empty,
      otherwise the `--access-token` option, possibly absent. */
  function AccessTokenOf(envToken: Option<string>, option: Option<string>): (a: Attr)
    ensures Given(envToken) ==> a == StrAttr(envToken.value)
    ensures !Given(envToken) && option.Some? ==> a == StrAttr(option.value)
    ensures !Given(envToken) && option.None? ==> a == NoAttr
  {
    if Given(envToken) then StrAttr(envToken.value)
    else if option.Some? then StrAttr(option.value)
    else NoAttr
  }

  /** `if option: attribute = option`: a truthy option replaces the value. */
  function Override(option: Attr, current: Attr): (a: Attr)
    ensures Truthy(current) ==> Truthy(a)
  {
    if Truthy(option) then option else current
  }

  /** The traversal `main` builds: the four positional arguments, then each
      option copied over the constructor's default only when it is truthy. */
  function Configure(opts: Options, envToken: Option<string>, fields: Option<string>, country: string): (t: Config)
    ensures t.apiVersion == DefaultApiVersion
    ensures Truthy(t.searchTerms) && Truthy(t.limit)
    ensures Truthy(t.adActiveStatus) && Truthy(t.adType) && Truthy(t.mediaType)
    ensures t.retryLimit != 0
    ensures t.after.Some? <==> Given(opts.afterPageToken)
  {
    var base := DefaultConfig(
      AccessTokenOf(envToken, opts.accessToken),
      if fields.Some? then StrAttr(fields.value) else NoAttr,
      StrAttr(if Given(opts.searchTerms) then opts.searchTerms.value else "."),
      StrAttr(country));
    var pageIds := if Given(opts.searchPageIds) then StrAttr(opts.searchPageIds.value) else base.searchPageIds;
    var status := Override(StrAttr(opts.adActiveStatus), base.adActiveStatus);
    var adType := Override(StrAttr(opts.adType), base.adType);
    var mediaType := Override(StrAttr(opts.mediaType), base.mediaType);
    var limit := Override(IntAttr(opts.batchSize), base.limit);
    var retryLimit := if opts.retryLimit != 0 then opts.retryLimit else base.retryLimit;
    var afterDate := if Given(opts.afterDate) then opts.afterDate.value else base.afterDate;
    var after := if Given(opts.afterPageToken) then Some(opts.afterPageToken.value) else base.after;
    Config(base.accessToken, base.fields, base.searchTerms, base.adReachedCountries,
                    adType, mediaType, pageIds, status, afterDate, limit, base.apiVersion, retryLimit, after)
  }

  /** Each truthy option replaces the constructor's value of its attribute. */
  lemma TruthyOptionsWin(opts: Options, envToken: Option<string>, fields: Option<string>, country: string)
    ensures var t := Configure(opts, envToken, fields, country);
      && t.accessToken == AccessTokenOf(envToken, opts.accessToken)
      && t.fields == (if fields.Some? then StrAttr(fields.value) else NoAttr)
      && t.adReachedCountries == StrAttr(country)
      && (Given(opts.searchTerms) ==> t.searchTerms == StrAttr(opts.searchTerms.value))
      && (Given(opts.searchPageIds) ==> t.searchPageIds == StrAttr(opts.searchPageIds.value))
      && (opts.adActiveStatus != "" ==> t.adActiveStatus == StrAttr(opts.adActiveStatus))
      && (opts.adType != "" ==> t.adType == StrAttr(opts.adType))
      && (opts.mediaType != "" ==> t.mediaType == StrAttr(opts.mediaType))
      && (opts.batchSize != 0 ==> t.limit == IntAttr(opts.batchSize))
      && (opts.retryLimit != 0 ==> t.retryLimit == opts.retryLimit)
      && (Given(opts.afterDate) ==> t.afterDate == opts.afterDate.value)
      && (Given(opts.afterPageToken) ==> t.after == Some(opts.afterPageToken.value))
  {
  }

  /** Each falsy option leaves its attribute at the constructor's value, and
      the API version is always the default one. */
  lemma FalsyOptionsKeepDefaults(opts: Options, envToken: Option<string>, fields: Option<string>, country: string)
    ensures var t := Configure(opts, envToken, fields, country);
      var base := DefaultConfig(t.accessToken, t.fields, t.searchTerms, t.adReachedCountries);
      && t.apiVersion == base.apiVersion
      && (!Given(opts.searchTerms) ==> t.searchTerms == StrAttr("."))
      && (!Given(opts.searchPageIds) ==> t.searchPageIds == base.searchPageIds)
      && (opts.adActiveStatus == "" ==> t.adActiveStatus == base.adActiveStatus)
      && (opts.adType == "" ==> t.adType == base.adType)
      && (opts.mediaType == "" ==> t.mediaType == base.mediaType)
      && (opts.batchSize == 0 ==> t.limit == base.limit)
      && (opts.retryLimit == 0 ==> t.retryLimit == base.retryLimit)
      && (!Given(opts.afterDate) ==> t.afterDate == base.afterDate)
      && (!Given(opts.afterPageToken) ==> t.after == base.after)
  {
  }

  /** `--after-page-token` is stored where the URL builder never looks: the
      first request is the same with or without it. */
  lemma PageTokenNotInFirstRequest(opts: Options, envToken: Option<string>, fields: Option<string>, country: string, token: string)
    ensures InitialUrl(Configure(opts.(afterPageToken := Some(token)), envToken, fields, country))
         == InitialUrl(Configure(opts.(afterPageToken := None), envToken, fields, country))
  {
    var t := Configure(opts.(afterPageToken := None), envToken, fields, country);
    var u := Configure(opts.(afterPageToken := Some(token)), envToken, fields, country);
    assert u == t.(after := u.after);
    AfterTokenNeverSent(t, u.after, t.afterDate, t.retryLimit);
    assert t.(after := u.after, afterDate := t.afterDate, retryLimit := t.retryLimit) == u;
  }

  /** The extension of the file an operator writes. */
  function Extension(op: Operator): string {
    if op == SaveToFile then ".json" else ".csv"
  }

  /** When an operator finishes without raising: the traversal ends normally,
      the file-writing operators got their one argument, `save_to_csv` got a
      field list under which every record's row encodes, and the trending
      action can read every start date. */
  predicate Succeeds(op: Operator, run: Run, args: seq<string>, fields: Option<string>, dumps: Encoder) {
    && run.outcome.Done?
    && (op == CountAds || |args| == 1)
    && (op == SaveToCsv ==> fields.Some? && RowsEncode(Flatten(run.batches), Split(fields.value, ','), dumps))
    && (op == StartTimeTrending ==> StartDateKeys(Flatten(run.batches)).Ok?)
  }

  /** The operator run on the traversal; only `save_to_csv` is also handed the
      validated field list. */
  function Dispatch(op: Operator, run: Run, args: seq<string>, outputPath: string,
                    fields: Option<string>, timestamp: string, dumps: Encoder): (r: Export)
    ensures r.status.Ok? <==> Succeeds(op, run, args, fields, dumps)
    ensures r.status.Ok? ==> r.status.value == |Flatten(run.batches)|
    ensures op != CountAds && |args| != 1 ==> r.file.None? && r.status.Err? && r.status.error.Usage?
    ensures r.file.Some? ==>
      && op != CountAds && |args| == 1
      && r.file.value.path == OutputFilePath(args[0], outputPath, Extension(op), timestamp)
    ensures |args| == 1 && (op == SaveToFile || (op == SaveToCsv && fields.Some?)) ==> r.file.Some?
  {
    match op
    case CountAds => CountAdsOf(run)
    case SaveToFile => SaveToFileOf(run, args, outputPath, timestamp, dumps)
    case SaveToCsv => SaveToCsvOf(run, args, outputPath, fields, timestamp, dumps)
    case StartTimeTrending => StartTimeTrendingOf(run, args, outputPath, timestamp)
  }

  /** How `main` ends. */
  datatype Exit =
    | ArgumentError(message: string)   // argparse rejects an argument (exit status 2)
    | MissingSearch                    // neither search terms nor page ids (exit status 1)
    | InvalidAction(action: string)    // no such operator (exit status 1)
    | Finished(outputPath: string, traversal: Config, run: Run, result: Export)

  /** `main`, with the environment's token, the two lookups, the repository
      root, the two clock readings, the server's responses and the JSON
      encoder passed in. */
  function Main(opts: Options, envToken: Option<string>,
                countryCode: string -> Option<string>, isValid: string -> bool,
                gitRoot: string, dirStamp: string, fileStamp: string,
                responses: seq<Response>, dumps: Encoder): (e: Exit)
    ensures e.ArgumentError? <==>
      ValidateFields(opts.fields, isValid).Err? || ValidateCountry(opts.country, countryCode).Err?
    ensures ValidateFields(opts.fields, isValid).Err? ==> e == ArgumentError(ValidateFields(opts.fields, isValid).error)
    ensures ValidateFields(opts.fields, isValid).Ok? && ValidateCountry(opts.country, countryCode).Err? ==>
      e == ArgumentError(ValidateCountry(opts.country, countryCode).error)
    ensures e.MissingSearch? <==>
      && ValidateFields(opts.fields, isValid).Ok?
      && ValidateCountry(opts.country, countryCode).Ok?
      && !Given(opts.searchTerms) && !Given(opts.searchPageIds)
    ensures e.InvalidAction? <==>
      && ValidateFields(opts.fields, isValid).Ok?
      && ValidateCountry(opts.country, countryCode).Ok?
      && (Given(opts.searchTerms) || Given(opts.searchPageIds))
      && opts.action !in OperatorTable()
    ensures e.InvalidAction? ==> e.action == opts.action
    ensures e.Finished? <==>
      && ValidateFields(opts.fields, isValid).Ok?
      && ValidateCountry(opts.country, countryCode).Ok?
      && (Given(opts.searchTerms) || Given(opts.searchPageIds))
      && opts.action in OperatorTable()
    ensures e.Finished? ==>
      && e.outputPath == gitRoot + "/output/" + dirStamp
      && e.traversal == Configure(opts, envToken, ValidateFields(opts.fields, isValid).value,
                                  ValidateCountry(opts.country, countryCode).value)
      && e.run == GenerateAdArchives(e.traversal, responses)
      && OperatorName(OperatorTable()[opts.action]) == opts.action
      && e.result == Dispatch(OperatorTable()[opts.action], e.run, opts.args, e.outputPath,
                              ValidateFields(opts.fields, isValid).value, fileStamp, dumps)
  {
    match ValidateFields(opts.fields, isValid)
    case Err(m) => ArgumentError(m)
    case Ok(fields) =>
      match ValidateCountry(opts.country, countryCode)
      case Err(m) => ArgumentError(m)
      case Ok(country) =>
        if !Given(opts.searchTerms) && !Given(opts.searchPageIds) then MissingSearch
        else
          var t := Configure(opts, envToken, fields, country);
          var outputPath := gitRoot + "/output/" + dirStamp;
          if opts.action !in OperatorTable() then InvalidAction(opts.action)
          else
            var run := GenerateAdArchives(t, responses);
            Finished(outputPath, t, run,
                     Dispatch(OperatorTable()[opts.action], run, opts.args, outputPath, fields, fileStamp, dumps))
  }

  /** Only `save_to_csv` depends on the field list: every other action gives
      the same export whatever fields were validated. */
  lemma OnlyCsvReadsFields(op: Operator, run: Run, args: seq<string>, outputPath: string,
                           f1: Option<string>, f2: Option<string>, timestamp: string, dumps: Encoder)
    ensures op != SaveToCsv ==>
      Dispatch(op, run, args, outputPath, f1, timestamp, dumps) == Dispatch(op, run, args, outputPath, f2, timestamp, dumps)
  {
  }
}
