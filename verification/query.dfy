/** The traversal's configuration and the initial request URL built from it
    (`FbAdsLibraryTraversal.__init__` and the URL half of `generate_ad_archives`). */
module Query {
  import opened Results
  import opened Text
  import opened Decimal

  /** An attribute value as the URL builder sees it. `NoAttr` is Python's
      `None` and `False` alike: both are falsy, so neither is ever rendered. */
  datatype Attr = StrAttr(s: string) | IntAttr(n: int) | NoAttr

  /** Python truthiness: a non-empty string or a non-zero integer. */
  predicate Truthy(a: Attr) {
    match a
    case StrAttr(s) => s != ""
    case IntAttr(n) => n != 0
    case NoAttr => false
  }

  /** The value as an f-string writes it. */
  function Render(a: Attr): string {
    match a
    case StrAttr(s) => s
    case IntAttr(n) => IntToText(n)
    case NoAttr => "None"
  }

  /** The attributes that may become query parameters. */
  datatype Param =
    | AccessToken | AdActiveStatus | AdReachedCountries | AdType | Fields
    | Limit | MediaType | SearchPageIds | SearchTerms

  /** The whitelist, in the order the parameters are written into the URL. */
  const UrlParameters: seq<Param> :=
    [AccessToken, AdActiveStatus, AdReachedCountries, AdType, Fields,
     Limit, MediaType, SearchPageIds, SearchTerms]

  function ParamName(p: Param): string {
    match p
    case AccessToken => "access_token"
    case AdActiveStatus => "ad_active_status"
    case AdReachedCountries => "ad_reached_countries"
    case AdType => "ad_type"
    case Fields => "fields"
    case Limit => "limit"
    case MediaType => "media_type"
    case SearchPageIds => "search_page_ids"
    case SearchTerms => "search_terms"
  }

  const DefaultApiVersion := "v20.0"
  const DefaultAfterDate := "1970-01-01"
  const DefaultRetryLimit := 3

  /** The endpoint with the API version filled in; the query follows the `?`. */
  function UrlPattern(version: string): string {
    "https://graph.facebook.com/" + version + "/ads_archive?"
  }

  /** The attributes of a traversal object. `after` is the attribute the
      command line sets for `--after-page-token`; it exists only when set.
      `page_count` is set to 0 and never read, so it is not kept. */
  datatype Config = Config(
    accessToken: Attr,
    fields: Attr,
    searchTerms: Attr,
    adReachedCountries: Attr,
    adType: Attr,
    mediaType: Attr,
    searchPageIds: Attr,
    adActiveStatus: Attr,
    afterDate: string,
    limit: Attr,
    apiVersion: string,
    retryLimit: int,
    after: Option<string>)

  /** The constructor with every argument given; a missing API version becomes
      the default one and any given version is kept as it is. */
  function NewConfig(
    accessToken: Attr, fields: Attr, searchTerms: Attr, adReachedCountries: Attr,
    adType: Attr, mediaType: Attr, searchPageIds: Attr, adActiveStatus: Attr,
    afterDate: string, limit: Attr, apiVersion: Option<string>, retryLimit: int): (t: Config)
    ensures apiVersion.None? ==> t.apiVersion == DefaultApiVersion
    ensures apiVersion.Some? ==> t.apiVersion == apiVersion.value
    ensures t.after.None?
  {
    Config(accessToken, fields, searchTerms, adReachedCountries, adType, mediaType,
              searchPageIds, adActiveStatus, afterDate, limit,
              if apiVersion.None? then DefaultApiVersion else apiVersion.value,
              retryLimit, None)
  }

  /** The constructor called with the four positional arguments only, every
      keyword argument at its default. */
  function DefaultConfig(accessToken: Attr, fields: Attr, searchTerms: Attr, adReachedCountries: Attr): Config {
    NewConfig(accessToken, fields, searchTerms, adReachedCountries,
                 StrAttr("ALL"), StrAttr("ALL"), StrAttr(""), StrAttr("ALL"),
                 DefaultAfterDate, IntAttr(500), None, DefaultRetryLimit)
  }

  /** `getattr(self, param)`. */
  function Get(t: Config, p: Param): Attr {
    match p
    case AccessToken => t.accessToken
    case AdActiveStatus => t.adActiveStatus
    case AdReachedCountries => t.adReachedCountries
    case AdType => t.adType
    case Fields => t.fields
    case Limit => t.limit
    case MediaType => t.mediaType
    case SearchPageIds => t.searchPageIds
    case SearchTerms => t.searchTerms
  }

  /** The parameter (with its rendered value) `p` contributes: one when truthy,
      none otherwise. */
  function Contribution(t: Config, p: Param): seq<(Param, string)> {
    if Truthy(Get(t, p)) then [(p, Render(Get(t, p)))] else []
  }

  /** The parameters the candidates `ps` contribute, in the order of `ps`. */
  function Collect(t: Config, ps: seq<Param>): seq<(Param, string)>
    decreases |ps|
  {
    if |ps| == 0 then [] else Contribution(t, ps[0]) + Collect(t, ps[1..])
  }

  /** The query parameters of the initial URL. */
  function QueryParams(t: Config): seq<(Param, string)> {
    Collect(t, UrlParameters)
  }

  /** `f"{param}={param_value}"` for each parameter. */
  function Pairs(q: seq<(Param, string)>): (r: seq<string>)
    ensures |r| == |q|
    ensures forall i | 0 <= i < |q| :: r[i] == ParamName(q[i].0) + "=" + q[i].1
  {
    if |q| == 0 then [] else [ParamName(q[0].0) + "=" + q[0].1] + Pairs(q[1..])
  }

  function QueryString(t: Config): string {
    Join(Pairs(QueryParams(t)), "&")
  }

  /** The first URL the traversal requests. */
  function InitialUrl(t: Config): string {
    UrlPattern(t.apiVersion) + QueryString(t)
  }

  /** How many of the parameters in `q` are named by `p`. */
  function KeyCount(q: seq<(Param, string)>, p: Param): nat {
    if |q| == 0 then 0 else (if q[0].0 == p then 1 else 0) + KeyCount(q[1..], p)
  }

  predicate NoRepeats(ps: seq<Param>) {
    forall i, j | 0 <= i < j < |ps| :: ps[i] != ps[j]
  }

  lemma KeyCountAppend(a: seq<(Param, string)>, b: seq<(Param, string)>, p: Param)
    requires |a| <= 1
    ensures KeyCount(a + b, p) == KeyCount(a, p) + KeyCount(b, p)
  {
    if |a| == 1 {
      assert (a + b)[1..] == b;
    } else {
      assert a + b == b;
    }
  }

  lemma {:induction false} CollectSpec(t: Config, ps: seq<Param>)
    requires NoRepeats(ps)
    ensures forall p :: KeyCount(Collect(t, ps), p) == (if p in ps && Truthy(Get(t, p)) then 1 else 0)
    ensures forall i | 0 <= i < |Collect(t, ps)| :: Collect(t, ps)[i].1 == Render(Get(t, Collect(t, ps)[i].0))
    ensures IsSubsequence(Firsts(Collect(t, ps)), ps)
    decreases |ps|
  {
    if |ps| > 0 {
      var head := Contribution(t, ps[0]);
      var rest := Collect(t, ps[1..]);
      assert NoRepeats(ps[1..]) by {
        forall i, j | 0 <= i < j < |ps[1..]| ensures ps[1..][i] != ps[1..][j] {
          assert ps[1..][i] == ps[i + 1] && ps[1..][j] == ps[j + 1];
        }
      }
      CollectSpec(t, ps[1..]);
      forall p ensures KeyCount(Collect(t, ps), p) == (if p in ps && Truthy(Get(t, p)) then 1 else 0) {
        KeyCountAppend(head, rest, p);
        assert p in ps <==> p == ps[0] || p in ps[1..];
        assert ps[0] !in ps[1..] by {
          forall j | 0 <= j < |ps[1..]| ensures ps[1..][j] != ps[0] {
            assert ps[1..][j] == ps[j + 1];
          }
        }
      }
      var k := Firsts(head + rest);
      if Truthy(Get(t, ps[0])) {
        assert k[0] == ps[0];
        assert k[1..] == Firsts(rest);
      } else {
        assert head + rest == rest;
        SubsequenceSkip(Firsts(rest), ps);
      }
    }
  }

  /** The whitelist names every parameter, each once. */
  lemma WhitelistComplete()
    ensures NoRepeats(UrlParameters)
    ensures forall p :: p in UrlParameters
  {
    forall p ensures p in UrlParameters {
      match p
      case AccessToken => assert UrlParameters[0] == p;
      case AdActiveStatus => assert UrlParameters[1] == p;
      case AdReachedCountries => assert UrlParameters[2] == p;
      case AdType => assert UrlParameters[3] == p;
      case Fields => assert UrlParameters[4] == p;
      case Limit => assert UrlParameters[5] == p;
      case MediaType => assert UrlParameters[6] == p;
      case SearchPageIds => assert UrlParameters[7] == p;
      case SearchTerms => assert UrlParameters[8] == p;
    }
  }

  /** The query holds one `name=value` pair per truthy whitelisted attribute
      and none for a falsy one; each pair carries the attribute's rendered
      value; and the pairs follow the whitelist order. */
  lemma QueryParamsExact(t: Config)
    ensures forall p :: KeyCount(QueryParams(t), p) == (if Truthy(Get(t, p)) then 1 else 0)
    ensures forall i | 0 <= i < |QueryParams(t)| ::
      Pairs(QueryParams(t))[i] == ParamName(QueryParams(t)[i].0) + "=" + Render(Get(t, QueryParams(t)[i].0))
    ensures IsSubsequence(Firsts(QueryParams(t)), UrlParameters)
  {
    WhitelistComplete();
    CollectSpec(t, UrlParameters);
  }

  lemma {:induction false} CollectDependsOnlyOnParams(t1: Config, t2: Config, ps: seq<Param>)
    requires forall p :: Get(t1, p) == Get(t2, p)
    ensures Collect(t1, ps) == Collect(t2, ps)
    decreases |ps|
  {
    if |ps| > 0 {
      CollectDependsOnlyOnParams(t1, t2, ps[1..]);
    }
  }

  /** Only the API version and the whitelisted attributes shape the URL: two
      traversals that agree on those request the same URL first, whatever
      their cutoff date, retry limit or `after` token. */
  lemma InitialUrlDependsOnlyOnWhitelist(t1: Config, t2: Config)
    requires t1.apiVersion == t2.apiVersion
    requires forall p :: Get(t1, p) == Get(t2, p)
    ensures InitialUrl(t1) == InitialUrl(t2)
  {
    CollectDependsOnlyOnParams(t1, t2, UrlParameters);
  }

  /** In particular the `after` token set from the command line never reaches
      the request URL, and neither do the cutoff date and the retry limit. */
  lemma AfterTokenNeverSent(t: Config, after: Option<string>, afterDate: string, retryLimit: int)
    ensures InitialUrl(t.(after := after, afterDate := afterDate, retryLimit := retryLimit)) == InitialUrl(t)
  {
    InitialUrlDependsOnlyOnWhitelist(t.(after := after, afterDate := afterDate, retryLimit := retryLimit), t);
  }

  lemma {:induction false} CollectEntries(t: Config, ps: seq<Param>)
    ensures forall e | e in Collect(t, ps) :: Truthy(Get(t, e.0)) && e.1 == Render(Get(t, e.0))
    ensures forall p | p in ps && Truthy(Get(t, p)) :: (p, Render(Get(t, p))) in Collect(t, ps)
    ensures forall p | p !in ps || !Truthy(Get(t, p)) :: KeyCount(Collect(t, ps), p) == 0
    decreases |ps|
  {
    if |ps| > 0 {
      CollectEntries(t, ps[1..]);
      forall p ensures KeyCount(Collect(t, ps), p) == KeyCount(Contribution(t, ps[0]), p) + KeyCount(Collect(t, ps[1..]), p) {
        KeyCountAppend(Contribution(t, ps[0]), Collect(t, ps[1..]), p);
      }
      assert forall p | p in ps :: p == ps[0] || p in ps[1..];
    }
  }

  lemma NameHasNoAmpersand(p: Param)
    ensures '&' !in ParamName(p)
  {
  }


  /** The query splits back on `&` into its `name=value` pairs when no rendered
      value contains `&` (values are not percent-encoded). */
  lemma QueryStringSplits(t: Config)
    requires |QueryParams(t)| > 0
    requires forall p :: Truthy(Get(t, p)) ==> '&' !in Render(Get(t, p))
    ensures Split(QueryString(t), '&') == Pairs(QueryParams(t))
  {
    var q := QueryParams(t);
    CollectEntries(t, UrlParameters);
    forall i | 0 <= i < |q| ensures '&' !in Pairs(q)[i] {
      assert q[i] in q;
      NameHasNoAmpersand(q[i].0);
      assert Pairs(q)[i] == ParamName(q[i].0) + "=" + q[i].1;
    }
    SplitJoin(Pairs(q), '&');
  }

  lemma DefaultLimitText()
    ensures IntToText(500) == "500"
  {
    assert NatToText(5) == "5";
    assert NatToText(50) == "50";
  }

  /** With every keyword argument at its default, the request asks for all ad
      types, media types and statuses, 500 ads per page, on API version v20.0,
      and sends no page-id filter. */
  lemma DefaultQuery(accessToken: Attr, fields: Attr, searchTerms: Attr, adReachedCountries: Attr)
    ensures var t := DefaultConfig(accessToken, fields, searchTerms, adReachedCountries);
      && t.apiVersion == DefaultApiVersion
      && (AdType, "ALL") in QueryParams(t)
      && (MediaType, "ALL") in QueryParams(t)
      && (AdActiveStatus, "ALL") in QueryParams(t)
      && (Limit, "500") in QueryParams(t)
      && KeyCount(QueryParams(t), SearchPageIds) == 0
  {
    var t := DefaultConfig(accessToken, fields, searchTerms, adReachedCountries);
    var q := QueryParams(t);
    WhitelistComplete();
    CollectEntries(t, UrlParameters);
    assert AdType in UrlParameters && MediaType in UrlParameters;
    assert AdActiveStatus in UrlParameters && Limit in UrlParameters;
    assert (AdType, Render(Get(t, AdType))) in q;
    assert (MediaType, Render(Get(t, MediaType))) in q;
    assert (AdActiveStatus, Render(Get(t, AdActiveStatus))) in q;
    assert Get(t, Limit) == IntAttr(500);
    DefaultLimitText();
    assert (Limit, Render(Get(t, Limit))) in q;
    assert !Truthy(Get(t, SearchPageIds));
  }

  /** The URL-building loop of `generate_ad_archives`: visit the whitelist in
      order, append `name=value` for each truthy attribute, join with `&`. */
  method BuildInitialUrl(t: Config) returns (url: string)
    ensures url == InitialUrl(t)
  {
    url := UrlPattern(t.apiVersion);
    var paramsToAdd: seq<string> := [];
    for i := 0 to |UrlParameters|
      invariant paramsToAdd == Pairs(Collect(t, UrlParameters[..i]))
    {
      var param := UrlParameters[i];
      var paramValue := Get(t, param);
      CollectSnoc(t, UrlParameters[..i], param);
      PairsAppend(Collect(t, UrlParameters[..i]), Contribution(t, param));
      assert UrlParameters[..i + 1] == UrlParameters[..i] + [param];
      if Truthy(paramValue) {
        paramsToAdd := paramsToAdd + [ParamName(param) + "=" + Render(paramValue)];
      }
    }
    assert UrlParameters[..|UrlParameters|] == UrlParameters;
    url := url + Join(paramsToAdd, "&");
  }

  lemma {:induction false} CollectSnoc(t: Config, ps: seq<Param>, p: Param)
    ensures Collect(t, ps + [p]) == Collect(t, ps) + Contribution(t, p)
    decreases |ps|
  {
    if |ps| == 0 {
      assert Collect(t, [p]) == Contribution(t, p) + Collect(t, []);
    } else {
      assert (ps + [p])[1..] == ps[1..] + [p];
      CollectSnoc(t, ps[1..], p);
    }
  }

  lemma {:induction false} PairsAppend(a: seq<(Param, string)>, b: seq<(Param, string)>)
    ensures Pairs(a + b) == Pairs(a) + Pairs(b)
    decreases |a|
  {
    if |a| == 0 {
      assert a + b == b;
    } else {
      assert (a + b)[1..] == a[1..] + b;
      PairsAppend(a[1..], b);
    }
  }
}
