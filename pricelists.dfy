/**
  Resolving and storing the price lists of one (region, service) pair
  (fetch_aws_pricelists.py: list_price_list, get_price_list_url,
  get_price_list_as_json, get_price_list_as_csv, store_raw_price_list).

  The Pricing API and the HTTP transport are not called: each is a function
  of the request and of the attempt number within one retrying call, so
  every sequence of answers (including throttling, connection failures and
  pages that fail half way) is a possible environment.
 */
module PriceLists {
  import opened Common
  import opened Pagination
  import opened Retry
  import opened Text

  /** A price list as list_price_lists describes it, plus the two keys the script sets on it. */
  datatype PriceListEntry = PriceListEntry(arn: string, serviceCode: Option<string>, url: Option<string>)

  /** The parameters of a list_price_lists request. */
  datatype ListRequest = ListRequest(serviceCode: string, effectiveDate: string, regionCode: string, currencyCode: string)

  /** The parameters of a get_price_list_file_url request. */
  datatype UrlRequest = UrlRequest(priceListArn: string, fileFormat: string)

  /** An HTTP GET: the URL (None when the Pricing API gave no `Url`), the JSON Accept header, the timeout. */
  datatype HttpRequest = HttpRequest(url: Option<string>, acceptJson: bool, timeout: nat)

  /** A decoded JSON document. */
  datatype Json =
    | JNull
    | JBool(b: bool)
    | JNumber(literal: string)
    | JString(s: string)
    | JArray(items: seq<Json>)
    | JObject(members: seq<(string, Json)>)

  /**
    The collaborators. listPriceLists gives the pages of one pass over the
    paginator; getJson and getText stand for `requests.get` followed by
    `r.json()` or `r.content.decode('utf-8')`.
   */
  datatype PricingEnv = PricingEnv(
    listPriceLists: (ListRequest, nat) -> seq<Outcome<seq<PriceListEntry>>>,
    getPriceListFileUrl: (UrlRequest, nat) -> Outcome<Option<string>>,
    getJson: (HttpRequest, nat) -> Outcome<Json>,
    getText: (HttpRequest, nat) -> Outcome<string>)

  /** `max_retry = 3` in list_price_list and get_price_list_url. */
  const PRICING_MAX_RETRY: nat := 3
  /** The defaults `timeout=2, retry=3` of the two download functions, which store_raw_price_list keeps. */
  const HTTP_TIMEOUT: nat := 2
  const HTTP_RETRY: nat := 3

  // ----- list_price_list -----

  /** `price_list['ServiceCode'] = service_code` on every entry. */
  function Stamp(entries: seq<PriceListEntry>, service: string): (r: seq<PriceListEntry>)
    ensures |r| == |entries|
    ensures forall i :: 0 <= i < |r| ==> r[i] == entries[i].(serviceCode := Some(service))
  {
    if entries == [] then []
    else Stamp(entries[..|entries| - 1], service) + [entries[|entries| - 1].(serviceCode := Some(service))]
  }

  function StampOutcome(o: Outcome<seq<PriceListEntry>>, service: string): Outcome<seq<PriceListEntry>>
  {
    match o
    case Raised(e) => Raised(e)
    case Returned(entries) => Returned(Stamp(entries, service))
  }

  /** Stamping a concatenation stamps each part. */
  lemma {:induction false} StampConcat(a: seq<PriceListEntry>, b: seq<PriceListEntry>, service: string)
    ensures Stamp(a + b, service) == Stamp(a, service) + Stamp(b, service)
  {
    var l := Stamp(a + b, service);
    var r := Stamp(a, service) + Stamp(b, service);
    forall i | 0 <= i < |l|
      ensures l[i] == r[i]
    {
      if i < |a| {
        assert (a + b)[i] == a[i];
      } else {
        assert (a + b)[i] == b[i - |a|];
      }
    }
  }

  /** The inner loop `for price_list in page['PriceLists']`: each entry stamped and appended. */
  method AppendStamped(acc: seq<PriceListEntry>, page: seq<PriceListEntry>, service: string)
    returns (r: seq<PriceListEntry>)
    ensures r == acc + Stamp(page, service)
  {
    r := acc;
    var j := 0;
    while j < |page|
      invariant 0 <= j <= |page|
      invariant r == acc + Stamp(page[..j], service)
    {
      assert page[..j + 1][..j] == page[..j];
      r := r + [page[j].(serviceCode := Some(service))];
      j := j + 1;
    }
    assert page[..j] == page;
  }

  /** A list_price_list call: the environment and the request it sends. */
  datatype ListCall = ListCall(env: PricingEnv, request: ListRequest)

  /** One pass of list_price_list's `try` block: a fresh list filled from every page. */
  function ListAttempt(call: ListCall, k: nat): Outcome<seq<PriceListEntry>>
  {
    StampOutcome(Gather(call.env.listPriceLists(call.request, k)), call.request.serviceCode)
  }

  function ListSpec(env: PricingEnv, request: ListRequest): Trace<seq<PriceListEntry>>
  {
    RetrySpec(ListAttempt, ListCall(env, request), CatchClientError, PRICING_MAX_RETRY)
  }

  /** The nested loops over pages and their `PriceLists`, stamping each entry. */
  method PaginatePriceLists(pages: seq<Outcome<seq<PriceListEntry>>>, service: string)
    returns (r: Outcome<seq<PriceListEntry>>)
    ensures r == StampOutcome(Gather(pages), service)
  {
    var priceLists: seq<PriceListEntry> := [];
    var i := 0;
    while i < |pages|
      invariant 0 <= i <= |pages|
      invariant Gather(pages[..i]).Returned?
      invariant priceLists == Stamp(Gather(pages[..i]).value, service)
    {
      assert pages[..i + 1][..i] == pages[..i];
      match pages[i] {
        case Raised(e) =>
          GatherKeepsFailure(pages, i + 1);
          return Raised(e);
        case Returned(page) =>
          StampConcat(Gather(pages[..i]).value, page, service);
          priceLists := AppendStamped(priceLists, page, service);
      }
      i := i + 1;
    }
    assert pages[..i] == pages;
    r := Returned(priceLists);
  }

  /**
    list_price_list: its retry loop around the paginated listing. The result
    is the retry policy applied to whole passes over the paginator, and every
    entry it returns carries the requested service code.
   */
  method ListPriceList(env: PricingEnv, serviceCode: string, region: string, currency: string, date: string)
    returns (r: Outcome<seq<PriceListEntry>>, sleeps: seq<nat>, attempts: nat)
    ensures Trace(r, sleeps, attempts) == ListSpec(env, ListRequest(serviceCode, date, region, currency))
  {
    var call := ListCall(env, ListRequest(serviceCode, date, region, currency));
    var count := 0;
    sleeps := [];
    while true
      invariant count <= PRICING_MAX_RETRY + 1
      invariant forall j :: 0 <= j < count ==> Transient(CatchClientError, ListAttempt(call, j))
      invariant sleeps == Backoff(count)
      decreases PRICING_MAX_RETRY + 1 - count
    {
      var outcome := PaginatePriceLists(env.listPriceLists(call.request, count), serviceCode);
      assert outcome == ListAttempt(call, count);
      if outcome.Returned? || !Catches(CatchClientError, outcome.error) {
        RetryStopsAt(ListAttempt, call, CatchClientError, PRICING_MAX_RETRY, count);
        r, attempts := outcome, count + 1;
        break;
      }
      if count > PRICING_MAX_RETRY {
        RetryExhausted(ListAttempt, call, CatchClientError, PRICING_MAX_RETRY);
        r, attempts := outcome, count + 1;
        break;
      }
      count := count + 1;
      sleeps := sleeps + [2 * count];
    }
  }

  /**
    The listing makes at most max_retry + 2 passes with the usual backoff, and
    whatever pass it settles on, each entry it returns names the requested
    service.
   */
  lemma ListSpecShape(env: PricingEnv, request: ListRequest)
    ensures var t := ListSpec(env, request);
      && 1 <= t.attempts <= PRICING_MAX_RETRY + 2 && t.sleeps == Backoff(t.attempts - 1)
      && (t.result.Returned? ==> forall e :: e in t.result.value ==> e.serviceCode == Some(request.serviceCode))
  {
    var call := ListCall(env, request);
    RetryShape(ListAttempt, call, CatchClientError, PRICING_MAX_RETRY);
    var r := ListSpec(env, request).result;
    if r.Returned? {
      var o := Gather(env.listPriceLists(request, ListSpec(env, request).attempts - 1));
      assert r == StampOutcome(o, request.serviceCode);
      forall e | e in r.value
        ensures e.serviceCode == Some(request.serviceCode)
      {
        var i :| 0 <= i < |r.value| && r.value[i] == e;
      }
    }
  }

  /**
    The listing returns the entries of the first pass that got through every
    page, stamped with the service code, and nothing gathered by passes that
    were throttled half way.
   */
  lemma ListPriceListFromSuccessfulPass(env: PricingEnv, request: ListRequest, k: nat)
    requires k <= PRICING_MAX_RETRY + 1
    requires forall j :: 0 <= j < k ==> Transient(CatchClientError, ListAttempt(ListCall(env, request), j))
    requires AllDelivered(env.listPriceLists(request, k))
    ensures ListSpec(env, request).result == Returned(Stamp(Flatten(Values(env.listPriceLists(request, k))), request.serviceCode))
    ensures ListSpec(env, request).sleeps == Backoff(k)
  {
    GatherDelivered(env.listPriceLists(request, k));
    RetryStopsAt(ListAttempt, ListCall(env, request), CatchClientError, PRICING_MAX_RETRY, k);
  }

  /** No pages, or only empty pages, on the first pass: an empty list, not an error. */
  lemma ListPriceListEmpty(env: PricingEnv, request: ListRequest)
    requires forall i :: 0 <= i < |env.listPriceLists(request, 0)| ==> env.listPriceLists(request, 0)[i] == Returned([])
    ensures ListSpec(env, request).result == Returned([])
    ensures ListSpec(env, request).attempts == 1
  {
    GatherEmptyPages(env.listPriceLists(request, 0));
    RetryStopsAt(ListAttempt, ListCall(env, request), CatchClientError, PRICING_MAX_RETRY, 0);
  }

  // ----- get_price_list_url, get_price_list_as_json, get_price_list_as_csv -----

  /** get_price_list_url: `Url` of get_price_list_file_url, retried on ClientError, at most 5 attempts. */
  method GetPriceListUrl(env: PricingEnv, priceListArn: string, fileFormat: string)
    returns (url: Outcome<Option<string>>, sleeps: seq<nat>, attempts: nat)
    ensures Trace(url, sleeps, attempts) == RetrySpec(env.getPriceListFileUrl, UrlRequest(priceListArn, fileFormat), CatchClientError, PRICING_MAX_RETRY)
    ensures TraceShape(Trace(url, sleeps, attempts), env.getPriceListFileUrl, UrlRequest(priceListArn, fileFormat), CatchClientError, PRICING_MAX_RETRY)
  {
    url, sleeps, attempts := RetryLoop(env.getPriceListFileUrl, UrlRequest(priceListArn, fileFormat), CatchClientError, PRICING_MAX_RETRY);
  }

  /** get_price_list_as_json: a GET with `Accept: application/json`, retried on ConnectionError only. */
  method GetPriceListAsJson(env: PricingEnv, url: Option<string>, timeout: nat, retry: nat)
    returns (doc: Outcome<Json>, sleeps: seq<nat>, attempts: nat)
    ensures Trace(doc, sleeps, attempts) == RetrySpec(env.getJson, HttpRequest(url, true, timeout), CatchConnectionError, retry)
    ensures TraceShape(Trace(doc, sleeps, attempts), env.getJson, HttpRequest(url, true, timeout), CatchConnectionError, retry)
  {
    doc, sleeps, attempts := RetryLoop(env.getJson, HttpRequest(url, true, timeout), CatchConnectionError, retry);
  }

  /** get_price_list_as_csv: a GET whose body is decoded as text, retried on ConnectionError only. */
  method GetPriceListAsCsv(env: PricingEnv, url: Option<string>, timeout: nat, retry: nat)
    returns (text: Outcome<string>, sleeps: seq<nat>, attempts: nat)
    ensures Trace(text, sleeps, attempts) == RetrySpec(env.getText, HttpRequest(url, false, timeout), CatchConnectionError, retry)
    ensures TraceShape(Trace(text, sleeps, attempts), env.getText, HttpRequest(url, false, timeout), CatchConnectionError, retry)
  {
    text, sleeps, attempts := RetryLoop(env.getText, HttpRequest(url, false, timeout), CatchConnectionError, retry);
  }

  /**
    A download that keeps failing with ConnectionError is attempted retry + 2
    times, not the retry + 1 its doc-comment announces.
   */
  lemma DownloadAttemptsExceedDocComment(env: PricingEnv, url: Option<string>, timeout: nat, retry: nat)
    requires forall k :: 0 <= k <= retry + 1 ==> env.getText(HttpRequest(url, false, timeout), k).Raised?
    requires forall k :: 0 <= k <= retry + 1 ==> env.getText(HttpRequest(url, false, timeout), k).error.kind == ConnectionError
    ensures var t := RetrySpec(env.getText, HttpRequest(url, false, timeout), CatchConnectionError, retry);
      t.attempts == retry + 2 && t.attempts != retry + 1 && |t.sleeps| == retry + 1
  {
    RetryExhausted(env.getText, HttpRequest(url, false, timeout), CatchConnectionError, retry);
  }

  // ----- store_raw_price_list -----

  /** The unit of work: one region and one service. */
  datatype Pair = Pair(region: string, service: string)

  /** A file written to the raw directory: its name and what was written into it. */
  datatype RawFile = RawFile(name: string, content: string)

  /** `"price_list_{}_{}_raw_{}.csv".format(service, region, count)` */
  function RawFileName(service: string, region: string, n: nat): string
  {
    "price_list_" + service + "_" + region + "_raw_" + DecimalString(n) + ".csv"
  }

  /** A numbered name "<stem><n>.csv" gives back its number. */
  lemma NumberedNameCancel(stem: string, n1: nat, n2: nat)
    requires stem + DecimalString(n1) + ".csv" == stem + DecimalString(n2) + ".csv"
    ensures n1 == n2
  {
    var a, b := DecimalString(n1), DecimalString(n2);
    var t1, t2 := stem + a + ".csv", stem + b + ".csv";
    assert |a| == |b|;
    assert t1[|stem|..|stem| + |a|] == a;
    assert t2[|stem|..|stem| + |b|] == b;
    DecimalStringInjective(n1, n2);
  }

  /** Within one pair, the i-th and the j-th file have different names. */
  lemma RawFileNamesDistinct(service: string, region: string, i: nat, j: nat)
    requires i != j
    ensures RawFileName(service, region, i) != RawFileName(service, region, j)
  {
    if RawFileName(service, region, i) == RawFileName(service, region, j) {
      NumberedNameCancel("price_list_" + service + "_" + region + "_raw_", i, j);
    }
  }

  lemma RawFileNameParts(service: string, region: string, n: nat)
    ensures RawFileName(service, region, n)
      == "price_list_" + (service + ['_'] + (region + ['_'] + ("raw_" + DecimalString(n) + ".csv")))
  {
  }

  /**
    Across pairs: for service and region codes without '_' (AWS writes them
    with letters, digits and '-'), the name determines the service, the
    region and the number, so two pairs never write the same file.
   */
  lemma RawFileNameInjective(s1: string, r1: string, n1: nat, s2: string, r2: string, n2: nat)
    requires '_' !in s1 && '_' !in r1 && '_' !in s2 && '_' !in r2
    requires RawFileName(s1, r1, n1) == RawFileName(s2, r2, n2)
    ensures s1 == s2 && r1 == r2 && n1 == n2
  {
    var tail1, tail2 := "raw_" + DecimalString(n1) + ".csv", "raw_" + DecimalString(n2) + ".csv";
    var rest1, rest2 := s1 + ['_'] + (r1 + ['_'] + tail1), s2 + ['_'] + (r2 + ['_'] + tail2);
    RawFileNameParts(s1, r1, n1);
    RawFileNameParts(s2, r2, n2);
    assert rest1 == ("price_list_" + rest1)[11..];
    assert rest2 == ("price_list_" + rest2)[11..];
    SplitAtSeparator(s1, r1 + ['_'] + tail1, s2, r2 + ['_'] + tail2, '_');
    SplitAtSeparator(r1, tail1, r2, tail2, '_');
    NumberedNameCancel("raw_", n1, n2);
  }

  /** Every raw file name ends in ".csv". */
  lemma RawFileNameIsCsv(service: string, region: string, n: nat)
    ensures EndsWith(RawFileName(service, region, n), ".csv")
  {
    EndsWithConcat("price_list_" + service + "_" + region + "_raw_" + DecimalString(n), ".csv");
  }

  /** What storing one pair produces: the count or the exception, and the files written. */
  datatype Stored = Stored(result: Outcome<nat>, files: seq<RawFile>)

  function UrlOf(env: PricingEnv, arn: string): Outcome<Option<string>>
  {
    RetrySpec(env.getPriceListFileUrl, UrlRequest(arn, "csv"), CatchClientError, PRICING_MAX_RETRY).result
  }

  function CsvOf(env: PricingEnv, url: Option<string>): Outcome<string>
  {
    RetrySpec(env.getText, HttpRequest(url, false, HTTP_TIMEOUT), CatchConnectionError, HTTP_RETRY).result
  }

  /** The per-document download, as the download loop sees it. */
  function Fetcher(env: PricingEnv): Option<string> -> Outcome<string>
  {
    url => CsvOf(env, url)
  }

  function Prepend<T>(p: seq<T>, o: Outcome<seq<T>>): Outcome<seq<T>>
  {
    match o
    case Raised(e) => Raised(e)
    case Returned(s) => Returned(p + s)
  }

  lemma PrependNothing<T>(o: Outcome<seq<T>>)
    ensures Prepend([], o) == o
  {
    if o.Returned? {
      assert [] + o.value == o.value;
    }
  }

  lemma PrependTwice<T>(p: seq<T>, q: seq<T>, o: Outcome<seq<T>>)
    ensures Prepend(p, Prepend(q, o)) == Prepend(p + q, o)
  {
    if o.Returned? {
      assert p + (q + o.value) == (p + q) + o.value;
    }
  }

  /** `price_list['Url'] = get_price_list_url(...)` for every entry, in order; the first failure propagates. */
  function ResolveUrls(env: PricingEnv, entries: seq<PriceListEntry>): Outcome<seq<PriceListEntry>>
  {
    if entries == [] then Returned([])
    else
      match UrlOf(env, entries[0].arn)
      case Raised(e) => Raised(e)
      case Returned(u) => Prepend([entries[0].(url := u)], ResolveUrls(env, entries[1..]))
  }

  /**
    The download loop from the entry after the `done`-th: the file is opened
    (and so created empty) before the download; a download that raises leaves
    it empty and ends the loop.
   */
  function DownloadFrom(fetch: Option<string> -> Outcome<string>, service: string, region: string, rest: seq<PriceListEntry>, done: nat): Stored
    decreases |rest|
  {
    if rest == [] then Stored(Returned(done), [])
    else
      var name := RawFileName(service, region, done + 1);
      match fetch(rest[0].url)
      case Raised(e) => Stored(Raised(e), [RawFile(name, "")])
      case Returned(text) =>
        var tail := DownloadFrom(fetch, service, region, rest[1..], done + 1);
        Stored(tail.result, [RawFile(name, text)] + tail.files)
  }

  function StorePairSpec(env: PricingEnv, pair: Pair, currency: string, date: string): Stored
  {
    match ListSpec(env, ListRequest(pair.service, date, pair.region, currency)).result
    case Raised(e) => Stored(Raised(e), [])
    case Returned(listed) =>
      match ResolveUrls(env, listed)
      case Raised(e) => Stored(Raised(e), [])
      case Returned(resolved) => DownloadFrom(Fetcher(env), pair.service, pair.region, resolved, 0)
  }

  lemma {:induction false} ResolveUrlsShape(env: PricingEnv, entries: seq<PriceListEntry>)
    ensures var r := ResolveUrls(env, entries);
      r.Returned? ==>
        && |r.value| == |entries|
        && forall i :: 0 <= i < |entries| ==>
             UrlOf(env, entries[i].arn).Returned? && r.value[i] == entries[i].(url := UrlOf(env, entries[i].arn).value)
  {
    if entries != [] {
      ResolveUrlsShape(env, entries[1..]);
      var r := ResolveUrls(env, entries);
      if r.Returned? {
        forall i | 0 <= i < |entries|
          ensures UrlOf(env, entries[i].arn).Returned? && r.value[i] == entries[i].(url := UrlOf(env, entries[i].arn).value)
        {
          if i > 0 {
            assert entries[1..][i - 1] == entries[i];
          }
        }
      }
    }
  }

  /** The URL loop returns exactly when every lookup does. */
  lemma {:induction false} ResolveUrlsReturnedIff(env: PricingEnv, entries: seq<PriceListEntry>)
    ensures ResolveUrls(env, entries).Returned? <==>
      forall i :: 0 <= i < |entries| ==> UrlOf(env, entries[i].arn).Returned?
  {
    if entries != [] {
      ResolveUrlsReturnedIff(env, entries[1..]);
      assert forall i :: 1 <= i < |entries| ==> entries[1..][i - 1] == entries[i];
    }
  }

  /** When the URL loop raises, it raises the exception of the first lookup that did. */
  lemma {:induction false} ResolveUrlsFirstFailure(env: PricingEnv, entries: seq<PriceListEntry>)
    ensures var r := ResolveUrls(env, entries);
      r.Raised? ==>
        exists k :: 0 <= k < |entries| && UrlOf(env, entries[k].arn) == Raised(r.error)
                    && forall j :: 0 <= j < k ==> UrlOf(env, entries[j].arn).Returned?
  {
    if entries != [] && UrlOf(env, entries[0].arn).Returned? {
      var rest := entries[1..];
      ResolveUrlsFirstFailure(env, rest);
      var r := ResolveUrls(env, entries);
      if r.Raised? {
        var k :| 0 <= k < |rest| && UrlOf(env, rest[k].arn) == Raised(r.error)
                 && forall j :: 0 <= j < k ==> UrlOf(env, rest[j].arn).Returned?;
        assert entries[k + 1] == rest[k];
        assert forall j :: 1 <= j < k + 1 ==> entries[j] == rest[j - 1];
      }
    }
  }

  /**
    The files of the download loop are numbered on from `done`, and there are
    at most as many as entries.
   */
  lemma {:induction false} DownloadFromNames(fetch: Option<string> -> Outcome<string>, service: string, region: string, rest: seq<PriceListEntry>, done: nat)
    ensures var d := DownloadFrom(fetch, service, region, rest, done);
      && |d.files| <= |rest|
      && forall j :: 0 <= j < |d.files| ==> d.files[j].name == RawFileName(service, region, done + j + 1)
    decreases |rest|
  {
    if rest != [] && fetch(rest[0].url).Returned? {
      DownloadFromNames(fetch, service, region, rest[1..], done + 1);
      var d := DownloadFrom(fetch, service, region, rest, done);
      var tail := DownloadFrom(fetch, service, region, rest[1..], done + 1);
      assert d.files == [RawFile(RawFileName(service, region, done + 1), fetch(rest[0].url).value)] + tail.files;
      forall j | 1 <= j < |d.files|
        ensures d.files[j].name == RawFileName(service, region, done + j + 1)
      {
        var k := j - 1;
        assert d.files[j] == tail.files[k];
        assert done + 1 + k + 1 == done + j + 1;
      }
    }
  }

  /** On success there is one file per entry, holding its downloaded text, and the count is done + |rest|. */
  lemma {:induction false} DownloadFromSuccess(fetch: Option<string> -> Outcome<string>, service: string, region: string, rest: seq<PriceListEntry>, done: nat)
    requires DownloadFrom(fetch, service, region, rest, done).result.Returned?
    ensures var d := DownloadFrom(fetch, service, region, rest, done);
      && d.result.value == done + |rest|
      && |d.files| == |rest|
      && forall j :: 0 <= j < |rest| ==> fetch(rest[j].url) == Returned(d.files[j].content)
    decreases |rest|
  {
    if rest != [] {
      DownloadFromSuccess(fetch, service, region, rest[1..], done + 1);
      var d := DownloadFrom(fetch, service, region, rest, done);
      var tail := DownloadFrom(fetch, service, region, rest[1..], done + 1);
      forall j | 1 <= j < |rest|
        ensures fetch(rest[j].url) == Returned(d.files[j].content)
      {
        assert d.files[j] == tail.files[j - 1] && rest[j] == rest[1..][j - 1];
      }
    }
  }

  /**
    On failure the last file written is the empty one whose download raised,
    and that download's exception is the result; every download before it
    returned, and its file holds the document.
   */
  lemma {:induction false} DownloadFromFailure(fetch: Option<string> -> Outcome<string>, service: string, region: string, rest: seq<PriceListEntry>, done: nat)
    requires DownloadFrom(fetch, service, region, rest, done).result.Raised?
    ensures var d := DownloadFrom(fetch, service, region, rest, done);
      && 1 <= |d.files| <= |rest|
      && d.files[|d.files| - 1].content == ""
      && fetch(rest[|d.files| - 1].url) == Raised(d.result.error)
      && forall j :: 0 <= j < |d.files| - 1 ==> fetch(rest[j].url) == Returned(d.files[j].content)
    decreases |rest|
  {
    if fetch(rest[0].url).Returned? {
      DownloadFromFailure(fetch, service, region, rest[1..], done + 1);
      var d := DownloadFrom(fetch, service, region, rest, done);
      var tail := DownloadFrom(fetch, service, region, rest[1..], done + 1);
      assert d.files[|d.files| - 1] == tail.files[|tail.files| - 1];
      assert rest[|d.files| - 1] == rest[1..][|tail.files| - 1];
      forall j | 1 <= j < |d.files| - 1
        ensures fetch(rest[j].url) == Returned(d.files[j].content)
      {
        assert d.files[j] == tail.files[j - 1];
        assert rest[j] == rest[1..][j - 1];
      }
    }
  }

  /**
    What store_raw_price_list promises: a listing or URL failure propagates
    before any file is written; otherwise the i-th price list goes to
    price_list_{service}_{region}_raw_{i}.csv, and on success the count is the
    number of price lists listed, one file each, holding its document.
   */
  lemma StorePairShape(env: PricingEnv, pair: Pair, currency: string, date: string)
    ensures var listed := ListSpec(env, ListRequest(pair.service, date, pair.region, currency)).result;
      var s := StorePairSpec(env, pair, currency, date);
      && (listed.Raised? ==> s == Stored(Raised(listed.error), []))
      && (listed.Returned? && ResolveUrls(env, listed.value).Raised? ==>
            s == Stored(Raised(ResolveUrls(env, listed.value).error), []))
      && (forall j :: 0 <= j < |s.files| ==> s.files[j].name == RawFileName(pair.service, pair.region, j + 1))
      && (s.result.Returned? ==>
            && listed.Returned?
            && s.result.value == |listed.value| == |s.files|
            && forall j :: 0 <= j < |s.files| ==>
                 && UrlOf(env, listed.value[j].arn).Returned?
                 && CsvOf(env, UrlOf(env, listed.value[j].arn).value) == Returned(s.files[j].content))
  {
    var listed := ListSpec(env, ListRequest(pair.service, date, pair.region, currency)).result;
    if listed.Returned? {
      ResolveUrlsShape(env, listed.value);
      var resolved := ResolveUrls(env, listed.value);
      if resolved.Returned? {
        DownloadFromNames(Fetcher(env), pair.service, pair.region, resolved.value, 0);
        if DownloadFrom(Fetcher(env), pair.service, pair.region, resolved.value, 0).result.Returned? {
          DownloadFromSuccess(Fetcher(env), pair.service, pair.region, resolved.value, 0);
        }
      }
    }
  }

  /**
    When the listing and the URLs succeeded but the pair failed, the failing
    download is the first one that raised: every file before it holds its
    document, and its own file is left empty as the last one written.
   */
  lemma StorePairDownloadFailure(env: PricingEnv, pair: Pair, currency: string, date: string)
    ensures var listed := ListSpec(env, ListRequest(pair.service, date, pair.region, currency)).result;
      var s := StorePairSpec(env, pair, currency, date);
      listed.Returned? && ResolveUrls(env, listed.value).Returned? && s.result.Raised? ==>
        && 1 <= |s.files| <= |listed.value|
        && s.files[|s.files| - 1].content == ""
        && UrlOf(env, listed.value[|s.files| - 1].arn).Returned?
        && CsvOf(env, UrlOf(env, listed.value[|s.files| - 1].arn).value) == Raised(s.result.error)
        && forall j :: 0 <= j < |s.files| - 1 ==>
             && UrlOf(env, listed.value[j].arn).Returned?
             && CsvOf(env, UrlOf(env, listed.value[j].arn).value) == Returned(s.files[j].content)
  {
    var listed := ListSpec(env, ListRequest(pair.service, date, pair.region, currency)).result;
    if listed.Returned? && ResolveUrls(env, listed.value).Returned? {
      var resolved := ResolveUrls(env, listed.value).value;
      assert StorePairSpec(env, pair, currency, date) == DownloadFrom(Fetcher(env), pair.service, pair.region, resolved, 0);
      if DownloadFrom(Fetcher(env), pair.service, pair.region, resolved, 0).result.Raised? {
        StorePairDownloadRaised(env, listed.value, resolved, pair.service, pair.region);
      }
    }
  }

  /** A pair's failing download comes after every earlier one returned its document. */
  lemma StorePairDownloadRaised(env: PricingEnv, listed: seq<PriceListEntry>, resolved: seq<PriceListEntry>,
                                service: string, region: string)
    requires ResolveUrls(env, listed) == Returned(resolved)
    requires DownloadFrom(Fetcher(env), service, region, resolved, 0).result.Raised?
    ensures var d := DownloadFrom(Fetcher(env), service, region, resolved, 0);
      && 1 <= |d.files| <= |listed|
      && d.files[|d.files| - 1].content == ""
      && UrlOf(env, listed[|d.files| - 1].arn).Returned?
      && CsvOf(env, UrlOf(env, listed[|d.files| - 1].arn).value) == Raised(d.result.error)
      && forall j :: 0 <= j < |d.files| - 1 ==>
           && UrlOf(env, listed[j].arn).Returned?
           && CsvOf(env, UrlOf(env, listed[j].arn).value) == Returned(d.files[j].content)
  {
    ResolveUrlsShape(env, listed);
    DownloadFromFailure(Fetcher(env), service, region, resolved, 0);
  }

  /**
    A download that raises after the listing succeeded leaves the file it had
    opened behind, empty, as the last file written.
   */
  lemma StorePairFailedDownload(env: PricingEnv, pair: Pair, currency: string, date: string)
    requires StorePairSpec(env, pair, currency, date).files != []
    requires StorePairSpec(env, pair, currency, date).result.Raised?
    ensures var s := StorePairSpec(env, pair, currency, date);
      s.files[|s.files| - 1].content == ""
  {
    var listed := ListSpec(env, ListRequest(pair.service, date, pair.region, currency)).result;
    var resolved := ResolveUrls(env, listed.value);
    DownloadFromFailure(Fetcher(env), pair.service, pair.region, resolved.value, 0);
  }

  /** The URL loop of store_raw_price_list: `price_list['Url'] = get_price_list_url(...)` for each entry. */
  method AttachUrls(env: PricingEnv, entries: seq<PriceListEntry>) returns (r: Outcome<seq<PriceListEntry>>)
    ensures r == ResolveUrls(env, entries)
  {
    var priceLists := entries;
    var i := 0;
    assert entries[0..] == entries;
    PrependNothing(ResolveUrls(env, entries));
    while i < |priceLists|
      invariant 0 <= i <= |priceLists| == |entries|
      invariant priceLists[i..] == entries[i..]
      invariant ResolveUrls(env, entries) == Prepend(priceLists[..i], ResolveUrls(env, entries[i..]))
    {
      assert priceLists[i] == entries[i];
      var url, _, _ := GetPriceListUrl(env, priceLists[i].arn, "csv");
      assert entries[i..][0] == priceLists[i] && entries[i..][1..] == entries[i + 1..];
      if url.Raised? {
        return Raised(url.error);
      }
      ghost var before := priceLists[..i];
      priceLists := priceLists[i := priceLists[i].(url := url.value)];
      assert priceLists[..i + 1] == before + [priceLists[i]];
      PrependTwice(before, [priceLists[i]], ResolveUrls(env, entries[i + 1..]));
      assert priceLists[i + 1..] == entries[i + 1..];
      i := i + 1;
    }
    assert entries[i..] == [] && priceLists[..i] == priceLists;
    assert priceLists + [] == priceLists;
    r := Returned(priceLists);
  }

  /**
    The download loop of store_raw_price_list: count the price list, open its
    numbered file, then download into it.
   */
  method DownloadPriceLists(env: PricingEnv, pair: Pair, priceLists: seq<PriceListEntry>)
    returns (count: Outcome<nat>, files: seq<RawFile>)
    ensures Stored(count, files) == DownloadFrom(Fetcher(env), pair.service, pair.region, priceLists, 0)
  {
    var n := 0;
    files := [];
    while n < |priceLists|
      invariant 0 <= n <= |priceLists|
      invariant DownloadFrom(Fetcher(env), pair.service, pair.region, priceLists, 0) ==
        var d := DownloadFrom(Fetcher(env), pair.service, pair.region, priceLists[n..], n);
        Stored(d.result, files + d.files)
    {
      var priceList := priceLists[n];
      assert priceLists[n..][0] == priceList && priceLists[n..][1..] == priceLists[n + 1..];
      n := n + 1;
      var name := RawFileName(pair.service, pair.region, n);
      var body, _, _ := GetPriceListAsCsv(env, priceList.url, HTTP_TIMEOUT, HTTP_RETRY);
      if body.Raised? {
        files := files + [RawFile(name, "")];
        return Raised(body.error), files;
      }
      ghost var before := files;
      files := files + [RawFile(name, body.value)];
      ghost var rest := DownloadFrom(Fetcher(env), pair.service, pair.region, priceLists[n..], n).files;
      assert before + ([RawFile(name, body.value)] + rest) == files + rest;
    }
    assert priceLists[n..] == [];
    assert files + [] == files;
    count := Returned(n);
  }

  /**
    store_raw_price_list: list the pair's price lists, attach each one's URL,
    then download each into its numbered file; the count of price lists
    processed is returned.
   */
  method StoreRawPriceList(env: PricingEnv, pair: Pair, currency: string, date: string)
    returns (count: Outcome<nat>, files: seq<RawFile>)
    ensures Stored(count, files) == StorePairSpec(env, pair, currency, date)
  {
    var listed, _, _ := ListPriceList(env, pair.service, pair.region, currency, date);
    if listed.Raised? {
      count, files := Raised(listed.error), [];
    } else {
      var resolved := AttachUrls(env, listed.value);
      if resolved.Raised? {
        count, files := Raised(resolved.error), [];
      } else {
        count, files := DownloadPriceLists(env, pair, resolved.value);
      }
    }
  }
}
