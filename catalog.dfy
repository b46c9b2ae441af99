/**
  Enumerating what to fetch (fetch_aws_pricelists.py): the service codes of
  describe_services, the region names of get_all_regions, and the
  include/exclude rule that store_raw_price_lists applies to services and the
  main block applies to regions.
 */
module Catalog {
  import opened Common
  import opened Pagination
  import opened Text

  /** One element of a describe_services page's `Services` list; only `ServiceCode` is read. */
  datatype ServiceInfo = ServiceInfo(serviceCode: string)

  /** One element of a list_regions page's `Regions` list; only `RegionName` is read. */
  datatype RegionInfo = RegionInfo(regionName: string)

  /**
    describe_services: drains the paginator; the answer is every page's
    services in page order, or the first page request's exception.
   */
  method DescribeServices(pages: seq<Outcome<seq<ServiceInfo>>>) returns (r: Outcome<seq<ServiceInfo>>)
    ensures r == Gather(pages)
    ensures r.Returned? <==> AllDelivered(pages)
    ensures r.Returned? ==> r.value == Flatten(Values(pages))
  {
    r := CollectPages(pages);
    GatherReturnedIff(pages);
    if r.Returned? {
      GatherDelivered(pages);
    }
  }

  /** `{service['ServiceCode'] for service in services}` */
  function ServiceCodes(services: seq<ServiceInfo>): set<string>
  {
    set s | s in services :: s.serviceCode
  }

  /** `[r['RegionName'] for r in regions_info]` */
  function RegionNames(regions: seq<RegionInfo>): (names: seq<string>)
    ensures |names| == |regions|
    ensures forall i :: 0 <= i < |regions| ==> names[i] == regions[i].regionName
  {
    if regions == [] then [] else RegionNames(regions[..|regions| - 1]) + [regions[|regions| - 1].regionName]
  }

  /**
    get_all_regions: drains the list_regions paginator and returns the region
    names sorted as Python's `sorted` orders strings.
   */
  method GetAllRegions(pages: seq<Outcome<seq<RegionInfo>>>) returns (r: Outcome<seq<string>>)
    ensures r.Returned? <==> AllDelivered(pages)
    ensures r.Raised? ==> Gather(pages) == Raised(r.error)
    ensures r.Returned? ==> SortedStrings(r.value)
    ensures r.Returned? ==> multiset(r.value) == multiset(RegionNames(Flatten(Values(pages))))
  {
    var info := CollectPages(pages);
    GatherReturnedIff(pages);
    match info
    case Raised(e) =>
      r := Raised(e);
    case Returned(regions) =>
      GatherDelivered(pages);
      r := Returned(SortStrings(RegionNames(regions)));
  }

  /**
    The include/exclude rule: a non-empty include set selects the listed codes
    that are available and the exclude set is then ignored; otherwise a
    non-empty exclude set removes its codes; otherwise everything available is
    kept.
   */
  function SelectCodes<T(!new)>(all: set<T>, included: set<T>, excluded: set<T>): (r: set<T>)
    ensures forall x :: x in r <==> x in all && (if included != {} then x in included else x !in excluded)
  {
    if included != {} then all * included
    else if excluded != {} then all - excluded
    else all
  }

  /** The three cases of the rule, in order of precedence. */
  lemma FilterPrecedence<T(!new)>(all: set<T>, included: set<T>, excluded: set<T>)
    ensures included != {} ==> SelectCodes(all, included, excluded) == all * included
    ensures included == {} && excluded != {} ==> SelectCodes(all, included, excluded) == all - excluded
    ensures included == {} && excluded == {} ==> SelectCodes(all, included, excluded) == all
  {
  }

  /** With a non-empty include set, the exclude set has no effect whatever it holds. */
  lemma ExcludedIgnoredWhenIncluding<T(!new)>(all: set<T>, included: set<T>, excluded1: set<T>, excluded2: set<T>)
    requires included != {}
    ensures SelectCodes(all, included, excluded1) == SelectCodes(all, included, excluded2)
  {
  }

  /** store_raw_price_lists: the service codes to fetch, from describe_services' answer. */
  function ServiceCodesToFetch(services: seq<ServiceInfo>, included: set<string>, excluded: set<string>): (r: set<string>)
    ensures forall c :: c in r <==>
      (exists i :: 0 <= i < |services| && services[i].serviceCode == c)
      && (if included != {} then c in included else c !in excluded)
  {
    var all := ServiceCodes(services);
    assert forall c :: c in all <==> exists i :: 0 <= i < |services| && services[i].serviceCode == c by {
      forall c | c in all
        ensures exists i :: 0 <= i < |services| && services[i].serviceCode == c
      {
        var s :| s in services && s.serviceCode == c;
        var i :| 0 <= i < |services| && services[i] == s;
      }
    }
    SelectCodes(all, included, excluded)
  }

  /** The main block: the regions to process, from get_all_regions' answer. */
  function RegionsToProcess(allRegions: seq<string>, included: set<string>, excluded: set<string>): (r: set<string>)
    ensures forall c :: c in r <==> c in allRegions && (if included != {} then c in included else c !in excluded)
  {
    SelectCodes(Elements(allRegions), included, excluded)
  }
}
