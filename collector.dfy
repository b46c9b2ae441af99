/**
  store_raw_price_lists (fetch_aws_pricelists.py): pick the service codes,
  build the (region, service) work list, store every pair's price lists, and
  add up the per-pair counts.

  The thread pool is replaced by a sequential pass over the pairs in list
  order. As with the pool, whose `with` block waits for every submitted job,
  every pair is processed and writes its files even when another pair fails;
  the exception reported is that of the first failing pair in list order.
 */
module Collector {
  import opened Common
  import opened Pagination
  import opened Catalog
  import opened PriceLists

  // ----- the work list -----

  /** `pairs.append({'region': region, 'service': service})` for every service, in order. */
  function Row(region: string, services: seq<string>): (r: seq<Pair>)
    ensures |r| == |services|
  {
    if services == [] then []
    else Row(region, services[..|services| - 1]) + [Pair(region, services[|services| - 1])]
  }

  /** The j-th pair of a region's row pairs it with the j-th service. */
  lemma {:induction false} RowAt(region: string, services: seq<string>, j: nat)
    requires j < |services|
    ensures Row(region, services)[j] == Pair(region, services[j])
  {
    var n := |services| - 1;
    if j < n {
      RowAt(region, services[..n], j);
    }
  }

  /** The nested loops `for region in regions: for service in service_codes`. */
  function Product(regions: seq<string>, services: seq<string>): seq<Pair>
  {
    if regions == [] then []
    else Product(regions[..|regions| - 1], services) + Row(regions[|regions| - 1], services)
  }

  lemma {:induction false} ProductLength(regions: seq<string>, services: seq<string>)
    ensures |Product(regions, services)| == |regions| * |services|
  {
    if regions != [] {
      var n := |regions| - 1;
      ProductLength(regions[..n], services);
      assert (n + 1) * |services| == n * |services| + |services|;
    }
  }

  /** The work list of two region lists one after the other is the two work lists one after the other. */
  lemma {:induction false} ProductAppend(a: seq<string>, b: seq<string>, services: seq<string>)
    ensures Product(a + b, services) == Product(a, services) + Product(b, services)
    decreases |b|
  {
    if b == [] {
      assert a + b == a;
    } else {
      var init, last := b[..|b| - 1], b[|b| - 1];
      var ab := a + b;
      assert ab[..|ab| - 1] == a + init && ab[|ab| - 1] == last;
      assert Product(ab, services) == Product(a + init, services) + Row(last, services);
      ProductAppend(a, init, services);
      assert Product(b, services) == Product(init, services) + Row(last, services);
    }
  }

  /** Region-major order: the pair at i * |services| + j is (regions[i], services[j]). */
  lemma ProductLayout(regions: seq<string>, services: seq<string>, i: nat, j: nat)
    requires i < |regions| && j < |services|
    ensures i * |services| + j < |Product(regions, services)|
    ensures Product(regions, services)[i * |services| + j] == Pair(regions[i], services[j])
  {
    var before, after := regions[..i], regions[i + 1..];
    assert regions == before + ([regions[i]] + after);
    ProductAppend(before, [regions[i]] + after, services);
    ProductAppend([regions[i]], after, services);
    assert [regions[i]][..0] == [];
    assert Product([regions[i]], services) == Row(regions[i], services);
    ProductLength(before, services);
    RowAt(regions[i], services, j);
  }

  /** A pair is in the work list exactly when its region and its service are. */
  lemma {:induction false} ProductMembership(regions: seq<string>, services: seq<string>, p: Pair)
    ensures p in Product(regions, services) <==> p.region in regions && p.service in services
  {
    if regions != [] {
      var init := regions[..|regions| - 1];
      ProductMembership(init, services, p);
      var row := Row(regions[|regions| - 1], services);
      assert p in row <==> p.region == regions[|regions| - 1] && p.service in services by {
        if p in row {
          var j :| 0 <= j < |row| && row[j] == p;
          RowAt(regions[|regions| - 1], services, j);
        }
        if p.region == regions[|regions| - 1] && p.service in services {
          var j :| 0 <= j < |services| && services[j] == p.service;
          RowAt(regions[|regions| - 1], services, j);
        }
      }
      assert regions == init + [regions[|regions| - 1]];
    }
  }

  /** Distinct regions and distinct services give each pair exactly once. */
  lemma {:induction false} ProductNoDuplicates(regions: seq<string>, services: seq<string>)
    requires NoDuplicates(regions) && NoDuplicates(services)
    ensures NoDuplicates(Product(regions, services))
  {
    if regions != [] {
      var init := regions[..|regions| - 1];
      var last := regions[|regions| - 1];
      assert NoDuplicates(init) by {
        forall i, j | 0 <= i < j < |init|
          ensures init[i] != init[j]
        {
          assert init[i] == regions[i] && init[j] == regions[j];
        }
      }
      ProductNoDuplicates(init, services);
      var row := Row(last, services);
      assert last !in init by {
        forall i | 0 <= i < |init|
          ensures init[i] != last
        {
          assert init[i] == regions[i];
        }
      }
      forall x | x in Product(init, services)
        ensures x !in row
      {
        ProductMembership(init, services, x);
        if x in row {
          var j :| 0 <= j < |row| && row[j] == x;
          RowAt(last, services, j);
        }
      }
      assert NoDuplicates(row) by {
        forall i, j | 0 <= i < j < |row|
          ensures row[i] != row[j]
        {
          RowAt(last, services, i);
          RowAt(last, services, j);
        }
      }
      NoDuplicatesConcat(Product(init, services), row);
    }
  }

  /** Builds the work list with the script's two nested append loops. */
  method BuildPairs(regions: seq<string>, services: seq<string>) returns (pairs: seq<Pair>)
    ensures pairs == Product(regions, services)
  {
    pairs := [];
    var i := 0;
    while i < |regions|
      invariant 0 <= i <= |regions|
      invariant pairs == Product(regions[..i], services)
    {
      ghost var done := pairs;
      var j := 0;
      while j < |services|
        invariant 0 <= j <= |services|
        invariant pairs == done + Row(regions[i], services[..j])
      {
        assert services[..j + 1][..j] == services[..j];
        pairs := pairs + [Pair(regions[i], services[j])];
        j := j + 1;
      }
      assert services[..j] == services;
      assert regions[..i + 1][..i] == regions[..i];
      i := i + 1;
    }
    assert regions[..i] == regions;
  }

  /**
    The order in which Python iterates over a set: some order, each element
    once. The model picks one; nothing proved below depends on which.
   */
  method IterationOrder(s: set<string>) returns (order: seq<string>)
    ensures Elements(order) == s
    ensures NoDuplicates(order)
  {
    order := [];
    var left := s;
    while left != {}
      invariant Elements(order) + left == s
      invariant Elements(order) !! left
      invariant NoDuplicates(order)
      decreases left
    {
      var x :| x in left;
      order := order + [x];
      left := left - {x};
    }
  }

  // ----- storing every pair and adding up -----

  /** What the run reports: pairs processed, price lists found, and whether it warned that none was found. */
  datatype Report = Report(pairsProcessed: nat, priceListsFound: nat, warned: bool)

  /** The outcome of store_raw_price_lists and every file it wrote, in pair order. */
  datatype Collected = Collected(result: Outcome<Report>, files: seq<RawFile>)

  /** The job submitted for every pair: `store_raw_price_list` with the run's currency and date. */
  function PairJob(env: PricingEnv, currency: string, date: string): Pair -> Stored
  {
    p => StorePairSpec(env, p, currency, date)
  }

  /** The result of every pair's job, in pair order. */
  function Runs(job: Pair -> Stored, pairs: seq<Pair>): seq<Stored>
  {
    seq(|pairs|, i requires 0 <= i < |pairs| => job(pairs[i]))
  }

  /** `count_lists += future.result()` over the jobs: the sum of the counts, or the first exception. */
  function Tally(runs: seq<Stored>): Outcome<nat>
  {
    if runs == [] then Returned(0)
    else
      match Tally(runs[..|runs| - 1])
      case Raised(e) => Raised(e)
      case Returned(n) =>
        match runs[|runs| - 1].result
        case Raised(e) => Raised(e)
        case Returned(k) => Returned(n + k)
  }

  /** The files of all jobs, in pair order. */
  function FilesOf(runs: seq<Stored>): seq<RawFile>
  {
    if runs == [] then [] else FilesOf(runs[..|runs| - 1]) + runs[|runs| - 1].files
  }

  /** The outcome of the run from its jobs' results. */
  function CollectOf(runs: seq<Stored>): Collected
  {
    match Tally(runs)
    case Raised(e) => Collected(Raised(e), FilesOf(runs))
    case Returned(n) => Collected(Returned(Report(|runs|, n, n == 0)), FilesOf(runs))
  }

  function CollectSpec(env: PricingEnv, pairs: seq<Pair>, currency: string, date: string): Collected
  {
    CollectOf(Runs(PairJob(env, currency, date), pairs))
  }

  /** When every job counts the files it wrote, the total counts all the files written. */
  lemma {:induction false} TallyCountsFiles(runs: seq<Stored>)
    requires forall i :: 0 <= i < |runs| && runs[i].result.Returned? ==> runs[i].result.value == |runs[i].files|
    ensures Tally(runs).Returned? ==> Tally(runs).value == |FilesOf(runs)|
  {
    if runs != [] {
      var init := runs[..|runs| - 1];
      assert forall i :: 0 <= i < |init| ==> init[i] == runs[i];
      TallyCountsFiles(init);
    }
  }

  /** The total is returned exactly when no job raised. */
  lemma {:induction false} TallyReturnedIff(runs: seq<Stored>)
    ensures Tally(runs).Returned? <==> forall i :: 0 <= i < |runs| ==> runs[i].result.Returned?
  {
    if runs != [] {
      var init := runs[..|runs| - 1];
      assert forall i :: 0 <= i < |init| ==> init[i] == runs[i];
      TallyReturnedIff(init);
    }
  }

  /** The exception reported is the one of the first job that raised. */
  lemma {:induction false} TallyFirstFailure(runs: seq<Stored>, k: nat)
    requires k < |runs| && runs[k].result.Raised?
    requires forall i :: 0 <= i < k ==> runs[i].result.Returned?
    ensures Tally(runs) == Raised(runs[k].result.error)
    decreases |runs|
  {
    var init := runs[..|runs| - 1];
    assert forall i :: 0 <= i < |init| ==> init[i] == runs[i];
    if k < |init| {
      TallyFirstFailure(init, k);
    } else {
      TallyReturnedIff(init);
    }
  }

  /**
    The aggregate of store_raw_price_lists: on success the number of price
    lists found is the number of files written, and the warning is given
    exactly when no file was written.
   */
  lemma CollectCountsFiles(env: PricingEnv, pairs: seq<Pair>, currency: string, date: string)
    ensures var c := CollectSpec(env, pairs, currency, date);
      c.result.Returned? ==>
        && c.result.value.pairsProcessed == |pairs|
        && c.result.value.priceListsFound == |c.files|
        && (c.result.value.warned <==> c.files == [])
  {
    var runs := Runs(PairJob(env, currency, date), pairs);
    forall i | 0 <= i < |runs| && runs[i].result.Returned?
      ensures runs[i].result.value == |runs[i].files|
    {
      StorePairShape(env, pairs[i], currency, date);
    }
    TallyCountsFiles(runs);
  }

  /** With no region or no service to fetch there is no work: the run warns and writes nothing. */
  lemma NoPairsWarns(env: PricingEnv, currency: string, date: string)
    ensures CollectSpec(env, [], currency, date) == Collected(Returned(Report(0, 0, true)), [])
  {
    assert Runs(PairJob(env, currency, date), []) == [];
  }

  /** Every pair's files are among the files written, whatever happened to the other pairs. */
  lemma {:induction false} FilesOfKeepsEveryRun(runs: seq<Stored>, i: nat, f: RawFile)
    requires i < |runs| && f in runs[i].files
    ensures f in FilesOf(runs)
  {
    var init := runs[..|runs| - 1];
    if i < |init| {
      assert init[i] == runs[i];
      FilesOfKeepsEveryRun(init, i, f);
    }
  }

  /**
    store_raw_price_lists: describe the services, select the codes, build the
    pairs (in the iteration order of the two sets), store each pair and add
    up the counts.
   */
  method StoreRawPriceLists(env: PricingEnv, servicePages: seq<Outcome<seq<ServiceInfo>>>,
                            servicesIncluded: set<string>, servicesExcluded: set<string>,
                            regions: set<string>, currency: string, date: string)
    returns (result: Outcome<Report>, files: seq<RawFile>, pairs: seq<Pair>)
    ensures Gather(servicePages).Raised? ==> result == Raised(Gather(servicePages).error) && files == [] && pairs == []
    ensures Gather(servicePages).Returned? ==>
      var codes := ServiceCodesToFetch(Gather(servicePages).value, servicesIncluded, servicesExcluded);
      && (forall p :: p in pairs <==> p.region in regions && p.service in codes)
      && NoDuplicates(pairs)
      && |pairs| == |regions| * |codes|
      && (exists ro, so :: Elements(ro) == regions && NoDuplicates(ro) && Elements(so) == codes && NoDuplicates(so)
                          && pairs == Product(ro, so))
      && Collected(result, files) == CollectSpec(env, pairs, currency, date)
  {
    var services := DescribeServices(servicePages);
    if services.Raised? {
      return Raised(services.error), [], [];
    }
    var codes := ServiceCodesToFetch(services.value, servicesIncluded, servicesExcluded);
    var regionOrder := IterationOrder(regions);
    var serviceOrder := IterationOrder(codes);
    pairs := BuildPairs(regionOrder, serviceOrder);
    forall p
      ensures p in pairs <==> p.region in regions && p.service in codes
    {
      ProductMembership(regionOrder, serviceOrder, p);
    }
    ProductNoDuplicates(regionOrder, serviceOrder);
    ProductLength(regionOrder, serviceOrder);
    DistinctCardinality(regionOrder);
    DistinctCardinality(serviceOrder);
    result, files := CollectAll(PairJob(env, currency, date), pairs);
  }

  /** One more job: its files follow the others, and its count is added unless a job already raised. */
  lemma TallyStep(done: seq<Stored>, next: Stored)
    ensures FilesOf(done + [next]) == FilesOf(done) + next.files
    ensures Tally(done + [next]) ==
      match Tally(done)
      case Raised(e) => Raised(e)
      case Returned(n) =>
        match next.result
        case Raised(e) => Raised(e)
        case Returned(k) => Returned(n + k)
  {
    assert (done + [next])[..|done|] == done;
  }

  /**
    The fan-out over the pairs and the `count` / `count_lists` accumulation,
    with the warning when no price list was found. Each pair's job is the
    value handed to the pool.
   */
  method CollectAll(job: Pair -> Stored, pairs: seq<Pair>) returns (result: Outcome<Report>, files: seq<RawFile>)
    ensures Collected(result, files) == CollectOf(Runs(job, pairs))
  {
    ghost var runs := Runs(job, pairs);
    var count := 0;
    var countLists := 0;
    var failure: Option<Error> := None;
    files := [];
    assert runs[..0] == [];
    while count < |pairs|
      invariant 0 <= count <= |pairs|
      invariant files == FilesOf(runs[..count])
      invariant Tally(runs[..count]) == if failure.Some? then Raised(failure.value) else Returned(countLists)
    {
      var stored := job(pairs[count]);
      assert runs[..count + 1] == runs[..count] + [stored];
      TallyStep(runs[..count], stored);
      files := files + stored.files;
      count := count + 1;
      if failure.None? {
        if stored.result.Raised? {
          failure := Some(stored.result.error);
        } else {
          countLists := countLists + stored.result.value;
        }
      }
    }
    assert runs[..count] == runs;
    if failure.Some? {
      result := Raised(failure.value);
    } else {
      result := Returned(Report(count, countLists, !(countLists > 0)));
    }
  }
}
