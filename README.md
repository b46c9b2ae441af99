# AWS price-list collector, modelled in Dafny

`fetch_aws_pricelists.py` downloads the AWS price lists in four stages:

1. It selects the regions and the service codes to fetch, with an include/exclude rule.
2. For every (region, service) pair it:
   - lists the pair's price lists (paginated, retried on throttling);
   - resolves each price list's download URL;
   - downloads each list into the numbered raw file `price_list_{service}_{region}_raw_{n}.csv`;
   - adds up the per-pair counts.
3. It truncates every raw CSV file to the columns it uses, writing it under a name where `raw` became `trunc`.
4. It consolidates the truncated tables into one `aws-tariffs-<date>.csv`.

This project models those decision rules and proves what they promise.

The collaborators become values:
- The retried calls (the list_price_lists paginator, get_price_list_file_url and the two HTTP GETs) become functions of the request and of the attempt number, the fields of `PriceLists.PricingEnv`. For each retried call, every sequence of outcomes a flaky service can produce is therefore covered.
- The two paginators that are not retried (describe_services and the Account API's list_regions) become the sequence of page outcomes they deliver.
- A paginated answer is a sequence of page outcomes.
- A sleep is a recorded duration.
- A directory listing is a sequence of entries, each carrying what pandas would read from it: a table or an exception.

Modules:

| Module | File | Contents |
|---|---|---|
| `Common` | `common.dfy` | Options, the exception classes the script tells apart, call outcomes, sequence helpers |
| `Pagination` | `pagination.dfy` | Draining a paginator |
| `Retry` | `retry.dfy` | The bounded retry loop copied into four functions |
| `Text` | `text.dfy` | `str(n)`, `str.endswith`, `str.replace` and the ordering `sorted` uses on strings |
| `Catalog` | `catalog.dfy` | describe_services, get_all_regions and the include/exclude rule |
| `PriceLists` | `pricelists.dfy` | list_price_list, the URL and download helpers, and store_raw_price_list |
| `Collector` | `collector.dfy` | store_raw_price_lists: the work list and the aggregation |
| `Tables` | `tables.dfy` | truncate_raw_list and consolidate_all_tariffs |

Each loop of the script is a method whose `ensures` ties its result, or its new state, to a specification function. Each specification function has its own lemmas.

**Attempt count.** The retry loop makes `max_retry + 2` attempts, not the `retry + 1` that the doc-comments of get_price_list_as_json and get_price_list_as_csv announce.
- The count starts at 0 and the loop re-raises only once `count > max_retry`.
- The model follows the code: `Retry.RetryExhausted` and `PriceLists.DownloadAttemptsExceedDocComment`.

## Model

| member | source | states |
|---|---|---|
| Pagination.Gather | fetch_aws_pricelists.py:47-49 | draining a paginator: the first page that raised, or all pages' entries concatenated in page order |
| Pagination.CollectPages | fetch_aws_pricelists.py:47-49 | the page loop yields every page's entries in page order, or the first failing page's exception |
| Pagination.GatherDelivered | fetch_aws_pricelists.py:47-49 | when every page is delivered, the answer is the concatenation of all pages in page order |
| Pagination.GatherFirstFailure | fetch_aws_pricelists.py:46-49 | the first page request that raises decides the outcome, and its exception propagates unchanged |
| Pagination.GatherKeepsFailure | fetch_aws_pricelists.py:48-49 | once a page has raised, later pages cannot change the outcome |
| Pagination.GatherReturnedIff | fetch_aws_pricelists.py:46-49 | the iteration returns if and only if no page request raised |
| Pagination.GatherEmptyPages | fetch_aws_pricelists.py:79-83 | zero pages, or only empty pages, give an empty list and not an error |
| Retry.Catches | fetch_aws_pricelists.py:84 | an `except` clause of a retry loop catches exactly the exceptions of its class: ClientError here and at :110, ConnectionError at :134 and :157 |
| Retry.RetryFrom | fetch_aws_pricelists.py:69-90 | the `while True` loop from a given count: a value or an uncaught exception ends it; a caught one is re-raised when `count > max_retry`, otherwise it sleeps 2(count+1) and tries again |
| Retry.RetrySpec | fetch_aws_pricelists.py:67-90 | the whole retry loop, started with `count = 0` |
| Retry.Backoff | fetch_aws_pricelists.py:89-90 | n rounds of `count += 1; sleep(2 * count)` sleep 2, 4, ..., 2n |
| Retry.BackoffIncreasing | fetch_aws_pricelists.py:89-90 | the sleep durations strictly increase |
| Retry.RetryFromShape | fetch_aws_pricelists.py:69-90 | from any pass, the attempts are bounded, the retried outcomes are of the caught class, and the sleeps are 2(count+1), 2(count+2), ... |
| Retry.RetryShape | fetch_aws_pricelists.py:67-90 | a call makes 1 to max_retry+2 attempts; all but the last raised the caught class; the last one's outcome is the result; the sleeps are 2, 4, ... |
| Retry.RetryExhausted | fetch_aws_pricelists.py:84-90 | if every attempt raises the caught class: max_retry+2 attempts, sleeps 2..2(max_retry+1), and the last exception is re-raised |
| Retry.RetryStopsAt | fetch_aws_pricelists.py:83-90 | the first outcome not retried (a value, or another exception class) at attempt k is the result, after exactly k sleeps |
| Retry.RetryGivesUp | fetch_aws_pricelists.py:86-87 | more than max_retry+1 consecutive caught failures: the caller gets an exception, never a value |
| Retry.RetryLoop | fetch_aws_pricelists.py:67-90 | the `while True` loop computes the retry specification and has its shape |
| Text.DecimalString | fetch_aws_pricelists.py:189 | `str(n)` is a non-empty string of decimal digits |
| Text.DecimalStringInjective | fetch_aws_pricelists.py:189 | different numbers give different digit strings |
| Text.EndsWith | fetch_aws_pricelists.py:251 | `str.endswith`: the string is at least as long as the suffix and ends with it |
| Text.EndsWithConcat | fetch_aws_pricelists.py:251 | a string built as `s + suffix` ends with `suffix` |
| Text.ReplaceAll | fetch_aws_pricelists.py:250 | `str.replace`: scanning left to right, each non-overlapping occurrence of the pattern becomes the replacement |
| Text.FreeAfterClearHead | fetch_aws_pricelists.py:250 | a head in which no occurrence starts, followed by a text without occurrences, has none |
| Text.ReplaceAllSkipsPrefix | fetch_aws_pricelists.py:250 | `replace` copies unchanged a prefix in which no occurrence starts |
| Text.ReplaceAllFree | fetch_aws_pricelists.py:250 | `replace` leaves a string without occurrences unchanged |
| Text.FreeWithoutLastChar | fetch_aws_pricelists.py:250 | a string missing the pattern's last character contains no occurrence of it |
| Text.ReplaceAllSkipsSegment | fetch_aws_pricelists.py:250 | a segment without occurrences, followed by a separator not in the pattern, is copied unchanged |
| Text.ReplaceAllAtStart | fetch_aws_pricelists.py:250 | an occurrence at the start is replaced |
| Text.FirstIndexAfter | fetch_aws_pricelists.py:189 | the first separator after a head that has none is the one right after that head |
| Text.SplitAtSeparator | fetch_aws_pricelists.py:189 | a string splits at a separator absent from both heads in one way only |
| Text.LexLe | fetch_aws_pricelists.py:305 | the string order `sorted` uses: the first differing code point decides, and a proper prefix comes first |
| Text.LexReflexive | fetch_aws_pricelists.py:305 | Python's string order is reflexive |
| Text.LexTotal | fetch_aws_pricelists.py:305 | Python's string order is total |
| Text.LexTransitive | fetch_aws_pricelists.py:305 | Python's string order is transitive |
| Text.LexAntisymmetric | fetch_aws_pricelists.py:305 | Python's string order is antisymmetric |
| Text.Insert | fetch_aws_pricelists.py:305 | insertion keeps the elements (as a multiset) and keeps a sorted list sorted |
| Text.SortStrings | fetch_aws_pricelists.py:305 | `sorted` returns a permutation of its input in ascending order |
| Text.SortedPermutationUnique | fetch_aws_pricelists.py:305 | two sorted permutations of the same strings are equal, so `sorted` has exactly one possible answer |
| Catalog.DescribeServices | fetch_aws_pricelists.py:44-55 | describe_services returns every page's services in page order, or raises the first page failure |
| Catalog.RegionNames | fetch_aws_pricelists.py:305 | the i-th name is the i-th region's RegionName |
| Catalog.GetAllRegions | fetch_aws_pricelists.py:299-305 | get_all_regions returns the region names sorted and as a permutation, and raises if and only if a page request raised |
| Catalog.SelectCodes | fetch_aws_pricelists.py:209-214 | a code is kept if and only if it is available and is included (non-empty include set) or not excluded |
| Catalog.FilterPrecedence | fetch_aws_pricelists.py:209-214 | include set non-empty: all ∩ included; else exclude set non-empty: all \ excluded; else all |
| Catalog.ExcludedIgnoredWhenIncluding | fetch_aws_pricelists.py:209-211 | with a non-empty include set, the exclude set has no effect |
| Catalog.ServiceCodes | fetch_aws_pricelists.py:208 | the set comprehension of the described services' ServiceCode fields |
| Catalog.ServiceCodesToFetch | fetch_aws_pricelists.py:208-214 | a service code is fetched if and only if some described service has it and the rule keeps it |
| Catalog.RegionsToProcess | fetch_aws_pricelists.py:365-369 | a region is processed if and only if get_all_regions listed it and the rule keeps it |
| PriceLists.ListAttempt | fetch_aws_pricelists.py:71-83 | one pass of list_price_list: drain the list_price_lists paginator for attempt k and stamp every entry with the requested service |
| PriceLists.Stamp | fetch_aws_pricelists.py:80-82 | every entry is kept, in order, with its ServiceCode set to the requested service |
| PriceLists.StampConcat | fetch_aws_pricelists.py:79-82 | stamping page after page is stamping their concatenation |
| PriceLists.AppendStamped | fetch_aws_pricelists.py:80-82 | the inner loop appends the page's entries, stamped, after those gathered so far |
| PriceLists.PaginatePriceLists | fetch_aws_pricelists.py:71-83 | one pass returns all pages' entries, stamped, in page order, or the first page failure |
| PriceLists.ListPriceList | fetch_aws_pricelists.py:67-90 | list_price_list is the retry policy on ClientError applied to whole passes over the paginator |
| PriceLists.ListSpec | fetch_aws_pricelists.py:67-90 | list_price_list: the ClientError retry loop with max_retry 3 around whole passes over the list_price_lists paginator |
| PriceLists.ListSpecShape | fetch_aws_pricelists.py:67-90 | at most 5 passes with the 2, 4, ... backoff, and every entry returned names the requested service |
| PriceLists.ListPriceListFromSuccessfulPass | fetch_aws_pricelists.py:71-83 | the result is the entries of the first complete pass only; throttled partial passes leave nothing |
| PriceLists.ListPriceListEmpty | fetch_aws_pricelists.py:79-83 | no pages or empty pages on the first pass give an empty list after one attempt |
| PriceLists.UrlOf | fetch_aws_pricelists.py:184 | `get_price_list_url(arn, file_format='csv')`: the ClientError retry around get_price_list_file_url for the csv format |
| PriceLists.CsvOf | fetch_aws_pricelists.py:191 | `get_price_list_as_csv(url)` with its default retry and timeout: the ConnectionError retry around a text GET |
| PriceLists.GetPriceListUrl | fetch_aws_pricelists.py:100-116 | get_price_list_url is the retry policy on ClientError around get_price_list_file_url, with its shape |
| PriceLists.GetPriceListAsJson | fetch_aws_pricelists.py:127-140 | get_price_list_as_json is the retry policy on ConnectionError around a JSON GET, with its shape |
| PriceLists.GetPriceListAsCsv | fetch_aws_pricelists.py:151-163 | get_price_list_as_csv is the retry policy on ConnectionError around a text GET, with its shape |
| PriceLists.DownloadAttemptsExceedDocComment | fetch_aws_pricelists.py:147-163 | a download that keeps failing is attempted retry+2 times, not the retry+1 of the doc-comment |
| PriceLists.RawFileName | fetch_aws_pricelists.py:189 | the name `price_list_{service}_{region}_raw_{n}.csv` of the n-th raw file of a pair |
| PriceLists.NumberedNameCancel | fetch_aws_pricelists.py:189 | a numbered file name determines its number |
| PriceLists.RawFileNamesDistinct | fetch_aws_pricelists.py:186-189 | within a pair, files with different numbers have different names |
| PriceLists.RawFileNameParts | fetch_aws_pricelists.py:189 | a raw file name is "price_list_", the service, '_', the region, '_', then "raw_", the number and ".csv" |
| PriceLists.RawFileNameInjective | fetch_aws_pricelists.py:189 | for codes without '_', the name determines service, region and number, so no two pairs write the same file |
| PriceLists.RawFileNameIsCsv | fetch_aws_pricelists.py:189 | every raw file name ends in ".csv", so truncate_raw_list will pick it up |
| PriceLists.ResolveUrls | fetch_aws_pricelists.py:183-184 | the URL loop: each entry gets the URL of its ARN, in order, or the first lookup failure is raised |
| PriceLists.DownloadFrom | fetch_aws_pricelists.py:186-191 | the download loop from the entry numbered done+1: each file is opened under its number, then filled; a failing download leaves it empty and raises |
| PriceLists.ResolveUrlsShape | fetch_aws_pricelists.py:183-184 | when every URL resolves, each entry keeps its place and gets its own URL |
| PriceLists.ResolveUrlsReturnedIff | fetch_aws_pricelists.py:183-184 | the URL loop returns if and only if every lookup returns |
| PriceLists.ResolveUrlsFirstFailure | fetch_aws_pricelists.py:183-184 | when the URL loop raises, the exception is that of the first lookup that raised, all earlier lookups having returned |
| PriceLists.DownloadFromNames | fetch_aws_pricelists.py:186-191 | the j-th file written is `price_list_{service}_{region}_raw_{j+1}.csv`, and no more files than lists |
| PriceLists.DownloadFromSuccess | fetch_aws_pricelists.py:186-192 | when no download fails, there is one file per list holding its document, and the count is the number of lists |
| PriceLists.DownloadFromFailure | fetch_aws_pricelists.py:188-191 | the failing download is the first that raised: every earlier download returned and its file holds its document, its own file is left empty as the last one written, and its exception is the result |
| PriceLists.StorePairSpec | fetch_aws_pricelists.py:175-192 | store_raw_price_list for one pair: listing, then URLs, then numbered downloads; a failure in one stage skips the later ones |
| PriceLists.StorePairShape | fetch_aws_pricelists.py:166-192 | listing and URL failures write nothing and propagate; names are numbered 1..n; on success count = lists listed = files, each holding its document |
| PriceLists.StorePairDownloadFailure | fetch_aws_pricelists.py:183-191 | when listing and URLs succeeded but the pair raised: the failing download is that of the first list whose CSV GET raised, every earlier file holds its list's document, and its own file is empty and last |
| PriceLists.StorePairFailedDownload | fetch_aws_pricelists.py:190-191 | after a failed download, the last file written is empty |
| PriceLists.AttachUrls | fetch_aws_pricelists.py:183-184 | the URL loop gives each entry the URL of its ARN, or raises the first failure |
| PriceLists.DownloadPriceLists | fetch_aws_pricelists.py:186-192 | the download loop writes the files and returns the count the specification gives |
| PriceLists.StoreRawPriceList | fetch_aws_pricelists.py:175-192 | store_raw_price_list computes the per-pair specification (listing, URLs, numbered downloads) |
| Collector.Product | fetch_aws_pricelists.py:217-220 | the work list: for each region in order, a pair with each service in order |
| Collector.Row | fetch_aws_pricelists.py:219-220 | the inner loop appends one pair per service, so a region's row has as many pairs as services |
| Collector.RowAt | fetch_aws_pricelists.py:219-220 | the j-th pair of a region's row is (region, services[j]) |
| Collector.ProductLength | fetch_aws_pricelists.py:217-220 | the work list has exactly (number of regions) · (number of services) pairs |
| Collector.ProductAppend | fetch_aws_pricelists.py:218-220 | the work list of two region lists in a row is their two work lists in a row |
| Collector.ProductLayout | fetch_aws_pricelists.py:217-220 | region-major order: the pair at i · (number of services) + j is (regions[i], services[j]) |
| Collector.ProductMembership | fetch_aws_pricelists.py:217-220 | a pair is in the work list if and only if its region and its service are |
| Collector.ProductNoDuplicates | fetch_aws_pricelists.py:217-220 | distinct regions and distinct services give each pair exactly once |
| Collector.BuildPairs | fetch_aws_pricelists.py:217-220 | the nested append loops build the region-major work list |
| Collector.IterationOrder | fetch_aws_pricelists.py:218-219 | iterating a set visits each element exactly once |
| Collector.Tally | fetch_aws_pricelists.py:226-228 | `count_lists += future.result()` over the jobs: the first exception, or the sum of the counts |
| Collector.FilesOf | fetch_aws_pricelists.py:223-225 | the files every pool job writes, the jobs' files one after another in pair order |
| Collector.CollectOf | fetch_aws_pricelists.py:221-234 | the aggregate: the pairs processed, the lists found and the warning, or the first exception, together with every job's files |
| Collector.TallyStep | fetch_aws_pricelists.py:226-228 | one more finished job appends its files and adds its count, unless a job already raised |
| Collector.TallyCountsFiles | fetch_aws_pricelists.py:226-228 | when each job's count is its number of files, the total is the number of files written |
| Collector.TallyReturnedIff | fetch_aws_pricelists.py:226-228 | the total is returned if and only if no job raised |
| Collector.TallyFirstFailure | fetch_aws_pricelists.py:226-228 | the exception reported is that of the first job that raised |
| Collector.CollectCountsFiles | fetch_aws_pricelists.py:221-234 | on success: pairs processed = number of pairs, lists found = files written, warning if and only if no file |
| Collector.NoPairsWarns | fetch_aws_pricelists.py:230-234 | with no pair, the run warns and writes nothing |
| Collector.FilesOfKeepsEveryRun | fetch_aws_pricelists.py:223-225 | every pair's files are written, whatever happens to the other pairs |
| Collector.CollectAll | fetch_aws_pricelists.py:221-234 | the fan-out and the count / count_lists accumulation compute the aggregate specification |
| Collector.StoreRawPriceLists | fetch_aws_pricelists.py:195-234 | describe failure propagates; otherwise the pairs are regions × selected codes in region-major order for some iteration order of each set, each once, and the outcome is the aggregate |
| Tables.CellAt | fetch_aws_pricelists.py:253-255 | the cell at a column position, empty (NaN) past the end of a short row |
| Tables.Lookup | fetch_aws_pricelists.py:253-255 | the cell of a row under a label: the first column with that label, or empty when the table has no such column |
| Tables.Project | fetch_aws_pricelists.py:256-258 | `drop(labels=..., axis=1)`: the columns whose label is not dropped, in order, over all rows; the result is well formed |
| Tables.KeptColumns | fetch_aws_pricelists.py:256-258 | the kept positions are increasing, hold no dropped label, and include every column not dropped |
| Tables.ProjectColumns | fetch_aws_pricelists.py:256-258 | dropping keeps exactly the columns not dropped, and all the rows |
| Tables.ProjectKeepsOrder | fetch_aws_pricelists.py:258 | kept columns keep their relative order |
| Tables.ProjectCells | fetch_aws_pricelists.py:258 | with distinct labels, every kept cell stays under its column in its row |
| Tables.Frame.constructor | fetch_aws_pricelists.py:253-255 | the frame holds the table read |
| Tables.Frame.Drop | fetch_aws_pricelists.py:258 | the in-place drop leaves the frame holding the projected table |
| Tables.IsCsvFile | fetch_aws_pricelists.py:251 | the entry is a regular file whose name ends in ".csv" |
| Tables.Selected | fetch_aws_pricelists.py:248-251 | the entries the loop processes, in listing order |
| Tables.TruncName | fetch_aws_pricelists.py:250 | `f.replace("raw", "trunc")` |
| Tables.TruncNameFree | fetch_aws_pricelists.py:250 | no "raw" is left in a truncated name |
| Tables.TruncNameIdempotent | fetch_aws_pricelists.py:250 | replacing again in a truncated name changes nothing |
| Tables.Truncate | fetch_aws_pricelists.py:256-258 | the columns whose label is not in used_headers are dropped |
| Tables.SelectedMembership | fetch_aws_pricelists.py:251 | an entry is processed if and only if it is a regular file whose name ends in ".csv" |
| Tables.TruncateColumns | fetch_aws_pricelists.py:256-258 | a truncated table has exactly the input's columns that are in used_headers, and all its rows |
| Tables.TruncateSpec | fetch_aws_pricelists.py:248-259 | the truncation loop: one truncated file per processed entry, until a read_csv failure ends it with that exception |
| Tables.TruncateSpecFiles | fetch_aws_pricelists.py:248-259 | the k-th file written is the k-th processed entry, named with raw→trunc and truncated; without a read failure every processed entry has its file, with one the exception is that of the first entry without a file |
| Tables.TruncateSpecKeepsFailure | fetch_aws_pricelists.py:253-255 | once a read has raised, later entries change nothing |
| Tables.TruncateRawList | fetch_aws_pricelists.py:246-263 | the loop writes the truncated files, stops with the exception of a read that raised, and warns if and only if nothing raised and no entry was processed |
| Tables.TruncOfRawName | fetch_aws_pricelists.py:250 | for codes without "raw", the truncated raw name `..._raw_n.csv` is `..._trunc_n.csv` |
| Tables.RawNameSegments | fetch_aws_pricelists.py:189 | a raw file name splits into "price_list", the service, the region, "raw" and the numbered tail at its separators |
| Tables.UnionHeader | fetch_aws_pricelists.py:285 | the consolidated header: every table's labels, in order of first appearance |
| Tables.Align | fetch_aws_pricelists.py:285 | a table laid out under the consolidated header keeps its rows, one cell per consolidated column |
| Tables.AddColumnsShape | fetch_aws_pricelists.py:285 | adding a header keeps the labels already there, first and in order, and adds each new label once |
| Tables.UnionHeaderDistinct | fetch_aws_pricelists.py:285 | the consolidated header holds each label once |
| Tables.UnionHeaderMembers | fetch_aws_pricelists.py:285 | the consolidated header holds every table's labels and nothing else |
| Tables.UnionHeaderPrefix | fetch_aws_pricelists.py:285 | labels appear in order of first appearance: the first k tables' header starts the consolidated one |
| Tables.ConcatTables | fetch_aws_pricelists.py:285 | `pd.concat(tariffs, ignore_index=True)`: the union header over every table's rows, in order |
| Tables.ConcatRowCount | fetch_aws_pricelists.py:285 | the consolidated table is well formed and has the inputs' row counts summed |
| Tables.ConcatRowsAt | fetch_aws_pricelists.py:285 | row i of table n is row RowTotal(first n tables) + i: tables in order, rows in order |
| Tables.ConcatCells | fetch_aws_pricelists.py:285 | each consolidated cell is the source row's cell under the same label, or empty where that table lacks the column |
| Tables.AlignOwnHeader | fetch_aws_pricelists.py:285 | a well-formed table under its own distinct header is unchanged |
| Tables.ConcatSameHeader | fetch_aws_pricelists.py:285 | tables sharing one header consolidate to that header over their rows stacked in order |
| Tables.ReadTables | fetch_aws_pricelists.py:278-282 | the consolidation loop: the processed entries' tables in listing order, or the first read_csv failure |
| Tables.ReadTablesShape | fetch_aws_pricelists.py:278-282 | without a failure the k-th table is the k-th processed entry's; with one, it is the exception of a processed entry all of whose predecessors were read |
| Tables.ReadTablesKeepsFailure | fetch_aws_pricelists.py:280-281 | once a read has raised, later entries change nothing |
| Tables.ConsolidateAllTariffs | fetch_aws_pricelists.py:277-289 | the tables are read in listing order; a read failure propagates with no file written; otherwise one consolidated file if any entry was processed, else the warning |

## Left out

- boto3 clients, paginators, `requests.get` and UTF-8/JSON decoding are foreign calls.
  - list_price_lists, get_price_list_file_url and the two GETs are the fields of `PriceLists.PricingEnv`, keyed by request and attempt number.
  - describe_services and list_regions are given as their page outcomes (`Catalog.DescribeServices`, `Catalog.GetAllRegions`).
  - Which exception class a failure belongs to is given with the outcome.
- Two calls with the same request (the same ARN or URL requested twice) see the same outcomes, attempt by attempt, since `PriceLists.PricingEnv` is keyed by request and attempt number. A service whose answers drift between such repeated calls is not modelled.
- `time.sleep` does not sleep. The durations are returned as a list.
- The thread pool (fetch_aws_pricelists.py:223-229) is replaced by a sequential pass over the pairs in list order, with each pair's job passed as a function value.
  - As with the pool, every pair's job runs and writes its files.
  - The pool reports the first failing future in completion order; the model reports the first in pair order.
  - Concurrency and interleaving of output are not modelled.
- Collector.CollectAll: the job it runs per pair is the per-pair specification function `PriceLists.StorePairSpec`, not the method `PriceLists.StoreRawPriceList`. That method is proved to compute it.
- Python set iteration order is arbitrary. `Collector.IterationOrder` picks one; the properties proved hold for every order.
- pandas `read_csv` (with `skiprows=5`, `dtype=str`), `to_csv` and the type inference of the second read are library behaviour.
  - A table is a header plus rows of cells, text or empty.
  - What a file's bytes parse to, a table or the exception read_csv raises (an empty file, for one), is given with each directory entry.
  - The write/read round trip between truncation and consolidation is not modelled.
- Tables.ProjectCells and Tables.ConcatSameHeader assume distinct column labels, which read_csv guarantees by renaming repeated ones. That renaming is not modelled.
- Tables.Frame.Drop requires every label to be present. pandas raises KeyError otherwise, which truncate_raw_list never triggers.
- The filesystem is not modelled:
  - `os.listdir` order is the order of the entry sequence;
  - `makedirs`, path joining and normalisation are left out;
  - the truncated directory read by consolidation is a separate input, not the output of truncation.
- A failed download's empty file is modelled: the file is opened before the download. Disk errors are not.
- describe_services' JSON dump (fetch_aws_pricelists.py:50-54) is file output and is not modelled.
- The `__main__` configuration constants are not modelled. The filter rule and the region selection are.
- `datetime.now` and `strftime` are not modelled: the consolidated file name takes the formatted date as a parameter.
- Console printing and progress counters are not modelled. A warning is a boolean, or the absence of an output file.
- PriceLists.RawFileNameInjective holds only for service and region codes without '_'. AWS codes use letters, digits and '-'.
- Tables.TruncOfRawName holds only for codes without "raw". `replace` would also rewrite a "raw" inside a code.
