/**
  Draining a paginated answer (fetch_aws_pricelists.py, describe_services,
  list_price_list and get_all_regions): the pages are requested one after
  another and their entries appended to one list. A page request that raises
  ends the iteration and the exception propagates; nothing gathered so far is
  returned.
 */
module Pagination {
  import opened Common

  /** The values of the returned pages (the pages that raised are skipped). */
  function Values<T>(pages: seq<Outcome<seq<T>>>): (r: seq<seq<T>>)
    ensures |r| <= |pages|
  {
    if pages == [] then []
    else
      var init := Values(pages[..|pages| - 1]);
      match pages[|pages| - 1]
      case Returned(p) => init + [p]
      case Raised(_) => init
  }

  /** What iterating over the pages yields: all entries in page order, or the first exception. */
  function Gather<T>(pages: seq<Outcome<seq<T>>>): Outcome<seq<T>>
  {
    if pages == [] then Returned([])
    else
      match Gather(pages[..|pages| - 1])
      case Raised(e) => Raised(e)
      case Returned(acc) =>
        match pages[|pages| - 1]
        case Raised(e) => Raised(e)
        case Returned(p) => Returned(acc + p)
  }

  /** Every page was delivered. */
  predicate AllDelivered<T>(pages: seq<Outcome<seq<T>>>)
  {
    forall i :: 0 <= i < |pages| ==> pages[i].Returned?
  }

  /** Without a failing page the answer is the concatenation of all pages, in page order. */
  lemma {:induction false} GatherDelivered<T>(pages: seq<Outcome<seq<T>>>)
    requires AllDelivered(pages)
    ensures Gather(pages) == Returned(Flatten(Values(pages)))
    ensures |Values(pages)| == |pages|
    ensures forall i :: 0 <= i < |pages| ==> Values(pages)[i] == pages[i].value
  {
    if pages != [] {
      var init := pages[..|pages| - 1];
      GatherDelivered(init);
      var vs := Values(pages);
      assert vs == Values(init) + [pages[|pages| - 1].value];
      assert vs[..|vs| - 1] == Values(init);
    }
  }

  /** The first page that raises decides the outcome: its exception propagates unchanged. */
  lemma {:induction false} GatherFirstFailure<T>(pages: seq<Outcome<seq<T>>>, k: nat)
    requires k < |pages| && pages[k].Raised?
    requires forall i :: 0 <= i < k ==> pages[i].Returned?
    ensures Gather(pages) == Raised(pages[k].error)
  {
    var prefix := pages[..k + 1];
    assert prefix[..k] == pages[..k];
    GatherDelivered(pages[..k]);
    assert Gather(prefix) == Raised(pages[k].error);
    GatherKeepsFailure(pages, k + 1);
  }

  /** Once a prefix of the pages has raised, the whole iteration raises the same exception. */
  lemma {:induction false} GatherKeepsFailure<T>(pages: seq<Outcome<seq<T>>>, n: nat)
    requires n <= |pages| && Gather(pages[..n]).Raised?
    ensures Gather(pages) == Gather(pages[..n])
    decreases |pages| - n
  {
    if n < |pages| {
      assert pages[..n + 1][..n] == pages[..n];
      GatherKeepsFailure(pages, n + 1);
    } else {
      assert pages[..n] == pages;
    }
  }

  /** The iteration returns exactly when no page request raised. */
  lemma {:induction false} GatherReturnedIff<T>(pages: seq<Outcome<seq<T>>>)
    ensures Gather(pages).Returned? <==> AllDelivered(pages)
  {
    if pages != [] {
      var init := pages[..|pages| - 1];
      GatherReturnedIff(init);
      assert forall i :: 0 <= i < |init| ==> init[i] == pages[i];
    }
  }

  /** Zero pages, or pages without entries, give an empty answer and not an error. */
  lemma {:induction false} GatherEmptyPages<T>(pages: seq<Outcome<seq<T>>>)
    requires forall i :: 0 <= i < |pages| ==> pages[i] == Returned([])
    ensures Gather(pages) == Returned([])
  {
    if pages != [] {
      var init := pages[..|pages| - 1];
      assert forall i :: 0 <= i < |init| ==> init[i] == pages[i];
      GatherEmptyPages(init);
      var empty: seq<T> := [];
      assert empty + empty == empty;
    }
  }

  /** The loop `for page in page_iterator: items += page[...]`. */
  method CollectPages<T>(pages: seq<Outcome<seq<T>>>) returns (r: Outcome<seq<T>>)
    ensures r == Gather(pages)
  {
    var items: seq<T> := [];
    var i := 0;
    while i < |pages|
      invariant 0 <= i <= |pages|
      invariant Gather(pages[..i]) == Returned(items)
    {
      assert pages[..i + 1][..i] == pages[..i];
      match pages[i]
      case Raised(e) =>
        GatherKeepsFailure(pages, i + 1);
        return Raised(e);
      case Returned(page) =>
        items := items + page;
      i := i + 1;
    }
    assert pages[..i] == pages;
    r := Returned(items);
  }
}
