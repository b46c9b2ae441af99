/**
  Values shared by every stage of the price-list collector: optional values,
  the exception classes the script tells apart, and the outcome of a call
  (a returned value or a raised exception).
 */
module Common {

  datatype Option<+T> = None | Some(value: T)

  /** The exception classes the script distinguishes. */
  datatype ErrorKind =
    | ClientError      // botocore's ClientError: throttling, access denied, bad request, ...
    | ConnectionError  // requests' ConnectionError and its subclasses (ConnectTimeout, SSLError, ProxyError)
    | OtherError       // everything else: read timeouts, decoding errors, botocore connection errors, ...

  /** A raised exception: its class and whatever it carries. */
  datatype Error = Error(kind: ErrorKind, detail: string)

  /** The outcome of one call: the value it returned or the exception it raised. */
  datatype Outcome<+V> = Returned(value: V) | Raised(error: Error)

  /** The elements of a sequence, as a set. */
  function Elements<T>(s: seq<T>): set<T>
  {
    set x | x in s
  }

  /** No element occurs twice. */
  predicate NoDuplicates<T(==)>(s: seq<T>)
  {
    forall i, j :: 0 <= i < j < |s| ==> s[i] != s[j]
  }

  /** The pages of a paginated answer, concatenated in page order. */
  function Flatten<T>(pages: seq<seq<T>>): (r: seq<T>)
  {
    if pages == [] then [] else Flatten(pages[..|pages| - 1]) + pages[|pages| - 1]
  }

  /** A sequence without repetitions has as many distinct elements as entries. */
  lemma {:induction false} DistinctCardinality<T>(s: seq<T>)
    requires NoDuplicates(s)
    ensures |Elements(s)| == |s|
  {
    if s != [] {
      var init := s[..|s| - 1];
      assert NoDuplicates(init) by {
        forall i, j | 0 <= i < j < |init|
          ensures init[i] != init[j]
        {
          assert init[i] == s[i] && init[j] == s[j];
        }
      }
      DistinctCardinality(init);
      assert Elements(s) == Elements(init) + {s[|s| - 1]};
      assert s[|s| - 1] !in Elements(init) by {
        forall i | 0 <= i < |init|
          ensures init[i] != s[|s| - 1]
        {
          assert init[i] == s[i];
        }
      }
    }
  }

  /** Two sequences without repetitions and without common elements concatenate without repetitions. */
  lemma NoDuplicatesConcat<T>(a: seq<T>, b: seq<T>)
    requires NoDuplicates(a) && NoDuplicates(b)
    requires forall x :: x in a ==> x !in b
    ensures NoDuplicates(a + b)
  {
    var c := a + b;
    forall i, j | 0 <= i < j < |c|
      ensures c[i] != c[j]
    {
      if i < |a| && j >= |a| {
        assert c[i] in a && c[j] == b[j - |a|];
      } else if i >= |a| {
        assert c[i] == b[i - |a|] && c[j] == b[j - |a|];
      }
    }
  }

  /** The position of the first `c` in `s` (Python's `index`), or `|s|` when there is none. */
  function FirstIndex<T(==)>(s: seq<T>, c: T): (n: nat)
    ensures n <= |s|
    ensures forall i :: 0 <= i < n ==> s[i] != c
    ensures n < |s| ==> s[n] == c
  {
    if s == [] then 0 else if s[0] == c then 0 else 1 + FirstIndex(s[1..], c)
  }
}
