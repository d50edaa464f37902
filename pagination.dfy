/**
 * A paginated remote collection, as the music service hands it out: a chain of
 * pages, each holding some items and, possibly, a cursor to the following page.
 * The chain is modelled as a sequence; following the cursor of page i yields
 * page i + 1.
 */
module Pagination {

  /** One page of results: its items and whether it carries a "next" cursor. */
  datatype Page<T> = Page(items: seq<T>, hasNext: bool)

  /** The cursor chain ends: some page carries no "next" cursor. */
  predicate Terminates<T>(pages: seq<Page<T>>)
  {
    exists i :: 0 <= i < |pages| && !pages[i].hasNext
  }

  lemma TerminatesTail<T>(pages: seq<Page<T>>)
    requires Terminates(pages) && pages[0].hasNext
    ensures Terminates(pages[1..])
  {
    var i :| 0 <= i < |pages| && !pages[i].hasNext;
    assert !pages[1..][i - 1].hasNext;
  }

  /** The number of pages a cursor-following loop requests: up to and
      including the first page without a "next" cursor. */
  function ChainLength<T>(pages: seq<Page<T>>): (n: nat)
    requires Terminates(pages)
    ensures 1 <= n <= |pages|
    ensures !pages[n - 1].hasNext
    ensures forall i :: 0 <= i < n - 1 ==> pages[i].hasNext
    decreases |pages|
  {
    if !pages[0].hasNext then 1
    else
      TerminatesTail(pages);
      var m := ChainLength(pages[1..]);
      assert forall i :: 1 <= i < m ==> pages[i] == pages[1..][i - 1];
      1 + m
  }

  /** The items of the given pages, page after page, each page's items in order. */
  function Flatten<T>(pages: seq<Page<T>>): seq<T>
  {
    if pages == [] then [] else Flatten(pages[..|pages| - 1]) + pages[|pages| - 1].items
  }

  /** The sum of the page lengths. */
  function TotalItems<T>(pages: seq<Page<T>>): nat
  {
    if pages == [] then 0 else TotalItems(pages[..|pages| - 1]) + |pages[|pages| - 1].items|
  }

  /** Everything a cursor-following loop collects from the chain. */
  function Fetched<T>(pages: seq<Page<T>>): seq<T>
    requires Terminates(pages)
  {
    Flatten(pages[..ChainLength(pages)])
  }

  lemma FlattenSnoc<T>(pages: seq<Page<T>>, k: nat)
    requires k < |pages|
    ensures Flatten(pages[..k + 1]) == Flatten(pages[..k]) + pages[k].items
  {
    assert pages[..k + 1][..k] == pages[..k];
  }

  /** Flattening commutes with concatenating page sequences. */
  lemma {:induction false} FlattenConcat<T>(a: seq<Page<T>>, b: seq<Page<T>>)
    ensures Flatten(a + b) == Flatten(a) + Flatten(b)
    decreases |b|
  {
    if b == [] {
      assert a + b == a;
    } else {
      var b' := b[..|b| - 1];
      assert (a + b)[..|a + b| - 1] == a + b';
      FlattenConcat(a, b');
    }
  }

  /** The flattened result is as long as all the pages together. */
  lemma {:induction false} FlattenLength<T>(pages: seq<Page<T>>)
    ensures |Flatten(pages)| == TotalItems(pages)
  {
    if pages != [] {
      FlattenLength(pages[..|pages| - 1]);
    }
  }

  /** Item j of page i sits in the flattened result right after the items
      of all earlier pages: page order and item order are both kept. */
  lemma FlattenIndex<T>(pages: seq<Page<T>>, i: nat, j: nat)
    requires i < |pages| && j < |pages[i].items|
    ensures TotalItems(pages[..i]) + j < |Flatten(pages)|
    ensures Flatten(pages)[TotalItems(pages[..i]) + j] == pages[i].items[j]
  {
    assert pages == pages[..i] + [pages[i]] + pages[i + 1..];
    FlattenConcat(pages[..i] + [pages[i]], pages[i + 1..]);
    FlattenConcat(pages[..i], [pages[i]]);
    assert Flatten([pages[i]]) == pages[i].items by {
      assert [pages[i]][..0] == [];
    }
    FlattenLength(pages[..i]);
  }

  /** Any page sequence with a cursor ending at position n - 1 (and none before)
      has chain length n. */
  lemma ChainLengthUnique<T>(pages: seq<Page<T>>, n: nat)
    requires 1 <= n <= |pages|
    requires !pages[n - 1].hasNext
    requires forall i :: 0 <= i < n - 1 ==> pages[i].hasNext
    ensures Terminates(pages) && ChainLength(pages) == n
  {
    assert Terminates(pages) by {
      assert 0 <= n - 1 < |pages| && !pages[n - 1].hasNext;
    }
    var m := ChainLength(pages);
    assert m <= n by {
      if m > n {
        assert false;
      }
    }
  }

  /** Pages beyond the end of the chain are never requested, so they cannot
      influence what the loop collects or how many pages it reads. */
  lemma FetchedIgnoresLaterPages<T>(pages: seq<Page<T>>, later: seq<Page<T>>)
    requires Terminates(pages)
    ensures Terminates(pages + later)
    ensures ChainLength(pages + later) == ChainLength(pages)
    ensures Fetched(pages + later) == Fetched(pages)
  {
    var n := ChainLength(pages);
    var all := pages + later;
    assert forall i :: 0 <= i < n ==> all[i] == pages[i];
    ChainLengthUnique(all, n);
    assert all[..n] == pages[..n];
  }

  /** The collected items number exactly the items on the pages read. */
  lemma FetchedLength<T>(pages: seq<Page<T>>)
    requires Terminates(pages)
    ensures |Fetched(pages)| == TotalItems(pages[..ChainLength(pages)])
  {
    FlattenLength(pages[..ChainLength(pages)]);
  }
}
