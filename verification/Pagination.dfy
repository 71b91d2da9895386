/** Collecting every page of a campaign search. */
module Pagination {

  function Min(m: nat, n: nat): nat {
    if m < n then m else n
  }

  // The search service answers exact slices of a fixed collection, and exactly whether more follow.
  function Page<C>(all: seq<C>, offset: nat, size: nat): seq<C> {
    all[Min(offset, |all|)..Min(offset + size, |all|)]
  }

  predicate HasMore<C>(all: seq<C>, offset: nat, size: nat) {
    offset + size < |all|
  }

  // The loop ends, unless pages are empty and the first one says that more follow.
  predicate Ends<C>(all: seq<C>, offset: nat, size: nat) {
    size > 0 || !HasMore(all, offset, size)
  }

  // Otherwise it does not: every later page says so again.
  lemma EmptyPagesNeverEnd<C>(all: seq<C>, offset: nat, size: nat, pageNumber: nat)
    requires !Ends(all, offset, size)
    ensures HasMore(all, size * pageNumber, size) && Page(all, size * pageNumber, size) == []
  {
    assert size * pageNumber == 0;
  }

  // What is collected: the page at the request's own offset and, if more follow it, everything but the first page.
  function Collected<C>(all: seq<C>, offset: nat, size: nat): seq<C> {
    Page(all, offset, size) + if HasMore(all, offset, size) then all[size..] else []
  }

  function Requests<C>(all: seq<C>, offset: nat, size: nat): nat
    requires Ends(all, offset, size)
  {
    if HasMore(all, offset, size) then (|all| + size - 1) / size else 1
  }

  // The first request is made at its own offset, the later ones at whole pages from the start of the collection.
  method GetCampaigns<C>(all: seq<C>, offset: nat, size: nat) returns (campaigns: seq<C>, ghost requests: nat)
    requires Ends(all, offset, size)
    ensures campaigns == Collected(all, offset, size)
    ensures requests == Requests(all, offset, size)
  {
    campaigns := Page(all, offset, size);
    requests := 1;
    var pageNumber: nat := 0;
    var more := HasMore(all, offset, size);
    while more
      invariant more ==> size > 0
      invariant requests == pageNumber + 1
      invariant pageNumber == 0 ==> campaigns == Page(all, offset, size) && (more <==> HasMore(all, offset, size))
      invariant pageNumber > 0 ==>
                  && HasMore(all, offset, size) && size * pageNumber < |all| && (more <==> HasMore(all, size * pageNumber, size))
                  && campaigns == Page(all, offset, size) + all[size..Min(size * pageNumber + size, |all|)]
      decreases |all| - size * pageNumber
    {
      assert size * (pageNumber + 1) == size * pageNumber + size;
      pageNumber := pageNumber + 1;
      campaigns := campaigns + Page(all, size * pageNumber, size);
      more := HasMore(all, size * pageNumber, size);
      requests := requests + 1;
    }
    if pageNumber > 0 {
      LastPage(|all|, size, pageNumber);
    }
  }

  // The number of pages, from where the last one begins.
  lemma LastPage(total: nat, size: nat, n: nat)
    requires size > 0 && size * n < total <= size * n + size
    ensures (total + size - 1) / size == n + 1
  {
    var q := (total + size - 1) / size;
    assert size * q <= total + size - 1 < size * q + size;
    if q < n + 1 {
      TimesGrows(size, q, n);
    } else if q > n + 1 {
      TimesGrows(size, n + 2, q);
    }
  }

  lemma TimesGrows(size: nat, m: nat, n: nat)
    requires m <= n
    ensures size * m <= size * n
  {
  }

  // From the start of the collection, everything is collected once and in order, in max(1, ceil(total / size)) requests.
  lemma FromTheStart<C>(all: seq<C>, size: nat)
    requires size > 0
    ensures Collected(all, 0, size) == all
    ensures Ends(all, 0, size) && Requests(all, 0, size) == var pages := (|all| + size - 1) / size; if pages > 1 then pages else 1
  {
    if HasMore(all, 0, size) {
      assert all == all[..size] + all[size..];
    }
    PagesOf(|all|, size);
  }

  lemma PagesOf(total: nat, size: nat)
    requires size > 0
    ensures if total <= size then (total + size - 1) / size <= 1 else (total + size - 1) / size >= 2
  {
    if total > size {
      AtLeastTwoPages(total, size);
    } else if total > 0 {
      LastPage(total, size, 0);
    } else {
      assert (size - 1) / size == 0;
    }
  }

  lemma AtLeastTwoPages(total: nat, size: nat)
    requires 0 < size < total
    ensures (total + size - 1) / size >= 2
  {
    var q := (total + size - 1) / size;
    assert size * q <= total + size - 1 < size * q + size;
    if q <= 1 {
      TimesGrows(size, q, 1);
    }
  }

  // From any other offset it goes wrong: with campaigns that differ, the collection comes back whole and in order
  // if and only if the request starts at offset 0, or there is nothing to collect.
  lemma WholeIffFromTheStart<C>(all: seq<C>, offset: nat, size: nat)
    requires size > 0 && forall i, j :: 0 <= i < j < |all| ==> all[i] != all[j]
    ensures Collected(all, offset, size) == all <==> offset == 0 || all == []
  {
    if offset == 0 {
      FromTheStart(all, size);
    } else if all != [] {
      var got := Collected(all, offset, size);
      if HasMore(all, offset, size) {
        assert got[0] == all[offset];
      } else {
        assert |got| < |all|;
      }
    }
  }

  // What is left from the offset on comes back if and only if the request starts at offset 0 or no page follows the first:
  // otherwise the later pages bring too much.
  lemma RestIffNoPageFollows<C>(all: seq<C>, offset: nat, size: nat)
    ensures Collected(all, offset, size) == all[Min(offset, |all|)..] <==> offset == 0 || !HasMore(all, offset, size)
  {
    if offset == 0 && HasMore(all, offset, size) {
      assert all == all[..size] + all[size..];
    } else if HasMore(all, offset, size) {
      assert |Collected(all, offset, size)| == |all|;
    }
  }
}
