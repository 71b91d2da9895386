/**
Binding bids to entity ids: the product cache as a get-or-allocate table from UPC to
entity id, and from entity id to product. Nothing is taken for granted about the UPCs: what
goes wrong when one reads like another key is part of the results.
 */
module BidBinding {
  import opened Options
  import opened PyDict
  import opened EntityCache

  datatype Product = Product(upc: string, description: string)

  datatype Bid = Bid(id: string, amount: Option<real>)

  datatype BidData = BidData(bid: Bid, entityId: Option<nat>, product: Option<Product>)

  type Products = Store<Product>

  function Upcs(bids: seq<Bid>): (upcs: seq<string>)
    ensures |upcs| == |bids| && forall i :: 0 <= i < |bids| ==> upcs[i] == bids[i].id
  {
    seq(|bids|, i requires 0 <= i < |bids| => bids[i].id)
  }

  // The entity id and the product the cache answers for a UPC; a UPC without an id looks its product up under "None".
  function CachedId(store: Products, upc: string): ShortRef {
    ReadId(Lookup(store, upc))
  }

  function CachedProduct(store: Products, upc: string): Option<Product> {
    AsDoc(Lookup(store, IdKey(CachedId(store, upc))))
  }

  function AsOption(id: ShortRef): Option<nat> {
    if id.Known? then Some(id.n) else None
  }

  // No UPC has anything but a number cached.
  predicate Fit(store: Products, upcs: seq<string>) {
    forall i :: 0 <= i < |upcs| ==> !CachedId(store, upcs[i]).Unfit?
  }

  // ---- What binding does to the cache ----

  function Unbound(store: Products, upcs: seq<string>): seq<string> {
    Filter(Dedupe(upcs), upc => CachedId(store, upc).Missing?)
  }

  function Unfetched(store: Products, upcs: seq<string>): seq<string> {
    Filter(Dedupe(upcs), upc => CachedProduct(store, upc).None?)
  }

  lemma UnboundAreMissing(store: Products, upcs: seq<string>)
    ensures Unrepeated(Unbound(store, upcs))
    ensures forall upc :: upc in Unbound(store, upcs) <==> upc in upcs && upc !in store
  {
    DedupeHasTheSameKeys(upcs);
    FilterKeeps(Dedupe(upcs), upc => CachedId(store, upc).Missing?);
  }

  lemma UnfetchedAreBids(store: Products, upcs: seq<string>)
    ensures forall upc :: upc in Unfetched(store, upcs) <==> upc in upcs && CachedProduct(store, upc).None?
  {
    DedupeHasTheSameKeys(upcs);
    FilterKeeps(Dedupe(upcs), upc => CachedProduct(store, upc).None?);
  }

  // The id a bid is handed: the cached one, or the next of the counter by its place among the UPCs without one.
  function Handed(store: Products, upcs: seq<string>, upc: string): Option<nat>
    requires Countable(store)
  {
    if CachedId(store, upc).Missing? then Some(Counter(store) + 1 + Place(Unbound(store, upcs), upc)) else AsOption(CachedId(store, upc))
  }

  lemma HandedIds(store: Products, upcs: seq<string>)
    requires Countable(store)
    ensures var unbound := Unbound(store, upcs);
            && (forall i :: 0 <= i < |unbound| ==> Handed(store, upcs, unbound[i]) == Some(Counter(store) + 1 + i))
            && (forall upc :: upc in upcs && upc !in unbound ==> Handed(store, upcs, upc) == AsOption(CachedId(store, upc)))
  {
    var unbound := Unbound(store, upcs);
    UnboundAreMissing(store, upcs);
    forall i | 0 <= i < |unbound| ensures Handed(store, upcs, unbound[i]) == Some(Counter(store) + 1 + i) {
      assert unbound[i] in unbound;
      PlaceAt(unbound, i);
    }
  }

  lemma NumbersOf(first: nat, keys: seq<string>)
    requires Unrepeated(keys)
    ensures forall k :: k in Numbered(first, keys).at <==> k in keys
    ensures forall i :: 0 <= i < |keys| ==> keys[i] in Numbered(first, keys).at && Numbered(first, keys).at[keys[i]] == first + i
  {
    UnrepeatedGetConsecutiveIds(first, keys);
    NumberedKeys(first, keys);
  }

  // {entity_id: product} for the UPCs to fetch that the catalog knows.
  function Records(ids: string -> Option<nat>, upcs: seq<string>, catalog: map<string, Product>): map<nat, Product> {
    if upcs == [] then map[]
    else
      var last := upcs[|upcs| - 1];
      var records := Records(ids, upcs[..|upcs| - 1], catalog);
      if last in catalog && ids(last).Some? then records[ids(last).value := catalog[last]] else records
  }

  lemma {:induction false} RecordHas(ids: string -> Option<nat>, upcs: seq<string>, catalog: map<string, Product>, upc: string)
    requires upc in upcs && upc in catalog && ids(upc).Some?
    ensures ids(upc).value in Records(ids, upcs, catalog)
  {
    var last := |upcs| - 1;
    assert upcs == upcs[..last] + [upcs[last]];
    if upcs[last] != upc {
      RecordHas(ids, upcs[..last], catalog, upc);
    }
  }

  function HandedBy(store: Products, upcs: seq<string>): string -> Option<nat>
    requires Countable(store)
  {
    upc => Handed(store, upcs, upc)
  }

  // The records one binding writes, and the cache it leaves: first the missing ids, then the fetched records.
  function Written(store: Products, upcs: seq<string>, catalog: map<string, Product>): map<nat, Product>
    requires Countable(store)
  {
    Records(HandedBy(store, upcs), Unfetched(store, upcs), catalog)
  }

  function Bound(store: Products, upcs: seq<string>, catalog: map<string, Product>): Products
    requires Countable(store)
  {
    Assigned(store, Unbound(store, upcs)) + Docs(Written(store, upcs, catalog))
  }

  // The keys have the numbers from first on, all others but the counter are as they were, and the counter ends at the
  // last number unless its own key was among them.
  ghost predicate NumbersFrom(store: Products, store': Products, first: nat, keys: seq<string>) {
    && (forall i :: 0 <= i < |keys| ==> keys[i] in store' && store'[keys[i]] == Num(first + i))
    && (forall k :: k != COUNTER && k !in keys ==> Lookup(store', k) == Lookup(store, k))
    && (COUNTER !in keys && keys != [] ==> first + |keys| > 0 && Lookup(store', COUNTER) == Some(Num(first + |keys| - 1)))
    && (keys == [] ==> store' == store)
  }

  lemma NumberedStore(store: Products, keys: seq<string>)
    requires Countable(store) && Unrepeated(keys)
    ensures NumbersFrom(store, Assigned(store, keys), Counter(store) + 1, keys)
  {
    if keys != [] {
      var first := Counter(store) + 1;
      NumbersOf(first, keys);
      AssignedIs(store, keys);
      OverlayNumbers(store, first, keys, Numbered(first, keys).at);
    }
  }

  lemma AssignedIs(store: Products, keys: seq<string>)
    requires Countable(store) && keys != []
    ensures Assigned(store, keys) == store[COUNTER := Num(Counter(store) + |keys|)] + Nums(Numbered(Counter(store) + 1, keys).at)
  {
  }

  lemma OverlayNumbers(store: Products, first: nat, keys: seq<string>, ids: map<string, nat>)
    requires 0 < first && keys != [] && forall k :: k in ids <==> k in keys
    requires forall i :: 0 <= i < |keys| ==> keys[i] in ids && ids[keys[i]] == first + i
    ensures NumbersFrom(store, store[COUNTER := Num(first + |keys| - 1)] + Nums(ids), first, keys)
  {
  }

  // ---- When the cache keeps the ids handed out ----

  // After the binding the cache has each bid's id under its UPC.
  ghost predicate Kept(store: Products, upcs: seq<string>, catalog: map<string, Product>)
    requires Countable(store)
  {
    forall i :: 0 <= i < |upcs| ==> AsOption(CachedId(Bound(store, upcs, catalog), upcs[i])) == Handed(store, upcs, upcs[i])
  }

  // No UPC of the bids reads as an id a record is written under.
  predicate RecordsApart(store: Products, upcs: seq<string>, catalog: map<string, Product>)
    requires Countable(store)
  {
    forall i :: 0 <= i < |upcs| ==> forall n :: n in Written(store, upcs, catalog) ==> Decimal(n) != upcs[i]
  }

  // A UPC that reads as the counter's own key has the counter for its id, which numbering others moves on.
  predicate CounterApart(store: Products, upcs: seq<string>) {
    COUNTER in upcs && COUNTER in store ==> Unbound(store, upcs) == []
  }

  // What the numbering leaves under a UPC.
  lemma NumberedUpc(store: Products, upcs: seq<string>, upc: string)
    requires Countable(store) && Fit(store, upcs) && upc in upcs
    ensures var numbered := Assigned(store, Unbound(store, upcs));
            && upc in numbered && numbered[upc].Num?
            && Handed(store, upcs, upc).Some?
            && (Some(numbered[upc].n) == Handed(store, upcs, upc) <==> !(upc == COUNTER && COUNTER in store && Unbound(store, upcs) != []))
  {
    var unbound := Unbound(store, upcs);
    UnboundAreMissing(store, upcs);
    NumberedStore(store, unbound);
    if upc in unbound {
      NewlyNumbered(store, upcs, upc, Assigned(store, unbound));
    } else {
      FitAt(store, upcs, upc);
    }
  }

  lemma NewlyNumbered(store: Products, upcs: seq<string>, upc: string, numbered: Products)
    requires Countable(store) && upc in Unbound(store, upcs) && NumbersFrom(store, numbered, Counter(store) + 1, Unbound(store, upcs))
    ensures upc in numbered && numbered[upc].Num? && Handed(store, upcs, upc) == Some(numbered[upc].n) && upc !in store
  {
    var unbound := Unbound(store, upcs);
    UnboundAreMissing(store, upcs);
    HandedIds(store, upcs);
    var i :| 0 <= i < |unbound| && unbound[i] == upc;
  }

  lemma FitAt(store: Products, upcs: seq<string>, upc: string)
    requires Fit(store, upcs) && upc in upcs && upc in store
    ensures store[upc].Num?
  {
    var i :| 0 <= i < |upcs| && upcs[i] == upc;
  }

  lemma KeptAt(store: Products, upcs: seq<string>, catalog: map<string, Product>, upc: string)
    requires Countable(store) && Fit(store, upcs) && upc in upcs
    ensures AsOption(CachedId(Bound(store, upcs, catalog), upc)) == Handed(store, upcs, upc)
            <==> (forall n :: n in Written(store, upcs, catalog) ==> Decimal(n) != upc)
                 && !(upc == COUNTER && COUNTER in store && Unbound(store, upcs) != [])
  {
    NumberedUpc(store, upcs, upc);
    NumberAfterRecords(Assigned(store, Unbound(store, upcs)), Written(store, upcs, catalog), upc);
  }

  lemma NumberAfterRecords(numbered: Products, records: map<nat, Product>, upc: string)
    requires upc in numbered && numbered[upc].Num?
    ensures AsOption(CachedId(numbered + Docs(records), upc))
            == if forall n :: n in records ==> Decimal(n) != upc then Some(numbered[upc].n) else None
  {
    WritingRecordsKeepsIff(numbered, records, upc);
    DocsKeys(records);
    if exists n :: n in records && Decimal(n) == upc {
      var n :| n in records && Decimal(n) == upc;
      assert (numbered + Docs(records))[upc].Doc?;
    }
  }

  // For any cache and any bids: the cache keeps every id handed out if and only if no UPC reads as an id a record was
  // written under, and none as the counter's key while others are numbered.
  lemma BindingKeepsIdsIff(store: Products, upcs: seq<string>, catalog: map<string, Product>)
    requires Countable(store) && Fit(store, upcs)
    ensures Kept(store, upcs, catalog) <==> RecordsApart(store, upcs, catalog) && CounterApart(store, upcs)
  {
    forall i | 0 <= i < |upcs|
      ensures AsOption(CachedId(Bound(store, upcs, catalog), upcs[i])) == Handed(store, upcs, upcs[i])
              <==> (forall n :: n in Written(store, upcs, catalog) ==> Decimal(n) != upcs[i])
                   && !(upcs[i] == COUNTER && COUNTER in store && Unbound(store, upcs) != [])
    {
      KeptAt(store, upcs, catalog, upcs[i]);
    }
    if COUNTER in upcs {
      var i :| 0 <= i < |upcs| && upcs[i] == COUNTER;
    }
  }

  // The counter ends where the ids handed out end, if and only if it was not itself overwritten by a number that is
  // not the last.
  lemma CounterMovesOnIff(store: Products, upcs: seq<string>, catalog: map<string, Product>)
    requires Countable(store)
    ensures var unbound, store' := Unbound(store, upcs), Bound(store, upcs, catalog);
            && Countable(store')
            && (Counter(store') == Counter(store) + |unbound| <==> (COUNTER in unbound ==> unbound[|unbound| - 1] == COUNTER))
  {
    var unbound, records := Unbound(store, upcs), Written(store, upcs, catalog);
    UnboundAreMissing(store, upcs);
    NumberedStore(store, unbound);
    DocsKeys(records);
    forall n | n in records ensures Decimal(n) != COUNTER {
      DecimalIsNoName(n);
    }
    if COUNTER in unbound {
      var i :| 0 <= i < |unbound| && unbound[i] == COUNTER;
    }
  }

  // ---- Get or allocate ----

  // Ids already cached are handed out as they are, and missing ones are the next ids of the counter in order of first
  // occurrence; the cache then has them all, when no key is in the way.
  lemma BindingIsGetOrAllocate(store: Products, upcs: seq<string>, catalog: map<string, Product>)
    requires Countable(store) && Fit(store, upcs)
    ensures var unbound := Unbound(store, upcs);
            && (forall upc :: upc in upcs ==> Handed(store, upcs, upc).Some?)
            && (forall upc :: upc in upcs && upc in store ==> store[upc].Num? && Handed(store, upcs, upc) == Some(store[upc].n))
            && (forall upc :: upc in upcs && upc !in store ==> upc in unbound)
            && (forall i :: 0 <= i < |unbound| ==> Handed(store, upcs, unbound[i]) == Some(Counter(store) + 1 + i))
    ensures RecordsApart(store, upcs, catalog) && CounterApart(store, upcs) ==> Kept(store, upcs, catalog)
  {
    UnboundAreMissing(store, upcs);
    HandedIds(store, upcs);
    forall upc | upc in upcs && upc in store ensures store[upc].Num? {
      FitAt(store, upcs, upc);
    }
    forall upc | upc in upcs ensures Handed(store, upcs, upc).Some? {
      NumberedUpc(store, upcs, upc);
    }
    BindingKeepsIdsIff(store, upcs, catalog);
  }

  // The cached ids of the bids are different, and none is among the numbers about to be given.
  predicate WellNumbered(store: Products, upcs: seq<string>)
    requires Countable(store)
  {
    && (forall i, j :: 0 <= i < |upcs| && 0 <= j < |upcs| && CachedId(store, upcs[i]).Known? && CachedId(store, upcs[i]) == CachedId(store, upcs[j]) ==>
          upcs[i] == upcs[j])
    && (forall i :: 0 <= i < |upcs| && CachedId(store, upcs[i]).Known? ==>
          !(Counter(store) < CachedId(store, upcs[i]).n <= Counter(store) + |Unbound(store, upcs)|))
  }

  ghost predicate SharedOnlyByUpc(store: Products, upcs: seq<string>)
    requires Countable(store)
  {
    forall i, j :: 0 <= i < |upcs| && 0 <= j < |upcs| && Handed(store, upcs, upcs[i]) == Handed(store, upcs, upcs[j]) ==> upcs[i] == upcs[j]
  }

  // Two bids are handed the same id exactly when they have the same UPC, if and only if the cached ids were in order.
  lemma SameIdIffSameUpc(store: Products, upcs: seq<string>)
    requires Countable(store) && Fit(store, upcs)
    ensures SharedOnlyByUpc(store, upcs) <==> WellNumbered(store, upcs)
  {
    var unbound := Unbound(store, upcs);
    UnboundAreMissing(store, upcs);
    HandedIds(store, upcs);
    if WellNumbered(store, upcs) {
      forall i, j | 0 <= i < |upcs| && 0 <= j < |upcs| && Handed(store, upcs, upcs[i]) == Handed(store, upcs, upcs[j])
        ensures upcs[i] == upcs[j]
      {
        SharedId(store, upcs, upcs[i], upcs[j]);
      }
    }
    if !WellNumbered(store, upcs) {
      Shared(store, upcs);
    }
  }

  lemma Shared(store: Products, upcs: seq<string>)
    requires Countable(store) && Fit(store, upcs) && !WellNumbered(store, upcs)
    ensures !SharedOnlyByUpc(store, upcs)
  {
    var unbound := Unbound(store, upcs);
    UnboundAreMissing(store, upcs);
    HandedIds(store, upcs);
    if i, j :| 0 <= i < |upcs| && 0 <= j < |upcs| && CachedId(store, upcs[i]).Known? && CachedId(store, upcs[i]) == CachedId(store, upcs[j]) && upcs[i] != upcs[j] {
      assert Handed(store, upcs, upcs[i]) == Handed(store, upcs, upcs[j]);
    } else {
      var i :| 0 <= i < |upcs| && CachedId(store, upcs[i]).Known? && Counter(store) < CachedId(store, upcs[i]).n <= Counter(store) + |unbound|;
      var upc := unbound[CachedId(store, upcs[i]).n - Counter(store) - 1];
      assert upc in unbound && upc in upcs;
      var j :| 0 <= j < |upcs| && upcs[j] == upc;
      assert Handed(store, upcs, upcs[i]) == Handed(store, upcs, upcs[j]);
    }
  }

  // A newly given number.
  lemma NewNumber(store: Products, upcs: seq<string>, upc: string)
    requires Countable(store) && upc in Unbound(store, upcs)
    ensures Handed(store, upcs, upc).Some? && Counter(store) < Handed(store, upcs, upc).value <= Counter(store) + |Unbound(store, upcs)|
  {
    var unbound := Unbound(store, upcs);
    HandedIds(store, upcs);
    var i :| 0 <= i < |unbound| && unbound[i] == upc;
  }

  lemma SharedId(store: Products, upcs: seq<string>, a: string, b: string)
    requires Countable(store) && Fit(store, upcs) && WellNumbered(store, upcs) && a in upcs && b in upcs
    requires Handed(store, upcs, a) == Handed(store, upcs, b)
    ensures a == b
  {
    var unbound := Unbound(store, upcs);
    UnboundAreMissing(store, upcs);
    HandedIds(store, upcs);
    var i :| 0 <= i < |upcs| && upcs[i] == a;
    var j :| 0 <= j < |upcs| && upcs[j] == b;
    if a in unbound {
      var m :| 0 <= m < |unbound| && unbound[m] == a;
      NewNumber(store, upcs, a);
      if b in unbound {
        var n :| 0 <= n < |unbound| && unbound[n] == b;
      }
    } else if b in unbound {
      NewNumber(store, upcs, b);
    }
  }

  // Binding the same bids again hands out the same ids and numbers nothing.
  ghost predicate SameAgain(store: Products, upcs: seq<string>, once: Products)
    requires Countable(store) && Countable(once)
  {
    && Fit(once, upcs) && Unbound(once, upcs) == []
    && forall i :: 0 <= i < |upcs| ==> Handed(once, upcs, upcs[i]) == Handed(store, upcs, upcs[i])
  }

  // It does so if and only if no key was in the way the first time.
  lemma BindingAgainIff(store: Products, upcs: seq<string>, catalog: map<string, Product>)
    requires Countable(store) && Fit(store, upcs)
    ensures Countable(Bound(store, upcs, catalog))
    ensures SameAgain(store, upcs, Bound(store, upcs, catalog)) <==> RecordsApart(store, upcs, catalog) && CounterApart(store, upcs)
  {
    var once := Bound(store, upcs, catalog);
    CounterMovesOnIff(store, upcs, catalog);
    BindingKeepsIdsIff(store, upcs, catalog);
    BindingIsGetOrAllocate(store, upcs, catalog);
    UnboundAreMissing(once, upcs);
    HandedIds(once, upcs);
    if Kept(store, upcs, catalog) {
      KeptIsAllBound(store, upcs, catalog);
    }
    if SameAgain(store, upcs, once) {
      forall i | 0 <= i < |upcs| ensures AsOption(CachedId(once, upcs[i])) == Handed(store, upcs, upcs[i]) {
        assert Handed(once, upcs, upcs[i]) == Handed(store, upcs, upcs[i]);
      }
    }
  }

  lemma KeptIsAllBound(store: Products, upcs: seq<string>, catalog: map<string, Product>)
    requires Countable(store) && Fit(store, upcs) && Kept(store, upcs, catalog) && Countable(Bound(store, upcs, catalog))
    ensures SameAgain(store, upcs, Bound(store, upcs, catalog))
  {
    var once := Bound(store, upcs, catalog);
    forall i | 0 <= i < |upcs| ensures CachedId(once, upcs[i]).Known? {
      NumberedUpc(store, upcs, upcs[i]);
    }
    UnboundAreMissing(once, upcs);
    HandedIds(once, upcs);
    HasAKey(Unbound(once, upcs));
  }

  lemma HasAKey(keys: seq<string>)
    ensures keys == [] || exists k :: k in keys
  {
    if keys != [] {
      assert keys[0] in keys;
    }
  }

  // ---- Products ----

  // A UPC whose product is fetched and written under n.
  ghost predicate FetchedFor(store: Products, upcs: seq<string>, catalog: map<string, Product>, upc: string, n: nat)
    requires Countable(store)
  {
    upc in upcs && CachedProduct(store, upc).None? && upc in catalog && Handed(store, upcs, upc) == Some(n)
  }

  // Every record is the catalog's product of a UPC with that id.
  lemma {:induction false} RecordOf(ids: string -> Option<nat>, upcs: seq<string>, catalog: map<string, Product>, n: nat) returns (upc: string)
    requires n in Records(ids, upcs, catalog)
    ensures upc in upcs && upc in catalog && ids(upc) == Some(n) && Records(ids, upcs, catalog)[n] == catalog[upc]
  {
    var last := upcs[|upcs| - 1];
    if last in catalog && ids(last) == Some(n) {
      upc := last;
    } else {
      upc := RecordOf(ids, upcs[..|upcs| - 1], catalog, n);
    }
  }

  // For any cache and any bids: a number gets a record exactly when some UPC to fetch that the catalog knows was handed it,
  // and the record is the catalog's product of such a UPC, as the catalog has it.
  lemma WrittenIsTheCatalog(store: Products, upcs: seq<string>, catalog: map<string, Product>, n: nat)
    requires Countable(store)
    ensures n in Written(store, upcs, catalog) <==> exists upc :: FetchedFor(store, upcs, catalog, upc, n)
    ensures n in Written(store, upcs, catalog) ==>
              exists upc :: FetchedFor(store, upcs, catalog, upc, n) && Written(store, upcs, catalog)[n] == catalog[upc]
  {
    UnfetchedAreBids(store, upcs);
    if n in Written(store, upcs, catalog) {
      var upc := RecordOf(HandedBy(store, upcs), Unfetched(store, upcs), catalog, n);
      assert FetchedFor(store, upcs, catalog, upc, n);
    }
    if upc :| FetchedFor(store, upcs, catalog, upc, n) {
      assert HandedBy(store, upcs)(upc) == Some(n);
      RecordHas(HandedBy(store, upcs), Unfetched(store, upcs), catalog, upc);
    }
  }

  // The key ends with the catalog's product of a UPC that was handed the number it spells.
  ghost predicate EndsAsProduct(store: Products, upcs: seq<string>, catalog: map<string, Product>, key: string)
    requires Countable(store)
  {
    exists n, upc :: key == Decimal(n) && FetchedFor(store, upcs, catalog, upc, n)
                     && Lookup(Bound(store, upcs, catalog), key) == Some(Doc(catalog[upc]))
  }

  // So each key of the cache ends with such a product, or as the numbering left it.
  lemma OnlyProductsAreWritten(store: Products, upcs: seq<string>, catalog: map<string, Product>, key: string)
    requires Countable(store)
    ensures EndsAsProduct(store, upcs, catalog, key)
            || Lookup(Bound(store, upcs, catalog), key) == Lookup(Assigned(store, Unbound(store, upcs)), key)
  {
    var written := Written(store, upcs, catalog);
    DocsKeys(written);
    if key in Docs(written) {
      var n :| n in written && key == Decimal(n);
      NumberEndsAsProduct(store, upcs, catalog, n);
    } else {
      RecordsOverlay(Assigned(store, Unbound(store, upcs)), written);
    }
  }

  // And every number handed to a UPC to fetch that the catalog knows ends with one.
  lemma FetchedEndAsProducts(store: Products, upcs: seq<string>, catalog: map<string, Product>, upc: string, n: nat)
    requires Countable(store) && FetchedFor(store, upcs, catalog, upc, n)
    ensures EndsAsProduct(store, upcs, catalog, Decimal(n))
  {
    WrittenIsTheCatalog(store, upcs, catalog, n);
    NumberEndsAsProduct(store, upcs, catalog, n);
  }

  lemma NumberEndsAsProduct(store: Products, upcs: seq<string>, catalog: map<string, Product>, n: nat)
    requires Countable(store) && n in Written(store, upcs, catalog)
    ensures EndsAsProduct(store, upcs, catalog, Decimal(n))
  {
    WrittenIsTheCatalog(store, upcs, catalog, n);
    var upc :| FetchedFor(store, upcs, catalog, upc, n) && Written(store, upcs, catalog)[n] == catalog[upc];
    RecordUnder(Assigned(store, Unbound(store, upcs)), Written(store, upcs, catalog), n);
  }

  // No UPC in the way of another: no text of one is a key of another kind, no id is shared, nothing is under "None".
  predicate NothingInTheWay(store: Products, upcs: seq<string>, catalog: map<string, Product>)
    requires Countable(store)
  {
    && Fit(store, upcs) && RecordsApart(store, upcs, catalog) && CounterApart(store, upcs) && WellNumbered(store, upcs)
    && AsDoc(Lookup(store, NONE)).None?
  }

  // Then a product that was not cached ends as the one the catalog has for its UPC, where it has one, and a cached
  // product stays the same.
  lemma ProductsAreTheCatalogs(store: Products, upcs: seq<string>, catalog: map<string, Product>, upc: string)
    requires Countable(store) && NothingInTheWay(store, upcs, catalog) && upc in upcs
    ensures CachedProduct(store, upc).None? && upc in catalog ==> CachedProduct(Bound(store, upcs, catalog), upc) == Some(catalog[upc])
    ensures CachedProduct(store, upc).Some? ==> CachedProduct(Bound(store, upcs, catalog), upc) == CachedProduct(store, upc)
  {
    NumberedUpc(store, upcs, upc);
    KeptAt(store, upcs, catalog, upc);
    var i :| 0 <= i < |upcs| && upcs[i] == upc;
    var id := Handed(store, upcs, upc).value;
    KnownAs(Bound(store, upcs, catalog), upc, Handed(store, upcs, upc));
    if CachedProduct(store, upc).None? && upc in catalog {
      assert FetchedFor(store, upcs, catalog, upc, id);
      WrittenForOne(store, upcs, catalog, upc, id);
      RecordUnder(Assigned(store, Unbound(store, upcs)), Written(store, upcs, catalog), id);
    } else if CachedProduct(store, upc).Some? {
      CachedStaysTheSame(store, upcs, catalog, upc);
    }
  }

  // The record under an id that a fetched UPC was handed is that UPC's own.
  lemma WrittenForOne(store: Products, upcs: seq<string>, catalog: map<string, Product>, upc: string, n: nat)
    requires Countable(store) && Fit(store, upcs) && WellNumbered(store, upcs) && FetchedFor(store, upcs, catalog, upc, n)
    ensures n in Written(store, upcs, catalog) && Written(store, upcs, catalog)[n] == catalog[upc]
  {
    WrittenIsTheCatalog(store, upcs, catalog, n);
    var other :| FetchedFor(store, upcs, catalog, other, n) && Written(store, upcs, catalog)[n] == catalog[other];
    SharedId(store, upcs, upc, other);
  }

  lemma RecordUnder(store: Products, records: map<nat, Product>, n: nat)
    ensures n in records ==> Lookup(store + Docs(records), Decimal(n)) == Some(Doc(records[n]))
    ensures n !in records ==> Lookup(store + Docs(records), Decimal(n)) == Lookup(store, Decimal(n))
  {
    RecordsOverlay(store, records);
  }

  lemma CachedStaysTheSame(store: Products, upcs: seq<string>, catalog: map<string, Product>, upc: string)
    requires Countable(store) && Fit(store, upcs) && WellNumbered(store, upcs) && AsDoc(Lookup(store, NONE)).None?
    requires upc in upcs && CachedProduct(store, upc).Some?
    ensures Handed(store, upcs, upc).Some?
    ensures AsDoc(Lookup(Bound(store, upcs, catalog), Decimal(Handed(store, upcs, upc).value))) == CachedProduct(store, upc)
  {
    ProductKey(store, upcs, upc);
    var n := store[upc].n;
    DecimalIsNoName(n);
    UnboundAreMissing(store, upcs);
    NumberedStore(store, Unbound(store, upcs));
    assert Decimal(n) !in Unbound(store, upcs);
    NotWritten(store, upcs, catalog, upc, n);
    RecordUnder(Assigned(store, Unbound(store, upcs)), Written(store, upcs, catalog), n);
  }

  lemma NotWritten(store: Products, upcs: seq<string>, catalog: map<string, Product>, upc: string, n: nat)
    requires Countable(store) && Fit(store, upcs) && WellNumbered(store, upcs)
    requires upc in upcs && CachedProduct(store, upc).Some? && Handed(store, upcs, upc) == Some(n)
    ensures n !in Written(store, upcs, catalog)
  {
    WrittenIsTheCatalog(store, upcs, catalog, n);
    forall other ensures !FetchedFor(store, upcs, catalog, other, n) {
      if FetchedFor(store, upcs, catalog, other, n) {
        SharedId(store, upcs, upc, other);
      }
    }
  }

  // When no key is in the way and nothing is cached under "None", a product the catalog knows is cached afterwards, so a
  // second binding would not fetch it again.
  lemma KnownProductsAreCached(store: Products, upcs: seq<string>, catalog: map<string, Product>, upc: string)
    requires Countable(store) && Fit(store, upcs) && RecordsApart(store, upcs, catalog) && CounterApart(store, upcs)
    requires AsDoc(Lookup(store, NONE)).None? && upc in upcs && upc in catalog
    ensures CachedProduct(Bound(store, upcs, catalog), upc).Some?
  {
    NumberedUpc(store, upcs, upc);
    KeptAt(store, upcs, catalog, upc);
    var i :| 0 <= i < |upcs| && upcs[i] == upc;
    KnownAs(Bound(store, upcs, catalog), upc, Handed(store, upcs, upc));
    if CachedProduct(store, upc).None? {
      UnfetchedAreBids(store, upcs);
      FetchedIsWritten(store, upcs, catalog, upc);
    } else {
      CachedStays(store, upcs, catalog, upc);
    }
    ProductUnder(Bound(store, upcs, catalog), upc, Handed(store, upcs, upc).value);
  }

  lemma ProductUnder(store: Products, upc: string, n: nat)
    requires CachedId(store, upc) == Known(n) && AsDoc(Lookup(store, Decimal(n))).Some?
    ensures CachedProduct(store, upc).Some?
  {
  }

  lemma KnownAs(store: Products, upc: string, id: Option<nat>)
    requires AsOption(CachedId(store, upc)) == id && id.Some?
    ensures CachedId(store, upc) == Known(id.value)
  {
  }

  lemma FetchedIsWritten(store: Products, upcs: seq<string>, catalog: map<string, Product>, upc: string)
    requires Countable(store) && upc in Unfetched(store, upcs) && upc in catalog && Handed(store, upcs, upc).Some?
    ensures AsDoc(Lookup(Bound(store, upcs, catalog), Decimal(Handed(store, upcs, upc).value))).Some?
  {
    assert HandedBy(store, upcs)(upc) == Handed(store, upcs, upc);
    RecordHas(HandedBy(store, upcs), Unfetched(store, upcs), catalog, upc);
    RecordIsThere(Assigned(store, Unbound(store, upcs)), Written(store, upcs, catalog), Handed(store, upcs, upc).value);
  }

  lemma RecordIsThere(store: Products, records: map<nat, Product>, n: nat)
    requires n in records
    ensures AsDoc(Lookup(store + Docs(records), Decimal(n))).Some?
  {
    DocsKeys(records);
  }

  lemma CachedStays(store: Products, upcs: seq<string>, catalog: map<string, Product>, upc: string)
    requires Countable(store) && Fit(store, upcs) && upc in upcs && CachedProduct(store, upc).Some? && AsDoc(Lookup(store, NONE)).None?
    ensures Handed(store, upcs, upc).Some?
    ensures AsDoc(Lookup(Bound(store, upcs, catalog), Decimal(Handed(store, upcs, upc).value))).Some?
  {
    ProductKey(store, upcs, upc);
    var key := Decimal(store[upc].n);
    DecimalIsNoName(store[upc].n);
    UnboundAreMissing(store, upcs);
    NumberedStore(store, Unbound(store, upcs));
    assert key !in Unbound(store, upcs);
    RecordStays(Assigned(store, Unbound(store, upcs)), Written(store, upcs, catalog), key);
  }

  // A product cached for a UPC is that of its own id.
  lemma ProductKey(store: Products, upcs: seq<string>, upc: string)
    requires Countable(store) && Fit(store, upcs) && upc in upcs && CachedProduct(store, upc).Some? && AsDoc(Lookup(store, NONE)).None?
    ensures upc in store && store[upc].Num? && Handed(store, upcs, upc) == Some(store[upc].n)
    ensures AsDoc(Lookup(store, Decimal(store[upc].n))).Some?
  {
    UnboundAreMissing(store, upcs);
    HandedIds(store, upcs);
    FitAt(store, upcs, upc);
  }

  lemma RecordStays(store: Products, records: map<nat, Product>, key: string)
    requires AsDoc(Lookup(store, key)).Some?
    ensures AsDoc(Lookup(store + Docs(records), key)).Some?
  {
    DocsKeys(records);
  }

  // One input where keys are in the way: the UPC "1" is numbered 1, and its own product record then overwrites that id.
  lemma RecordOverwritesCollidingUpc(product: Product)
    ensures !RecordsApart(map[], ["1"], map["1" := product])
    ensures CachedId(Bound(map[], ["1"], map["1" := product]), "1") == Unfit
  {
    var one := "1";
    assert one == Decimal(1);
    FirstBinding(one, product);
    var written := Written(map[], [one], map[one := product]);
    DocsKeys(written);
    assert [one][0] == one && 1 in written && Decimal(1) == one;
  }

  // The first UPC bound gets id 1, and its product is written there.
  lemma FirstBinding(upc: string, product: Product)
    ensures 1 in Written(map[], [upc], map[upc := product])
  {
    var empty: Products := map[];
    HandedFirst(empty, upc);
    UnfetchedAreBids(empty, [upc]);
    assert upc in [upc] && CachedProduct(empty, upc).None?;
    RecordHas(HandedBy(empty, [upc]), Unfetched(empty, [upc]), map[upc := product], upc);
  }

  lemma HandedFirst(store: Products, upc: string)
    requires Countable(store) && upc !in store
    ensures HandedBy(store, [upc])(upc) == Some(Counter(store) + 1)
  {
    OneUnbound(store, upc);
    assert Place([upc], upc) == 0;
  }

  lemma OneUnbound(store: Products, upc: string)
    requires upc !in store
    ensures Unbound(store, [upc]) == [upc]
  {
    DedupeOne(upc);
    FilterOne(upc, k => CachedId(store, k).Missing?);
    FilterAgrees([upc], k => CachedId(store, k).Missing?, k => CachedId(store, k).Missing?);
  }

  lemma DedupeOne(key: string)
    ensures Dedupe([key]) == [key]
  {
    assert [key][..0] == [] && Dedupe([key][..0]) == [];
  }

  lemma FilterOne(key: string, p: string -> bool)
    requires p(key)
    ensures Filter([key], p) == [key]
  {
    assert [key][..0] == [] && Filter([key][..0], p) == [];
  }

  // ---- The service ----

  datatype Fault = InvalidBid

  // What the service holds for each UPC, in the order of the bids.
  ghost predicate Holds(data: Dict<string, BidData>, upcs: seq<string>, ids: string -> Option<nat>, store: Products) {
    && data.keys == Dedupe(upcs) && (forall upc :: upc in upcs <==> upc in data.at)
    && forall upc :: upc in data.at ==> data.at[upc].entityId == ids(upc) && data.at[upc].product == CachedProduct(store, upc)
  }

  function CachedBy(store: Products): string -> Option<nat> {
    upc => AsOption(CachedId(store, upc))
  }

  class BidManagerService {
    const cache: RedisEntity<Product>

    constructor (cache: RedisEntity<Product>)
      ensures this.cache == cache
    {
      this.cache := cache;
    }

    // catalog is the product gateway's answer: the valid product of each UPC it knows. A UPC with anything but a number
    // cached makes no valid bid, and nothing is written.
    method BindBidsToEntityIds(bids: seq<Bid>, catalog: map<string, Product>) returns (r: Result<seq<(Bid, Option<nat>)>, Fault>)
      requires Countable(cache.store)
      modifies cache
      ensures r.Ok? <==> Fit(old(cache.store), Upcs(bids))
      ensures r.Err? ==> cache.store == old(cache.store)
      ensures r.Ok? ==>
                && cache.store == Bound(old(cache.store), Upcs(bids), catalog)
                && |r.value| == |bids|
                && forall i :: 0 <= i < |bids| ==> r.value[i] == (bids[i], Handed(old(cache.store), Upcs(bids), bids[i].id))
    {
      ghost var before, upcs := cache.store, Upcs(bids);
      var cached := CachedData(bids);
      if cached.None? {
        return Err(InvalidBid);
      }
      var data := BindMissingEntityIds(cached.value, upcs);
      BindMissingProducts(data, upcs, before, catalog);
      var bound := EntityIds(bids, data, HandedBy(before, upcs), before);
      r := Ok(bound);
    }

    method EntityIds(bids: seq<Bid>, data: Dict<string, BidData>, ghost ids: string -> Option<nat>, ghost before: Products)
      returns (bound: seq<(Bid, Option<nat>)>)
      requires Holds(data, Upcs(bids), ids, before)
      ensures |bound| == |bids|
      ensures forall i :: 0 <= i < |bids| ==> bound[i] == (bids[i], ids(bids[i].id))
    {
      bound := [];
      for i := 0 to |bids|
        invariant |bound| == i
        invariant forall j :: 0 <= j < i ==> bound[j] == (bids[j], ids(bids[j].id))
      {
        assert Upcs(bids)[i] in Upcs(bids);
        bound := bound + [(bids[i], if bids[i].id in data.at then data.at[bids[i].id].entityId else None)];
      }
    }

    // The dict the binding starts from: what the cache has, by UPC.
    method CachedData(bids: seq<Bid>) returns (data: Option<Dict<string, BidData>>)
      ensures data.Some? <==> Fit(cache.store, Upcs(bids))
      ensures data.Some? ==> Holds(data.value, Upcs(bids), CachedBy(cache.store), cache.store)
    {
      var upcs := Upcs(bids);
      var values := cache.Mget(upcs);
      var ids := seq(|values|, i requires 0 <= i < |values| => ReadId(values[i]));
      var products := cache.Mget(seq(|ids|, i requires 0 <= i < |ids| => IdKey(ids[i])));
      data := Collect(bids, ids, products, cache.store);
    }

    method BindMissingEntityIds(data: Dict<string, BidData>, ghost upcs: seq<string>) returns (data': Dict<string, BidData>)
      requires Countable(cache.store) && Fit(cache.store, upcs) && Holds(data, upcs, CachedBy(cache.store), cache.store)
      modifies cache
      ensures cache.store == Assigned(old(cache.store), Unbound(old(cache.store), upcs))
      ensures Holds(data', upcs, HandedBy(old(cache.store), upcs), old(cache.store))
    {
      ghost var before := cache.store;
      var missing := Filter(data.keys, upc => upc in data.at && data.at[upc].entityId.None?);
      MissingIds(data, upcs, before);
      UnboundAreMissing(before, upcs);
      if missing == [] {
        data' := data;
        NothingToFill(data, upcs, before);
      } else {
        data' := Generate(data, missing, upcs);
      }
    }

    method Generate(data: Dict<string, BidData>, missing: seq<string>, ghost upcs: seq<string>) returns (data': Dict<string, BidData>)
      requires Countable(cache.store) && missing == Unbound(cache.store, upcs) && Unrepeated(missing)
      requires Holds(data, upcs, CachedBy(cache.store), cache.store) && forall upc :: upc in missing ==> upc in upcs
      modifies cache
      ensures cache.store == Assigned(old(cache.store), missing)
      ensures Holds(data', upcs, HandedBy(old(cache.store), upcs), old(cache.store))
    {
      ghost var before := cache.store;
      var generated := cache.AssignNumericIdBatch(missing);
      UnrepeatedAssignedIds(before, missing);
      data' := FillIds(data, missing, generated);
      FilledIds(data, data', missing, generated, upcs, before);
    }

    method BindMissingProducts(data: Dict<string, BidData>, ghost upcs: seq<string>, ghost before: Products, catalog: map<string, Product>)
      requires Countable(before) && Fit(before, upcs) && Holds(data, upcs, HandedBy(before, upcs), before)
      modifies cache
      ensures cache.store == old(cache.store) + Docs(Written(before, upcs, catalog))
    {
      var missing := Filter(data.keys, upc => upc in data.at && data.at[upc].product.None?);
      MissingProducts(data, upcs, HandedBy(before, upcs), before);
      if missing == [] {
        return;
      }
      UnfetchedAreHanded(data, upcs, missing, before);
      var records := ToCache(data, missing, catalog, HandedBy(before, upcs));
      cache.Mset(Docs(records));
    }
  }

  method Collect(bids: seq<Bid>, ids: seq<ShortRef>, products: seq<Option<Value<Product>>>, ghost store: Products)
    returns (data: Option<Dict<string, BidData>>)
    requires |ids| == |bids| == |products|
    requires forall i :: 0 <= i < |bids| ==> ids[i] == CachedId(store, bids[i].id) && AsDoc(products[i]) == CachedProduct(store, bids[i].id)
    ensures data.Some? <==> Fit(store, Upcs(bids))
    ensures data.Some? ==> Holds(data.value, Upcs(bids), CachedBy(store), store)
  {
    var held: Dict<string, BidData> := Empty();
    for i := 0 to |bids|
      invariant Holds(held, Upcs(bids[..i]), CachedBy(store), store)
      invariant Fit(store, Upcs(bids[..i]))
    {
      UpcsSnoc(bids, i, store);
      if ids[i].Unfit? {
        return None;
      }
      var d := BidData(bids[i], AsOption(ids[i]), AsDoc(products[i]));
      HoldsOneMore(held, Upcs(bids[..i]), d, bids[i].id, store);
      held := Put(held, bids[i].id, d);
    }
    assert bids[..|bids|] == bids;
    data := Some(held);
  }

  lemma UpcsSnoc(bids: seq<Bid>, i: nat, store: Products)
    requires i < |bids|
    ensures Upcs(bids[..i + 1]) == Upcs(bids[..i]) + [bids[i].id]
    ensures Fit(store, Upcs(bids[..i + 1])) <==> Fit(store, Upcs(bids[..i])) && !CachedId(store, bids[i].id).Unfit?
    ensures CachedId(store, bids[i].id).Unfit? ==> !Fit(store, Upcs(bids))
  {
    var some, more := Upcs(bids[..i]), Upcs(bids[..i + 1]);
    assert more == some + [bids[i].id];
    if Fit(store, more) {
      assert more[i] == bids[i].id;
      assert forall j :: 0 <= j < i ==> more[j] == some[j];
    }
    assert Upcs(bids)[i] == bids[i].id;
  }

  lemma MissingIds(data: Dict<string, BidData>, upcs: seq<string>, store: Products)
    requires Holds(data, upcs, CachedBy(store), store) && Fit(store, upcs)
    ensures Filter(data.keys, upc => upc in data.at && data.at[upc].entityId.None?) == Unbound(store, upcs)
  {
    DedupeHasTheSameKeys(upcs);
    forall upc | upc in upcs ensures CachedBy(store)(upc).None? <==> CachedId(store, upc).Missing? {
      var i :| 0 <= i < |upcs| && upcs[i] == upc;
    }
    FilterAgrees(data.keys, upc => upc in data.at && data.at[upc].entityId.None?, upc => CachedId(store, upc).Missing?);
  }

  lemma MissingProducts(data: Dict<string, BidData>, upcs: seq<string>, ids: string -> Option<nat>, store: Products)
    requires Holds(data, upcs, ids, store)
    ensures Filter(data.keys, upc => upc in data.at && data.at[upc].product.None?) == Unfetched(store, upcs)
  {
    DedupeHasTheSameKeys(upcs);
    FilterAgrees(data.keys, upc => upc in data.at && data.at[upc].product.None?, upc => CachedProduct(store, upc).None?);
  }

  lemma NothingToFill(data: Dict<string, BidData>, upcs: seq<string>, store: Products)
    requires Countable(store) && Unbound(store, upcs) == [] && Holds(data, upcs, CachedBy(store), store)
    ensures Holds(data, upcs, HandedBy(store, upcs), store)
  {
    HandedIds(store, upcs);
  }

  // data with the ids of the missing UPCs written in, the others left alone.
  ghost predicate Filled(data: Dict<string, BidData>, data': Dict<string, BidData>, missing: seq<string>, ids: seq<nat>)
    requires |missing| == |ids|
  {
    && data'.keys == data.keys && (forall upc :: upc in data'.at <==> upc in data.at)
    && (forall upc :: upc in data.at ==> data'.at[upc].product == data.at[upc].product)
    && (forall upc :: upc in data.at && upc !in missing ==> data'.at[upc].entityId == data.at[upc].entityId)
    && (forall i :: 0 <= i < |missing| ==> missing[i] in data'.at && data'.at[missing[i]].entityId == Some(ids[i]))
  }

  method FillIds(data: Dict<string, BidData>, missing: seq<string>, ids: seq<nat>) returns (data': Dict<string, BidData>)
    requires |missing| == |ids| && Unrepeated(missing) && forall i :: 0 <= i < |missing| ==> missing[i] in data.at
    ensures Filled(data, data', missing, ids)
  {
    data' := data;
    for i := 0 to |missing|
      invariant Filled(data, data', missing[..i], ids[..i])
    {
      FillStep(data, data', missing, ids, i);
      data' := data'.(at := data'.at[missing[i] := data'.at[missing[i]].(entityId := Some(ids[i]))]);
    }
    assert missing[..|missing|] == missing && ids[..|missing|] == ids;
  }

  lemma FillStep(data: Dict<string, BidData>, data': Dict<string, BidData>, missing: seq<string>, ids: seq<nat>, i: nat)
    requires |missing| == |ids| && Unrepeated(missing) && i < |missing| && Filled(data, data', missing[..i], ids[..i]) && missing[i] in data.at
    ensures missing[i] in data'.at
    ensures Filled(data, data'.(at := data'.at[missing[i] := data'.at[missing[i]].(entityId := Some(ids[i]))]), missing[..i + 1], ids[..i + 1])
  {
    assert missing[..i + 1] == missing[..i] + [missing[i]] && ids[..i + 1] == ids[..i] + [ids[i]];
  }

  lemma FilledIds(data: Dict<string, BidData>, data': Dict<string, BidData>, missing: seq<string>, ids: seq<nat>, upcs: seq<string>, store: Products)
    requires Countable(store) && Holds(data, upcs, CachedBy(store), store) && missing == Unbound(store, upcs) && |ids| == |missing|
    requires (forall i :: 0 <= i < |ids| ==> ids[i] == Counter(store) + 1 + i) && Filled(data, data', missing, ids)
    ensures Holds(data', upcs, HandedBy(store, upcs), store)
  {
    HandedByIds(store, upcs);
    FilledBy(data, data', missing, ids, upcs, CachedBy(store), HandedBy(store, upcs), store);
  }

  lemma HandedByIds(store: Products, upcs: seq<string>)
    requires Countable(store)
    ensures var unbound := Unbound(store, upcs);
            && (forall i :: 0 <= i < |unbound| ==> HandedBy(store, upcs)(unbound[i]) == Some(Counter(store) + 1 + i))
            && (forall upc :: upc in upcs && upc !in unbound ==> HandedBy(store, upcs)(upc) == CachedBy(store)(upc))
  {
    HandedIds(store, upcs);
  }

  lemma FilledBy(data: Dict<string, BidData>, data': Dict<string, BidData>, missing: seq<string>, ids: seq<nat>, upcs: seq<string>,
                 had: string -> Option<nat>, has: string -> Option<nat>, store: Products)
    requires |missing| == |ids| && Holds(data, upcs, had, store) && Filled(data, data', missing, ids)
    requires forall i :: 0 <= i < |missing| ==> has(missing[i]) == Some(ids[i])
    requires forall upc :: upc in upcs && upc !in missing ==> has(upc) == had(upc)
    ensures Holds(data', upcs, has, store)
  {
    forall upc | upc in data'.at ensures data'.at[upc].entityId == has(upc) {
      if upc in missing {
        var i :| 0 <= i < |missing| && missing[i] == upc;
        assert data'.at[missing[i]].entityId == Some(ids[i]);
      }
    }
  }

  lemma UnfetchedAreHanded(data: Dict<string, BidData>, upcs: seq<string>, missing: seq<string>, store: Products)
    requires Countable(store) && Fit(store, upcs) && Holds(data, upcs, HandedBy(store, upcs), store) && missing == Unfetched(store, upcs)
    ensures forall i :: 0 <= i < |missing| ==>
              missing[i] in data.at && data.at[missing[i]].entityId == HandedBy(store, upcs)(missing[i]) && HandedBy(store, upcs)(missing[i]).Some?
  {
    UnfetchedAreBids(store, upcs);
    forall i | 0 <= i < |missing| ensures missing[i] in upcs && HandedBy(store, upcs)(missing[i]).Some? {
      assert missing[i] in missing;
      NumberedUpc(store, upcs, missing[i]);
    }
  }

  method ToCache(data: Dict<string, BidData>, missing: seq<string>, catalog: map<string, Product>, ghost ids: string -> Option<nat>)
    returns (records: map<nat, Product>)
    requires forall i :: 0 <= i < |missing| ==>
               missing[i] in data.at && data.at[missing[i]].entityId == ids(missing[i]) && ids(missing[i]).Some?
    ensures records == Records(ids, missing, catalog)
  {
    records := map[];
    for i := 0 to |missing|
      invariant records == Records(ids, missing[..i], catalog)
    {
      assert missing[..i + 1][..i] == missing[..i];
      if missing[i] in catalog {
        records := records[data.at[missing[i]].entityId.value := catalog[missing[i]]];
      }
    }
    assert missing[..|missing|] == missing;
  }

  lemma HoldsOneMore(data: Dict<string, BidData>, upcs: seq<string>, d: BidData, upc: string, store: Products)
    requires Holds(data, upcs, CachedBy(store), store)
    requires d.entityId == AsOption(CachedId(store, upc)) && d.product == CachedProduct(store, upc)
    ensures Holds(Put(data, upc, d), upcs + [upc], CachedBy(store), store)
  {
    DedupeSnoc(upcs, upc);
    assert forall k :: k in upcs + [upc] <==> k in upcs || k == upc;
  }

  lemma DedupeSnoc(upcs: seq<string>, upc: string)
    ensures Dedupe(upcs + [upc]) == if upc in upcs then Dedupe(upcs) else Dedupe(upcs) + [upc]
  {
    DedupeHasTheSameKeys(upcs);
    assert (upcs + [upc])[..|upcs|] == upcs;
  }
}
