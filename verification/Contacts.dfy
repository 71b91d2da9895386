/**
Contacts of an account: fetched contacts get short ids, and the cached record of each
gathers the accounts it was fetched for.
 */
module Contacts {
  import opened Options
  import opened PyDict
  import opened EntityCache
  import opened SortedStrings

  datatype Contact = Contact(contactId: string, email: string)

  datatype CachedContact = CachedContact(id: string, contactType: string, accountIds: Option<seq<string>>)

  datatype AdvertiserContact = AdvertiserContact(id: nat, email: string, contactType: string, accountIds: seq<string>)

  type Cache = Store<CachedContact>

  function LongIds(fetched: seq<Contact>): (ids: seq<string>)
    ensures |ids| == |fetched| && forall i :: 0 <= i < |fetched| ==> ids[i] == fetched[i].contactId
  {
    seq(|fetched|, i requires 0 <= i < |fetched| => fetched[i].contactId)
  }

  function ShortId(store: Cache, longId: string): ShortRef {
    ReadId(Lookup(store, longId))
  }

  function Details(store: Cache, id: ShortRef): Option<CachedContact> {
    AsDoc(Lookup(store, IdKey(id)))
  }

  // ---- The short ids, for any list of long ids ----

  function MissingOf(store: Cache, ids: seq<string>): seq<string> {
    Filter(ids, k => ShortId(store, k).Missing?)
  }

  function CachedPairs(store: Cache, ids: seq<string>): (pairs: seq<(string, ShortRef)>)
    ensures |pairs| == |ids| && forall i :: 0 <= i < |ids| ==> pairs[i] == (ids[i], ShortId(store, ids[i]))
  {
    seq(|ids|, i requires 0 <= i < |ids| => (ids[i], ShortId(store, ids[i])))
  }

  // zip(missing, generated)
  function ZipPairs(missing: seq<string>, generated: seq<nat>): (pairs: seq<(string, ShortRef)>)
    requires |generated| <= |missing|
    ensures |pairs| == |generated| && forall i :: 0 <= i < |pairs| ==> pairs[i] == (missing[i], Known(generated[i]))
  {
    seq(|generated|, i requires 0 <= i < |generated| => (missing[i], Known(generated[i])))
  }

  // The ids generated for the missing long ids are one for each different long id.
  lemma GeneratedIds(store: Cache, missing: seq<string>)
    requires Countable(store)
    ensures |AssignedIds(store, missing)| == |Dedupe(missing)| <= |missing|
  {
    var first := Counter(store) + 1;
    FromPairsKeys(NumberPairs(first, missing), missing);
    DedupeIsShorter(missing);
  }

  lemma {:induction false} DedupeIsShorter(keys: seq<string>)
    ensures |Dedupe(keys)| <= |keys|
  {
    if keys != [] {
      DedupeIsShorter(keys[..|keys| - 1]);
    }
  }

  function IdDict(store: Cache, ids: seq<string>): Dict<string, ShortRef>
    requires Countable(store)
  {
    var missing := MissingOf(store, ids);
    GeneratedIds(store, missing);
    FromPairs(CachedPairs(store, ids) + ZipPairs(missing, AssignedIds(store, missing)))
  }

  lemma IdDictKeys(store: Cache, ids: seq<string>)
    requires Countable(store)
    ensures IdDict(store, ids).keys == Dedupe(ids) && Valid(IdDict(store, ids))
  {
    var missing := MissingOf(store, ids);
    var generated := AssignedIds(store, missing);
    GeneratedIds(store, missing);
    var pairs := CachedPairs(store, ids) + ZipPairs(missing, generated);
    FilterKeeps(ids, k => ShortId(store, k).Missing?);
    FromPairsKeys(pairs, ids + missing[..|generated|]);
    FromPairsValid(pairs);
    DedupeIgnoresRepeats(ids, missing[..|generated|]);
  }

  lemma {:induction false} DedupeIgnoresRepeats(keys: seq<string>, more: seq<string>)
    requires forall k :: k in more ==> k in keys
    ensures Dedupe(keys + more) == Dedupe(keys)
  {
    if more == [] {
      assert keys + more == keys;
    } else {
      var last := |more| - 1;
      DedupeIgnoresRepeats(keys, more[..last]);
      DedupeHasTheSameKeys(keys);
      assert (keys + more)[..|keys| + last] == keys + more[..last];
      assert (keys + more)[|keys| + last] == more[last];
    }
  }

  // The short ids in the order of the dictionary: one for each different long id.
  function ShortIds(store: Cache, ids: seq<string>): (shorts: seq<ShortRef>)
    requires Countable(store)
    ensures |shorts| == |Dedupe(ids)|
    ensures forall i :: 0 <= i < |shorts| ==> Dedupe(ids)[i] in IdDict(store, ids).at && shorts[i] == IdDict(store, ids).at[Dedupe(ids)[i]]
  {
    IdDictKeys(store, ids);
    var d := IdDict(store, ids);
    seq(|d.keys|, i requires 0 <= i < |d.keys| => assert d.keys[i] in d.keys; d.at[d.keys[i]])
  }

  function WithIds(store: Cache, ids: seq<string>): Cache
    requires Countable(store)
  {
    Assigned(store, MissingOf(store, ids))
  }

  // ---- The records ----

  function Gathered(cached: Option<CachedContact>, account: string): seq<string> {
    SortedSet((if cached.Some? && cached.value.accountIds.Some? then cached.value.accountIds.value else []) + [account])
  }

  // The account list of each contact, from the records the cache has.
  function AccountLists(store: Cache, shorts: seq<ShortRef>, account: string): (lists: seq<seq<string>>)
    ensures |lists| == |shorts| && forall i :: 0 <= i < |shorts| ==> lists[i] == Gathered(Details(store, shorts[i]), account)
  {
    seq(|shorts|, i requires 0 <= i < |shorts| => Gathered(Details(store, shorts[i]), account))
  }

  function Records(contactType: string, ids: seq<string>, shorts: seq<ShortRef>, lists: seq<seq<string>>, n: nat): map<nat, CachedContact>
    requires n <= |shorts| == |lists| <= |ids| && forall i :: 0 <= i < n ==> shorts[i].Known?
  {
    if n == 0 then map[]
    else Records(contactType, ids, shorts, lists, n - 1)[shorts[n - 1].n := CachedContact(ids[n - 1], contactType, Some(lists[n - 1]))]
  }

  function Returned(contactType: string, fetched: seq<Contact>, shorts: seq<ShortRef>, lists: seq<seq<string>>): (r: seq<AdvertiserContact>)
    requires |shorts| == |lists| <= |fetched| && AllNumbered(shorts)
    ensures |r| == |shorts|
    ensures forall i :: 0 <= i < |r| ==> r[i] == AdvertiserContact(shorts[i].n, fetched[i].email, contactType, lists[i])
  {
    seq(|shorts|, i requires 0 <= i < |shorts| => AdvertiserContact(shorts[i].n, fetched[i].email, contactType, lists[i]))
  }

  predicate AllNumbered(shorts: seq<ShortRef>) {
    forall i :: 0 <= i < |shorts| ==> shorts[i].Known?
  }

  // The cache after the contacts with these long ids were parsed for the account.
  function Parsed(store: Cache, contactType: string, account: string, ids: seq<string>): Cache
    requires Countable(store)
  {
    DedupeIsShorter(ids);
    var withIds, shorts := WithIds(store, ids), ShortIds(store, ids);
    if AllNumbered(shorts)
    then withIds + Docs(Records(contactType, ids, shorts, AccountLists(withIds, shorts, account), |shorts|))
    else withIds
  }

  datatype Fault = InvalidContact

  function Get(details: map<ShortRef, CachedContact>, id: ShortRef): Option<CachedContact> {
    if id in details then Some(details[id]) else None
  }

  class ContactService {
    const cache: RedisEntity<CachedContact>

    constructor (cache: RedisEntity<CachedContact>)
      ensures this.cache == cache
    {
      this.cache := cache;
    }

    // For any list of contacts, repeated ones included. A contact without a number for an id is not valid.
    method ParseContacts(contactType: string, account: string, fetched: seq<Contact>) returns (r: Result<seq<AdvertiserContact>, Fault>)
      requires Countable(cache.store)
      modifies cache
      ensures cache.store == Parsed(old(cache.store), contactType, account, LongIds(fetched))
      ensures var shorts := ShortIds(old(cache.store), LongIds(fetched));
              && (r.Ok? <==> AllNumbered(shorts))
              && (r.Ok? ==> |shorts| <= |fetched|
                            && r.value == Returned(contactType, fetched, shorts, AccountLists(WithIds(old(cache.store), LongIds(fetched)), shorts, account)))
    {
      ghost var before := cache.store;
      DedupeIsShorter(LongIds(fetched));
      var shorts := FetchShortIds(LongIds(fetched));
      var details := FetchDetails(shorts);
      var lists := MergeAll(account, shorts, details, cache.store);
      var built := BuildContacts(contactType, fetched, shorts, lists);
      if built.Err? {
        return Err(built.error);
      }
      cache.Mset(Docs(built.value.0));
      r := Ok(built.value.1);
    }

    method FetchShortIds(ids: seq<string>) returns (shorts: seq<ShortRef>)
      requires Countable(cache.store)
      modifies cache
      ensures cache.store == WithIds(old(cache.store), ids)
      ensures shorts == ShortIds(old(cache.store), ids)
    {
      ghost var before := cache.store;
      var cached := cache.Mget(ids);
      var shortIds := seq(|cached|, i requires 0 <= i < |cached| => ReadId(cached[i]));
      var dict, missing := SplitMissing(ids, shortIds, before);
      GeneratedIds(before, missing);
      if missing != [] {
        var generated := cache.AssignNumericIdBatch(missing);
        dict := FillGenerated(dict, missing, generated, CachedPairs(before, ids));
      } else {
        assert CachedPairs(before, ids) + ZipPairs(missing, AssignedIds(before, missing)) == CachedPairs(before, ids);
      }
      assert dict == IdDict(before, ids);
      IdDictKeys(before, ids);
      shorts := DictValues(dict);
      ValuesAreShortIds(before, ids, shorts);
    }

    method FetchDetails(shorts: seq<ShortRef>) returns (details: map<ShortRef, CachedContact>)
      ensures forall i :: 0 <= i < |shorts| ==> Details(cache.store, shorts[i]) == Get(details, shorts[i])
    {
      var values := cache.Mget(seq(|shorts|, i requires 0 <= i < |shorts| => IdKey(shorts[i])));
      details := map[];
      for i := 0 to |shorts|
        invariant forall id :: id in details ==> Details(cache.store, id) == Some(details[id])
        invariant forall j :: 0 <= j < i && Details(cache.store, shorts[j]).Some? ==> shorts[j] in details
      {
        var contact := AsDoc(values[i]);
        if contact.Some? {
          details := details[shorts[i] := contact.value];
        }
      }
    }
  }

  method SplitMissing(ids: seq<string>, shortIds: seq<ShortRef>, ghost store: Cache)
    returns (dict: Dict<string, ShortRef>, missing: seq<string>)
    requires |shortIds| == |ids| && forall i :: 0 <= i < |ids| ==> shortIds[i] == ShortId(store, ids[i])
    ensures dict == FromPairs(CachedPairs(store, ids)) && missing == MissingOf(store, ids)
  {
    dict := Empty();
    missing := [];
    for i := 0 to |ids|
      invariant dict == FromPairs(CachedPairs(store, ids[..i]))
      invariant missing == MissingOf(store, ids[..i])
    {
      SplitStep(store, ids, i);
      dict := Put(dict, ids[i], shortIds[i]);
      if shortIds[i].Missing? {
        missing := missing + [ids[i]];
      }
    }
    assert ids[..|ids|] == ids;
  }

  lemma SplitStep(store: Cache, ids: seq<string>, i: nat)
    requires i < |ids|
    ensures FromPairs(CachedPairs(store, ids[..i + 1])) == Put(FromPairs(CachedPairs(store, ids[..i])), ids[i], ShortId(store, ids[i]))
    ensures MissingOf(store, ids[..i + 1]) == MissingOf(store, ids[..i]) + if ShortId(store, ids[i]).Missing? then [ids[i]] else []
  {
    assert ids[..i + 1][..i] == ids[..i];
    assert CachedPairs(store, ids[..i + 1])[..i] == CachedPairs(store, ids[..i]);
    FilterAgrees(ids[..i], k => ShortId(store, k).Missing?, k => ShortId(store, k).Missing?);
  }

  method FillGenerated(dict: Dict<string, ShortRef>, missing: seq<string>, generated: seq<nat>, ghost pairs: seq<(string, ShortRef)>)
    returns (filled: Dict<string, ShortRef>)
    requires dict == FromPairs(pairs) && |generated| <= |missing|
    ensures filled == FromPairs(pairs + ZipPairs(missing, generated))
  {
    filled := dict;
    ghost var more := ZipPairs(missing, generated);
    assert pairs + more[..0] == pairs;
    for i := 0 to |generated|
      invariant filled == FromPairs(pairs + more[..i])
    {
      PairsStep(pairs, more, i);
      filled := Put(filled, missing[i], Known(generated[i]));
    }
    assert more[..|more|] == more;
  }

  lemma PairsStep(pairs: seq<(string, ShortRef)>, more: seq<(string, ShortRef)>, i: nat)
    requires i < |more|
    ensures FromPairs(pairs + more[..i + 1]) == Put(FromPairs(pairs + more[..i]), more[i].0, more[i].1)
  {
    assert (pairs + more[..i + 1])[..|pairs| + i] == pairs + more[..i];
    assert (pairs + more[..i + 1])[|pairs| + i] == more[i];
  }

  lemma ValuesAreShortIds(store: Cache, ids: seq<string>, shorts: seq<ShortRef>)
    requires Countable(store)
    requires var dict := IdDict(store, ids);
             |shorts| == |dict.keys| && forall i :: 0 <= i < |shorts| ==> dict.keys[i] in dict.at && shorts[i] == dict.at[dict.keys[i]]
    ensures shorts == ShortIds(store, ids)
  {
    IdDictKeys(store, ids);
  }

  method DictValues(dict: Dict<string, ShortRef>) returns (shorts: seq<ShortRef>)
    requires forall k :: k in dict.keys ==> k in dict.at
    ensures |shorts| == |dict.keys| && forall i :: 0 <= i < |shorts| ==> dict.keys[i] in dict.at && shorts[i] == dict.at[dict.keys[i]]
  {
    assert forall i :: 0 <= i < |dict.keys| ==> dict.keys[i] in dict.keys;
    shorts := seq(|dict.keys|, i requires 0 <= i < |dict.keys| && dict.keys[i] in dict.at => dict.at[dict.keys[i]]);
  }

  // The merged account list of each short id.
  method MergeAll(account: string, shorts: seq<ShortRef>, details: map<ShortRef, CachedContact>, ghost store: Cache)
    returns (lists: seq<seq<string>>)
    requires forall i :: 0 <= i < |shorts| ==> Details(store, shorts[i]) == Get(details, shorts[i])
    ensures lists == AccountLists(store, shorts, account)
  {
    lists := [];
    for i := 0 to |shorts|
      invariant MergedUpTo(lists, store, shorts, account, i)
    {
      var merged := MergeAccounts(Get(details, shorts[i]), account);
      MergedStep(lists, merged, store, shorts, account, i);
      lists := lists + [merged];
    }
    assert lists == AccountLists(store, shorts, account);
  }

  ghost predicate MergedUpTo(lists: seq<seq<string>>, store: Cache, shorts: seq<ShortRef>, account: string, n: nat) {
    |lists| == n <= |shorts| && forall i :: 0 <= i < n ==> lists[i] == Gathered(Details(store, shorts[i]), account)
  }

  lemma MergedStep(lists: seq<seq<string>>, merged: seq<string>, store: Cache, shorts: seq<ShortRef>, account: string, n: nat)
    requires MergedUpTo(lists, store, shorts, account, n) && n < |shorts| && merged == Gathered(Details(store, shorts[n]), account)
    ensures MergedUpTo(lists + [merged], store, shorts, account, n + 1)
  {
    var more := lists + [merged];
    assert more[..n] == lists && more[n] == merged;
    forall i | 0 <= i < n + 1 ensures more[i] == Gathered(Details(store, shorts[i]), account) {
      assert i < n ==> more[i] == lists[i];
    }
  }

  // The records to write and the contacts to return, one for each short id.
  method BuildContacts(contactType: string, fetched: seq<Contact>, shorts: seq<ShortRef>, lists: seq<seq<string>>)
    returns (r: Result<(map<nat, CachedContact>, seq<AdvertiserContact>), Fault>)
    requires |lists| == |shorts| <= |fetched|
    ensures r.Ok? <==> AllNumbered(shorts)
    ensures r.Ok? ==> r.value.0 == Records(contactType, LongIds(fetched), shorts, lists, |shorts|)
                      && r.value.1 == Returned(contactType, fetched, shorts, lists)
  {
    var records: map<nat, CachedContact> := map[];
    var contacts := [];
    for i := 0 to |shorts|
      invariant Built(records, contacts, contactType, fetched, shorts, lists, i)
    {
      if !shorts[i].Known? {
        return Err(InvalidContact);
      }
      BuiltStep(records, contacts, contactType, fetched, shorts, lists, i);
      records := records[shorts[i].n := CachedContact(fetched[i].contactId, contactType, Some(lists[i]))];
      contacts := contacts + [AdvertiserContact(shorts[i].n, fetched[i].email, contactType, lists[i])];
    }
    AllBuilt(records, contacts, contactType, fetched, shorts, lists);
    r := Ok((records, contacts));
  }

  // The first n records and contacts are built.
  ghost predicate Built(records: map<nat, CachedContact>, contacts: seq<AdvertiserContact>, contactType: string, fetched: seq<Contact>,
                        shorts: seq<ShortRef>, lists: seq<seq<string>>, n: nat)
  {
    && |contacts| == n <= |shorts| == |lists| <= |fetched|
    && (forall i :: 0 <= i < n ==>
          shorts[i].Known? && contacts[i] == AdvertiserContact(shorts[i].n, fetched[i].email, contactType, lists[i]))
    && records == Records(contactType, LongIds(fetched), shorts, lists, n)
  }

  lemma BuiltStep(records: map<nat, CachedContact>, contacts: seq<AdvertiserContact>, contactType: string, fetched: seq<Contact>,
                  shorts: seq<ShortRef>, lists: seq<seq<string>>, n: nat)
    requires Built(records, contacts, contactType, fetched, shorts, lists, n) && n < |shorts| && shorts[n].Known?
    ensures Built(records[shorts[n].n := CachedContact(fetched[n].contactId, contactType, Some(lists[n]))],
                  contacts + [AdvertiserContact(shorts[n].n, fetched[n].email, contactType, lists[n])],
                  contactType, fetched, shorts, lists, n + 1)
  {
  }

  lemma AllBuilt(records: map<nat, CachedContact>, contacts: seq<AdvertiserContact>, contactType: string, fetched: seq<Contact>,
                 shorts: seq<ShortRef>, lists: seq<seq<string>>)
    requires Built(records, contacts, contactType, fetched, shorts, lists, |shorts|)
    ensures AllNumbered(shorts) && records == Records(contactType, LongIds(fetched), shorts, lists, |shorts|)
    ensures contacts == Returned(contactType, fetched, shorts, lists)
  {
  }

  method MergeAccounts(cached: Option<CachedContact>, account: string) returns (merged: seq<string>)
    ensures merged == Gathered(cached, account)
  {
    merged := SortedSet((if cached.Some? && cached.value.accountIds.Some? then cached.value.accountIds.value else []) + [account]);
  }
}
