/** What parsing contacts does to the cache: whose short id each contact gets, and what the records gather over time. */
module ContactHistory {
  import opened Options
  import opened PyDict
  import opened EntityCache
  import opened SortedStrings
  import opened Contacts

  // The cache is in order for these long ids, the counter leaves room for them, and no record lies beyond the counter.
  ghost predicate Ready(store: Cache, ids: seq<string>, longIds: set<string>, limit: nat) {
    && Apart(longIds, limit) && WellKeyed(store, longIds, limit)
    && (forall k :: k in ids ==> k in longIds)
  }

  ghost predicate NoStrays(store: Cache, limit: nat)
    requires Countable(store)
  {
    forall n :: Counter(store) < n <= limit ==> Decimal(n) !in store
  }

  // ---- Whose short id a contact gets ----

  // Contacts already seen are listed only after all the different ones.
  predicate RepeatsComeLast(ids: seq<string>) {
    |Dedupe(ids)| <= |ids| && ids[..|Dedupe(ids)|] == Dedupe(ids)
  }

  // Every contact returned has a short id: the one the cache has for its long id.
  ghost predicate OwnIds(store: Cache, ids: seq<string>)
    requires Countable(store) && |Dedupe(ids)| <= |ids|
  {
    var shorts := ShortIds(store, ids);
    forall i :: 0 <= i < |shorts| ==> shorts[i].Known? && shorts[i] == ShortId(WithIds(store, ids), ids[i])
  }

  lemma NumberedByPlace(first: nat, keys: seq<string>, k: string) returns (i: nat)
    requires k in keys
    ensures i < |keys| && keys[i] == k && k in Numbered(first, keys).at && Numbered(first, keys).at[k] == first + i
  {
    NumberedKeys(first, keys);
    i := PairOf(NumberPairs(first, keys), k);
  }

  // What the cache has for a long id once the missing ones are numbered.
  lemma WithIdsAt(store: Cache, ids: seq<string>, longIds: set<string>, limit: nat, k: string)
    requires Ready(store, ids, longIds, limit) && k in ids
    ensures var missing := MissingOf(store, ids);
            && (k !in missing ==> ShortId(store, k).Known? && ShortId(WithIds(store, ids), k) == ShortId(store, k)
                                  && ShortId(store, k).n <= Counter(store))
            && (k in missing ==> k in Numbered(Counter(store) + 1, missing).at
                                 && ShortId(WithIds(store, ids), k) == Known(Numbered(Counter(store) + 1, missing).at[k])
                                 && Numbered(Counter(store) + 1, missing).at[k] > Counter(store))
  {
    var missing := MissingOf(store, ids);
    MissingHaveNone(store, ids);
    NumberedKeys(Counter(store) + 1, missing);
    assert k in longIds && k != COUNTER;
    if k in missing {
      var i := NumberedByPlace(Counter(store) + 1, missing, k);
    }
  }

  lemma MissingHaveNone(store: Cache, ids: seq<string>)
    ensures forall k :: k in MissingOf(store, ids) <==> k in ids && ShortId(store, k).Missing?
    ensures Unrepeated(ids) ==> Unrepeated(MissingOf(store, ids))
  {
    FilterKeeps(ids, k => ShortId(store, k).Missing?);
  }

  // The generated ids, in the order they are handed back.
  lemma GeneratedAt(store: Cache, missing: seq<string>, j: nat)
    requires Countable(store) && j < |Dedupe(missing)|
    ensures |AssignedIds(store, missing)| == |Dedupe(missing)| <= |missing|
    ensures Dedupe(missing)[j] in missing && Dedupe(missing)[j] in Numbered(Counter(store) + 1, missing).at
    ensures AssignedIds(store, missing)[j] == Numbered(Counter(store) + 1, missing).at[Dedupe(missing)[j]]
  {
    GeneratedIds(store, missing);
    NumberedAt(Counter(store) + 1, missing, j);
  }

  lemma NumberedAt(first: nat, keys: seq<string>, j: nat)
    requires j < |Dedupe(keys)|
    ensures keys != [] && Dedupe(keys)[j] in keys
    ensures Numbered(first, keys).keys == Dedupe(keys) && Dedupe(keys)[j] in Numbered(first, keys).at
  {
    FromPairsKeys(NumberPairs(first, keys), keys);
    NumberedKeys(first, keys);
    DedupeHasTheSameKeys(keys);
    assert Dedupe(keys)[j] in Dedupe(keys);
  }

  // A cached long id keeps its short id; a missing one gets the generated id of some place it has among the missing, if any.
  lemma IdDictAt(store: Cache, ids: seq<string>, k: string) returns (j: nat)
    requires Countable(store) && k in ids
    ensures k in IdDict(store, ids).at
    ensures var missing := MissingOf(store, ids);
            && (k !in missing ==> IdDict(store, ids).at[k] == ShortId(store, k))
            && (k in missing && IdDict(store, ids).at[k].Known? ==>
                  j < |AssignedIds(store, missing)| <= |missing| && missing[j] == k
                  && IdDict(store, ids).at[k] == Known(AssignedIds(store, missing)[j]))
  {
    var missing := MissingOf(store, ids);
    MissingHaveNone(store, ids);
    GeneratedIds(store, missing);
    var i := PairOfEither(CachedPairs(store, ids), ids, ZipPairs(missing, AssignedIds(store, missing)), k);
    assert IdDict(store, ids) == FromPairs(CachedPairs(store, ids) + ZipPairs(missing, AssignedIds(store, missing)));
    j := if i < |ids| then 0 else i - |ids|;
    if i < |ids| {
      assert IdDict(store, ids).at[k] == ShortId(store, k);
    } else {
      assert missing[j] == k && IdDict(store, ids).at[k] == Known(AssignedIds(store, missing)[j]);
    }
  }

  lemma PairOfEither(front: seq<(string, ShortRef)>, ids: seq<string>, more: seq<(string, ShortRef)>, k: string) returns (i: nat)
    requires k in ids && |front| == |ids| && forall m :: 0 <= m < |ids| ==> front[m].0 == ids[m]
    ensures k in FromPairs(front + more).at && i < |front| + |more|
    ensures (if i < |front| then front[i] else more[i - |front|]) == (k, FromPairs(front + more).at[k])
  {
    var m :| 0 <= m < |ids| && ids[m] == k;
    FromPairsValid(front + more);
    assert (front + more)[m].0 == k;
    i := PairOf(front + more, k);
  }

  // When the missing long ids start with their different ones, each gets the id generated at its own place.
  lemma IdDictAtPlace(store: Cache, ids: seq<string>, j: nat)
    requires Countable(store) && RepeatsComeLast(MissingOf(store, ids)) && j < |Dedupe(MissingOf(store, ids))|
    ensures var missing := MissingOf(store, ids);
            && |AssignedIds(store, missing)| == |Dedupe(missing)|
            && missing[j] in IdDict(store, ids).at && IdDict(store, ids).at[missing[j]] == Known(AssignedIds(store, missing)[j])
  {
    var missing := MissingOf(store, ids);
    GeneratedIds(store, missing);
    DedupeHasTheSameKeys(missing);
    LastPlaceWins(CachedPairs(store, ids), missing, AssignedIds(store, missing), j);
  }

  lemma LastPlaceWins(pairs: seq<(string, ShortRef)>, missing: seq<string>, generated: seq<nat>, j: nat)
    requires j < |generated| <= |missing| && Unrepeated(missing[..|generated|])
    ensures missing[j] in FromPairs(pairs + ZipPairs(missing, generated)).at
    ensures FromPairs(pairs + ZipPairs(missing, generated)).at[missing[j]] == Known(generated[j])
  {
    var all := pairs + ZipPairs(missing, generated);
    forall l | |pairs| + j < l < |all| ensures all[l].0 != missing[j] {
      assert missing[..|generated|][l - |pairs|] != missing[..|generated|][j];
    }
    LastPairWins(all, |pairs| + j);
  }

  lemma RepeatsStayLast(store: Cache, ids: seq<string>)
    requires RepeatsComeLast(ids)
    ensures RepeatsComeLast(MissingOf(store, ids))
  {
    var p := k => ShortId(store, k).Missing?;
    var front, rest := Dedupe(ids), ids[|Dedupe(ids)|..];
    assert ids == front + rest;
    FilterConcat(front, rest, p);
    DedupeHasTheSameKeys(ids);
    FilterKeeps(front, p);
    FilterKeeps(rest, p);
    FilterAgrees(ids, p, k => ShortId(store, k).Missing?);
    DedupeOfUnrepeated(Filter(front, p));
    forall k | k in Filter(rest, p) ensures k in Filter(front, p) {
      assert k in ids;
    }
    DedupeIgnoresRepeats(Filter(front, p), Filter(rest, p));
    assert MissingOf(store, ids) == Filter(front, p) + Filter(rest, p);
  }

  lemma OwnIdsWhenRepeatsComeLast(store: Cache, ids: seq<string>, longIds: set<string>, limit: nat)
    requires Ready(store, ids, longIds, limit) && RepeatsComeLast(ids)
    ensures OwnIds(store, ids)
  {
    var shorts := ShortIds(store, ids);
    RepeatsStayLast(store, ids);
    forall i | 0 <= i < |shorts| ensures shorts[i].Known? && shorts[i] == ShortId(WithIds(store, ids), ids[i]) {
      assert Dedupe(ids)[i] == ids[i];
      OwnIdAt(store, ids, longIds, limit, ids[i]);
    }
  }

  lemma OwnIdAt(store: Cache, ids: seq<string>, longIds: set<string>, limit: nat, k: string)
    requires Ready(store, ids, longIds, limit) && RepeatsComeLast(MissingOf(store, ids)) && k in ids
    ensures k in IdDict(store, ids).at
    ensures IdDict(store, ids).at[k].Known? && IdDict(store, ids).at[k] == ShortId(WithIds(store, ids), k)
  {
    var missing := MissingOf(store, ids);
    WithIdsAt(store, ids, longIds, limit, k);
    if k in missing {
      DedupeHasTheSameKeys(missing);
      assert k in Dedupe(missing);
      var j :| 0 <= j < |Dedupe(missing)| && Dedupe(missing)[j] == k;
      assert missing[j] == k;
      GeneratedAt(store, missing, j);
      IdDictAtPlace(store, ids, j);
    } else {
      var _ := IdDictAt(store, ids, k);
    }
  }

  // Where a repeat first stands before a different long id that is still to come.
  lemma FirstRepeat(ids: seq<string>, from: nat) returns (i: nat)
    requires from <= |Dedupe(ids)| <= |ids| && ids[..from] == Dedupe(ids)[..from] && !RepeatsComeLast(ids)
    ensures i < |Dedupe(ids)| && ids[..i] == Dedupe(ids)[..i] && ids[i] in ids[..i] && Dedupe(ids)[i] !in ids[..i]
    decreases |ids| - from
  {
    var different := Dedupe(ids);
    DedupeHasTheSameKeys(ids);
    if from < |different| && ids[from] == different[from] {
      assert ids[..from + 1] == ids[..from] + [ids[from]] && different[..from + 1] == different[..from] + [different[from]];
      i := FirstRepeat(ids, from + 1);
    } else {
      assert from < |different| by {
        assert different[..|different|] == different;
      }
      i := from;
      assert forall j :: 0 <= j < i ==> ids[..i][j] == different[j];
      if ids[i] !in ids[..i] {
        NewComesNext(ids, i);
      }
    }
  }

  lemma NewComesNext(ids: seq<string>, i: nat)
    requires i < |Dedupe(ids)| <= |ids| && ids[..i] == Dedupe(ids)[..i] && ids[i] !in ids[..i]
    ensures Dedupe(ids)[i] == ids[i]
  {
    var front, different := ids[..i], Dedupe(ids);
    DedupeHasTheSameKeys(ids);
    assert forall j :: 0 <= j < i ==> front[j] == different[j];
    DedupeOfUnrepeated(front);
    assert ids == ids[..i + 1] + ids[i + 1..] && ids[..i + 1][..i] == front;
    DedupeOfFront(ids[..i + 1], ids[i + 1..]);
    assert Dedupe(ids[..i + 1]) == front + [ids[i]];
    assert different[..i + 1][i] == ids[i];
  }

  // The contact standing there gets another contact's short id, or none.
  lemma RepeatGetsWrongId(store: Cache, ids: seq<string>, longIds: set<string>, limit: nat, i: nat)
    requires Ready(store, ids, longIds, limit)
    requires i < |Dedupe(ids)| <= |ids| && ids[..i] == Dedupe(ids)[..i] && ids[i] in ids[..i] && Dedupe(ids)[i] !in ids[..i]
    ensures !ShortIds(store, ids)[i].Known? || ShortIds(store, ids)[i] != ShortId(WithIds(store, ids), ids[i])
  {
    var k, q, missing := Dedupe(ids)[i], ids[i], MissingOf(store, ids);
    DedupeHasTheSameKeys(ids);
    assert k in Dedupe(ids) && k in longIds && q in longIds;
    WithIdsAt(store, ids, longIds, limit, k);
    WithIdsAt(store, ids, longIds, limit, q);
    MissingHaveNone(store, ids);
    var j := IdDictAt(store, ids, k);
    if k !in missing {
      if q !in missing {
        assert store[k] != store[q];
      }
    } else if IdDict(store, ids).at[k].Known? {
      assert missing[j] == k && k != q;
      GeneratedIdDiffers(store, ids, i, j);
    }
  }

  // A generated id is above the counter, and not the one numbered for a long id standing elsewhere.
  lemma GeneratedIdDiffers(store: Cache, ids: seq<string>, i: nat, j: nat)
    requires Countable(store) && i < |Dedupe(ids)| <= |ids| && ids[..i] == Dedupe(ids)[..i] && ids[i] in ids[..i]
    requires j < |AssignedIds(store, MissingOf(store, ids))| <= |MissingOf(store, ids)| && MissingOf(store, ids)[j] != ids[i]
    ensures AssignedIds(store, MissingOf(store, ids))[j] > Counter(store)
    ensures ids[i] in MissingOf(store, ids) ==>
              ids[i] in Numbered(Counter(store) + 1, MissingOf(store, ids)).at
              && AssignedIds(store, MissingOf(store, ids))[j] != Numbered(Counter(store) + 1, MissingOf(store, ids)).at[ids[i]]
  {
    var missing := MissingOf(store, ids);
    GeneratedIds(store, missing);
    GeneratedAt(store, missing, j);
    GeneratedElsewhere(store, ids, i, j);
    var a := NumberedByPlace(Counter(store) + 1, missing, Dedupe(missing)[j]);
    if ids[i] in missing {
      var b := NumberedByPlace(Counter(store) + 1, missing, ids[i]);
    }
  }

  // A missing long id of the unrepeated front is not among the different ones at the place of another.
  lemma GeneratedElsewhere(store: Cache, ids: seq<string>, i: nat, j: nat)
    requires i < |Dedupe(ids)| <= |ids| && ids[..i] == Dedupe(ids)[..i] && ids[i] in ids[..i]
    requires j < |Dedupe(MissingOf(store, ids))| <= |MissingOf(store, ids)| && MissingOf(store, ids)[j] != ids[i]
    ensures Dedupe(MissingOf(store, ids))[j] in MissingOf(store, ids)
    ensures Dedupe(MissingOf(store, ids))[j] != ids[i]
  {
    var missing, front := MissingOf(store, ids), MissingOf(store, ids[..i]);
    var different := Dedupe(missing);
    DedupeHasTheSameKeys(missing);
    assert different[j] in different;
    if ids[i] in missing {
      MissingOfFront(store, ids, i);
      MissingHaveNone(store, ids);
      MissingHaveNone(store, ids[..i]);
      FrontUnrepeated(ids, i);
      DedupeOfUnrepeated(front);
      DedupeOfFront(front, MissingOf(store, ids[i..]));
      var a :| 0 <= a < |front| && front[a] == ids[i];
      assert different[..|front|][a] == ids[i] && missing[a] == ids[i];
    }
  }

  lemma MissingOfFront(store: Cache, ids: seq<string>, i: nat)
    requires i <= |ids|
    ensures MissingOf(store, ids) == MissingOf(store, ids[..i]) + MissingOf(store, ids[i..])
  {
    var p := k => ShortId(store, k).Missing?;
    assert ids == ids[..i] + ids[i..];
    FilterConcat(ids[..i], ids[i..], p);
    FilterAgrees(ids, p, k => ShortId(store, k).Missing?);
    FilterAgrees(ids[..i], p, k => ShortId(store, k).Missing?);
    FilterAgrees(ids[i..], p, k => ShortId(store, k).Missing?);
  }

  lemma FrontUnrepeated(ids: seq<string>, i: nat)
    requires i < |Dedupe(ids)| <= |ids| && ids[..i] == Dedupe(ids)[..i]
    ensures Unrepeated(ids[..i])
  {
    DedupeHasTheSameKeys(ids);
    assert forall m :: 0 <= m < i ==> ids[..i][m] == Dedupe(ids)[m];
  }

  // For any fetched contacts: every contact returned carries its own short id if and only if repeats come last.
  lemma OwnIdsIffRepeatsComeLast(store: Cache, ids: seq<string>, longIds: set<string>, limit: nat)
    requires Ready(store, ids, longIds, limit)
    ensures |Dedupe(ids)| <= |ids|
    ensures OwnIds(store, ids) <==> RepeatsComeLast(ids)
  {
    DedupeIsShorter(ids);
    if RepeatsComeLast(ids) {
      OwnIdsWhenRepeatsComeLast(store, ids, longIds, limit);
    } else {
      var i := FirstRepeat(ids, 0);
      RepeatGetsWrongId(store, ids, longIds, limit, i);
    }
  }

  // Every contact fetched is returned with its own short id if and only if none is repeated.
  lemma AllReturnedIffUnrepeated(store: Cache, ids: seq<string>, longIds: set<string>, limit: nat)
    requires Ready(store, ids, longIds, limit)
    ensures |Dedupe(ids)| <= |ids|
    ensures OwnIds(store, ids) && |ShortIds(store, ids)| == |ids| <==> Unrepeated(ids)
  {
    OwnIdsIffRepeatsComeLast(store, ids, longIds, limit);
    DedupeHasTheSameKeys(ids);
    if Unrepeated(ids) {
      DedupeOfUnrepeated(ids);
    }
    if |Dedupe(ids)| == |ids| && RepeatsComeLast(ids) {
      assert ids[..|ids|] == ids;
    }
  }

  // ---- What the records gather ----

  // The record the cache has for a long id.
  function Stored(store: Cache, longId: string): Option<CachedContact> {
    if ShortId(store, longId).Known? then Details(store, ShortId(store, longId)) else None
  }

  function Accounts(store: Cache, longId: string): set<string> {
    var record := Stored(store, longId);
    if record.Some? && record.value.accountIds.Some? then Elements(record.value.accountIds.value) else {}
  }

  // The record lists exactly these accounts, sorted and without repetition, under its own long id.
  ghost predicate Lists(record: Option<CachedContact>, longId: string, accounts: set<string>) {
    && record.Some? && record.value.id == longId && record.value.accountIds.Some?
    && Ascending(record.value.accountIds.value) && Elements(record.value.accountIds.value) == accounts
  }

  lemma GatheredAccounts(cached: Option<CachedContact>, account: string)
    ensures Ascending(Gathered(cached, account))
    ensures Elements(Gathered(cached, account))
            == (if cached.Some? && cached.value.accountIds.Some? then Elements(cached.value.accountIds.value) else {}) + {account}
  {
    var old' := if cached.Some? && cached.value.accountIds.Some? then cached.value.accountIds.value else [];
    SortedSetIsAscending(old' + [account]);
  }

  lemma {:induction false} RecordsAt(contactType: string, ids: seq<string>, shorts: seq<ShortRef>, lists: seq<seq<string>>, n: nat)
    requires n <= |shorts| == |lists| <= |ids| && forall i :: 0 <= i < n ==> shorts[i].Known?
    requires forall i, j :: 0 <= i < j < n ==> shorts[i] != shorts[j]
    ensures var records := Records(contactType, ids, shorts, lists, n);
            && (forall i :: 0 <= i < n ==> shorts[i].n in records
                                           && records[shorts[i].n] == CachedContact(ids[i], contactType, Some(lists[i])))
            && (forall m :: m in records ==> exists i :: 0 <= i < n && shorts[i] == Known(m))
  {
    if n > 0 {
      RecordsAt(contactType, ids, shorts, lists, n - 1);
    }
  }

  // Numbering the missing contacts of an unrepeated list.
  lemma NumberedContacts(store: Cache, ids: seq<string>, longIds: set<string>, limit: nat)
    requires Ready(store, ids, longIds, limit) && NoStrays(store, limit) && Unrepeated(ids) && Counter(store) + |ids| <= limit
    ensures var withIds := WithIds(store, ids);
            && WellKeyed(withIds, longIds, limit) && Counter(store) <= Counter(withIds) <= Counter(store) + |ids| && NoStrays(withIds, limit)
            && (forall k :: k in longIds ==> Stored(withIds, k) == Stored(store, k))
            && (forall k :: k in longIds && k in store ==> ShortId(withIds, k) == ShortId(store, k))
            && (forall k :: k in longIds && k !in store && k !in ids ==> ShortId(withIds, k) == ShortId(store, k) == ShortRef.Missing)
  {
    var missing := MissingOf(store, ids);
    MissingHaveNone(store, ids);
    FilterIsShorter(ids, k => ShortId(store, k).Missing?);
    MissingAreFresh(store, ids, longIds, limit);
    AssignedWellKeyed(store, missing, longIds, limit);
    AssignedKeys(store, missing);
    AllStoredKept(store, WithIds(store, ids), missing, longIds, limit);
    ShortIdsKept(store, WithIds(store, ids), missing, longIds, limit);
  }

  lemma MissingAreFresh(store: Cache, ids: seq<string>, longIds: set<string>, limit: nat)
    requires Ready(store, ids, longIds, limit)
    ensures forall k :: k in MissingOf(store, ids) ==> k in longIds && k !in store
  {
    MissingHaveNone(store, ids);
    forall k | k in MissingOf(store, ids) ensures k in longIds && k !in store {
      assert k in longIds;
    }
  }

  lemma ShortIdsKept(store: Cache, withIds: Cache, missing: seq<string>, longIds: set<string>, limit: nat)
    requires COUNTER !in longIds && forall k :: k in missing ==> k in longIds && k !in store
    requires forall k :: k in withIds <==> k in store || k in missing || (k == COUNTER && missing != [])
    requires forall k :: k in store && k != COUNTER && k !in missing ==> withIds[k] == store[k]
    ensures forall k :: k in longIds && k in store ==> ShortId(withIds, k) == ShortId(store, k)
    ensures forall k :: k in longIds && k !in store && k !in missing ==> ShortId(withIds, k) == ShortId(store, k) == ShortRef.Missing
  {
  }

  lemma AllStoredKept(store: Cache, withIds: Cache, missing: seq<string>, longIds: set<string>, limit: nat)
    requires Apart(longIds, limit) && WellKeyed(store, longIds, limit) && NoStrays(store, limit) && forall k :: k in missing ==> k in longIds && k !in store
    requires WellKeyed(withIds, longIds, limit) && Counter(withIds) == Counter(store) + |missing|
    requires forall i :: 0 <= i < |missing| ==> missing[i] in withIds && withIds[missing[i]] == Num(Counter(store) + 1 + i)
    requires forall k :: k in withIds <==> k in store || k in missing || (k == COUNTER && missing != [])
    requires forall k :: k in store && k != COUNTER && k !in missing ==> withIds[k] == store[k]
    ensures NoStrays(withIds, limit)
    ensures forall k :: k in longIds ==> Stored(withIds, k) == Stored(store, k)
  {
    DecimalsKept(store, withIds, missing, longIds, limit);
    forall k | k in longIds ensures Stored(withIds, k) == Stored(store, k) {
      StoredKept(store, withIds, missing, longIds, limit, k);
    }
    forall n | Counter(withIds) < n <= limit ensures Decimal(n) !in withIds {
      assert Lookup(withIds, Decimal(n)) == Lookup(store, Decimal(n));
    }
  }

  lemma {:induction false} FilterIsShorter(ids: seq<string>, p: string -> bool)
    ensures |Filter(ids, p)| <= |ids|
  {
    if ids != [] {
      FilterIsShorter(ids[..|ids| - 1], p);
    }
  }

  lemma DecimalsKept(store: Cache, withIds: Cache, missing: seq<string>, longIds: set<string>, limit: nat)
    requires Apart(longIds, limit) && (forall k :: k in missing ==> k in longIds)
    requires forall k :: k in withIds <==> k in store || k in missing || (k == COUNTER && missing != [])
    requires forall k :: k in store && k != COUNTER && k !in missing ==> withIds[k] == store[k]
    ensures forall n :: 1 <= n <= limit ==> Lookup(withIds, Decimal(n)) == Lookup(store, Decimal(n))
  {
    forall n | 1 <= n <= limit ensures Lookup(withIds, Decimal(n)) == Lookup(store, Decimal(n)) {
      DecimalIsNoName(n);
      assert Decimal(n) !in missing;
    }
  }

  lemma StoredKept(store: Cache, withIds: Cache, missing: seq<string>, longIds: set<string>, limit: nat, k: string)
    requires Apart(longIds, limit) && WellKeyed(store, longIds, limit) && NoStrays(store, limit) && k in longIds
    requires WellKeyed(withIds, longIds, limit) && Counter(store) <= Counter(withIds)
    requires forall i :: 0 <= i < |missing| ==> missing[i] in withIds && withIds[missing[i]] == Num(Counter(store) + 1 + i)
    requires forall k :: k in withIds <==> k in store || k in missing || (k == COUNTER && missing != [])
    requires forall k :: k in store && k != COUNTER && k !in missing ==> withIds[k] == store[k]
    requires k in missing ==> k !in store
    requires forall n :: 1 <= n <= limit ==> Lookup(withIds, Decimal(n)) == Lookup(store, Decimal(n))
    ensures Stored(withIds, k) == Stored(store, k)
  {
    if k in missing {
      var i :| 0 <= i < |missing| && missing[i] == k;
      var n := Counter(store) + 1 + i;
      assert 1 <= n <= limit && Decimal(n) !in store;
      assert Lookup(withIds, Decimal(n)) == Lookup(store, Decimal(n));
    } else if k in store {
      assert 1 <= store[k].n <= limit;
    }
  }

  // What one call does: every contact of it gets, or keeps, its own short id, and its record lists the accounts it had
  // and this one; every other contact is left alone.
  ghost predicate Gathers(before: Cache, after: Cache, account: string, ids: seq<string>, longIds: set<string>) {
    && (forall k :: k in ids ==> Lists(Stored(after, k), k, Accounts(before, k) + {account}))
    && (forall k :: k in longIds && k !in ids ==> Stored(after, k) == Stored(before, k))
    && (forall k :: k in longIds && k in before ==> ShortId(after, k) == ShortId(before, k))
  }

  // So does any call whose response repeats no contact.
  lemma ParsedGathers(store: Cache, contactType: string, account: string, ids: seq<string>, longIds: set<string>, limit: nat)
    requires Ready(store, ids, longIds, limit) && NoStrays(store, limit) && Unrepeated(ids) && Counter(store) + |ids| <= limit
    ensures var parsed := Parsed(store, contactType, account, ids);
            && WellKeyed(parsed, longIds, limit) && Counter(store) <= Counter(parsed) <= Counter(store) + |ids| && NoStrays(parsed, limit)
            && Gathers(store, parsed, account, ids, longIds)
  {
    NumberedContacts(store, ids, longIds, limit);
    OwnShortIds(store, ids, longIds, limit);
    var withIds, shorts := WithIds(store, ids), ShortIds(store, ids);
    var records := Records(contactType, ids, shorts, AccountLists(withIds, shorts, account), |shorts|);
    ParsedWhenNumbered(store, contactType, account, ids);
    RecordsWritten(withIds, contactType, account, ids, shorts, longIds, limit);
    NumberingFirst(store, withIds, withIds + Docs(records), account, ids, longIds);
  }

  lemma OwnShortIds(store: Cache, ids: seq<string>, longIds: set<string>, limit: nat)
    requires Ready(store, ids, longIds, limit) && Unrepeated(ids)
    ensures |ShortIds(store, ids)| == |ids| && AllNumbered(ShortIds(store, ids))
    ensures forall i :: 0 <= i < |ids| ==> ShortIds(store, ids)[i] == ShortId(WithIds(store, ids), ids[i])
  {
    AllReturnedIffUnrepeated(store, ids, longIds, limit);
  }

  lemma ParsedWhenNumbered(store: Cache, contactType: string, account: string, ids: seq<string>)
    requires Countable(store) && |ShortIds(store, ids)| == |ids| && AllNumbered(ShortIds(store, ids))
    ensures var withIds, shorts := WithIds(store, ids), ShortIds(store, ids);
            Parsed(store, contactType, account, ids)
            == withIds + Docs(Records(contactType, ids, shorts, AccountLists(withIds, shorts, account), |shorts|))
  {
  }

  lemma NumberingFirst(store: Cache, withIds: Cache, parsed: Cache, account: string, ids: seq<string>, longIds: set<string>)
    requires Gathers(withIds, parsed, account, ids, longIds) && forall k :: k in ids ==> k in longIds
    requires forall k :: k in longIds ==> Stored(withIds, k) == Stored(store, k)
    requires forall k :: k in longIds && k in store ==> k in withIds && ShortId(withIds, k) == ShortId(store, k)
    ensures Gathers(store, parsed, account, ids, longIds)
  {
    forall k | k in ids ensures Lists(Stored(parsed, k), k, Accounts(store, k) + {account}) {
      assert k in longIds;
    }
  }

  // Writing the records once the contacts are numbered.
  lemma RecordsWritten(withIds: Cache, contactType: string, account: string, ids: seq<string>, shorts: seq<ShortRef>,
                       longIds: set<string>, limit: nat)
    requires Apart(longIds, limit) && WellKeyed(withIds, longIds, limit) && NoStrays(withIds, limit)
    requires Unrepeated(ids) && |shorts| == |ids| && forall k :: k in ids ==> k in longIds
    requires forall i :: 0 <= i < |shorts| ==> shorts[i].Known? && shorts[i] == ShortId(withIds, ids[i])
    ensures var parsed := withIds + Docs(Records(contactType, ids, shorts, AccountLists(withIds, shorts, account), |shorts|));
            && WellKeyed(parsed, longIds, limit) && Counter(parsed) == Counter(withIds) && NoStrays(parsed, limit)
            && Gathers(withIds, parsed, account, ids, longIds)
  {
    var lists := AccountLists(withIds, shorts, account);
    var records := Records(contactType, ids, shorts, lists, |shorts|);
    var parsed := withIds + Docs(records);
    RecordsListed(withIds, contactType, ids, shorts, lists, longIds, limit);
    RecordsInCache(withIds, parsed, records, longIds, limit);
    RecordsGather(withIds, parsed, contactType, account, ids, shorts, lists, records, longIds, limit);
  }

  lemma RecordsListed(withIds: Cache, contactType: string, ids: seq<string>, shorts: seq<ShortRef>, lists: seq<seq<string>>,
                      longIds: set<string>, limit: nat)
    requires WellKeyed(withIds, longIds, limit) && Unrepeated(ids) && |shorts| == |ids| == |lists| && forall k :: k in ids ==> k in longIds
    requires forall i :: 0 <= i < |shorts| ==> shorts[i].Known? && shorts[i] == ShortId(withIds, ids[i])
    ensures var records := Records(contactType, ids, shorts, lists, |shorts|);
            && (forall i :: 0 <= i < |ids| ==> 1 <= shorts[i].n <= Counter(withIds))
            && (forall i :: 0 <= i < |ids| ==>
                  shorts[i].n in records && records[shorts[i].n] == CachedContact(ids[i], contactType, Some(lists[i])))
            && (forall m :: m in records ==> 1 <= m <= Counter(withIds) && exists i :: 0 <= i < |ids| && shorts[i] == Known(m))
  {
    ShortIdsDiffer(withIds, ids, shorts, longIds, limit);
    RecordsAt(contactType, ids, shorts, lists, |shorts|);
  }

  lemma RecordsInCache(withIds: Cache, parsed: Cache, records: map<nat, CachedContact>, longIds: set<string>, limit: nat)
    requires Apart(longIds, limit) && WellKeyed(withIds, longIds, limit) && NoStrays(withIds, limit)
    requires forall m :: m in records ==> 1 <= m <= Counter(withIds)
    requires parsed == withIds + Docs(records)
    ensures WellKeyed(parsed, longIds, limit) && Counter(parsed) == Counter(withIds) && NoStrays(parsed, limit)
    ensures forall k :: k in longIds ==> Lookup(parsed, k) == Lookup(withIds, k)
    ensures forall n :: 1 <= n <= limit ==>
               Lookup(parsed, Decimal(n)) == if n in records then Some(Doc(records[n])) else Lookup(withIds, Decimal(n))
  {
    WritingRecords(withIds, records, longIds, limit);
    StraysStayAway(withIds, parsed, records, limit);
  }

  lemma RecordsGather(withIds: Cache, parsed: Cache, contactType: string, account: string, ids: seq<string>, shorts: seq<ShortRef>,
                      lists: seq<seq<string>>, records: map<nat, CachedContact>, longIds: set<string>, limit: nat)
    requires WellKeyed(withIds, longIds, limit) && forall k :: k in ids ==> k in longIds
    requires |shorts| == |ids| == |lists|
    requires forall i :: 0 <= i < |ids| ==> shorts[i].Known? && shorts[i] == ShortId(withIds, ids[i]) && 1 <= shorts[i].n <= limit
    requires forall i :: 0 <= i < |ids| ==> lists[i] == Gathered(Details(withIds, shorts[i]), account)
    requires forall i :: 0 <= i < |ids| ==>
               shorts[i].n in records && records[shorts[i].n] == CachedContact(ids[i], contactType, Some(lists[i]))
    requires forall m :: m in records ==> exists i :: 0 <= i < |ids| && shorts[i] == Known(m)
    requires forall k :: k in longIds ==> Lookup(parsed, k) == Lookup(withIds, k)
    requires forall n :: 1 <= n <= limit ==>
               Lookup(parsed, Decimal(n)) == if n in records then Some(Doc(records[n])) else Lookup(withIds, Decimal(n))
    ensures Gathers(withIds, parsed, account, ids, longIds)
  {
    forall k | k in ids ensures Lists(Stored(parsed, k), k, Accounts(withIds, k) + {account}) {
      var i :| 0 <= i < |ids| && ids[i] == k;
      assert k in longIds;
      ListedAt(withIds, parsed, contactType, account, k, shorts[i].n, lists[i]);
    }
    forall k | k in longIds && k !in ids ensures Stored(parsed, k) == Stored(withIds, k) {
      OthersLeftAlone(withIds, parsed, ids, shorts, records, longIds, limit, k);
    }
  }

  lemma ListedAt(withIds: Cache, parsed: Cache, contactType: string, account: string, k: string, n: nat, list: seq<string>)
    requires ShortId(parsed, k) == Known(n) && ShortId(withIds, k) == Known(n) && list == Gathered(Details(withIds, Known(n)), account)
    requires Lookup(parsed, Decimal(n)) == Some(Doc(CachedContact(k, contactType, Some(list))))
    ensures Lists(Stored(parsed, k), k, Accounts(withIds, k) + {account})
  {
    GatheredAccounts(Details(withIds, Known(n)), account);
  }

  lemma ShortIdsDiffer(withIds: Cache, ids: seq<string>, shorts: seq<ShortRef>, longIds: set<string>, limit: nat)
    requires WellKeyed(withIds, longIds, limit) && Unrepeated(ids) && |shorts| == |ids| && forall k :: k in ids ==> k in longIds
    requires forall i :: 0 <= i < |shorts| ==> shorts[i].Known? && shorts[i] == ShortId(withIds, ids[i])
    ensures forall i, j :: 0 <= i < j < |shorts| ==> shorts[i] != shorts[j]
    ensures forall i :: 0 <= i < |shorts| ==> 1 <= shorts[i].n <= Counter(withIds)
  {
    forall i | 0 <= i < |ids| ensures ids[i] in longIds && ids[i] in withIds && withIds[ids[i]] == Num(shorts[i].n) {
      assert ids[i] in ids;
    }
    forall i, j | 0 <= i < j < |shorts| ensures shorts[i] != shorts[j] {
      assert withIds[ids[i]] != withIds[ids[j]];
    }
  }

  lemma StraysStayAway(withIds: Cache, parsed: Cache, records: map<nat, CachedContact>, limit: nat)
    requires Countable(withIds) && Countable(parsed) && Counter(parsed) == Counter(withIds) && NoStrays(withIds, limit)
    requires forall m :: m in records ==> m <= Counter(withIds)
    requires forall n :: 1 <= n <= limit ==>
               Lookup(parsed, Decimal(n)) == if n in records then Some(Doc(records[n])) else Lookup(withIds, Decimal(n))
    ensures NoStrays(parsed, limit)
  {
    forall n | Counter(parsed) < n <= limit ensures Decimal(n) !in parsed {
      assert Lookup(parsed, Decimal(n)) == Lookup(withIds, Decimal(n));
    }
  }

  lemma OthersLeftAlone(withIds: Cache, parsed: Cache, ids: seq<string>, shorts: seq<ShortRef>, records: map<nat, CachedContact>,
                        longIds: set<string>, limit: nat, k: string)
    requires WellKeyed(withIds, longIds, limit) && k in longIds && k !in ids && |shorts| == |ids| && forall l :: l in ids ==> l in longIds
    requires forall i :: 0 <= i < |ids| ==> shorts[i].Known? && shorts[i] == ShortId(withIds, ids[i])
    requires forall m :: m in records ==> exists i :: 0 <= i < |ids| && shorts[i] == Known(m)
    requires ShortId(parsed, k) == ShortId(withIds, k)
    requires forall n :: 1 <= n <= limit ==>
               Lookup(parsed, Decimal(n)) == if n in records then Some(Doc(records[n])) else Lookup(withIds, Decimal(n))
    ensures Stored(parsed, k) == Stored(withIds, k)
  {
    if ShortId(withIds, k).Known? {
      var n := ShortId(withIds, k).n;
      assert k in longIds && withIds[k] == Num(n);
      forall i | 0 <= i < |ids| ensures shorts[i] != Known(n) {
        assert ids[i] in ids && ids[i] in longIds;
        assert withIds[ids[i]] == Num(shorts[i].n);
      }
      assert n !in records;
      assert Lookup(parsed, Decimal(n)) == Lookup(withIds, Decimal(n));
    }
  }

  // A returned contact has the address it was fetched with, and mirrors the record the cache now has for it: under that
  // short id, of that type, with the accounts it already had and this one.
  ghost predicate Mirrors(returned: AdvertiserContact, contact: Contact, before: Cache, after: Cache, contactType: string, account: string) {
    && returned.email == contact.email && returned.contactType == contactType
    && ShortId(after, contact.contactId) == Known(returned.id)
    && Stored(after, contact.contactId) == Some(CachedContact(contact.contactId, contactType, Some(returned.accountIds)))
    && Ascending(returned.accountIds) && Elements(returned.accountIds) == Accounts(before, contact.contactId) + {account}
  }

  lemma ReturnedMirrorsTheCache(store: Cache, contactType: string, account: string, fetched: seq<Contact>, longIds: set<string>, limit: nat)
    requires Ready(store, LongIds(fetched), longIds, limit) && NoStrays(store, limit) && Unrepeated(LongIds(fetched))
    requires Counter(store) + |fetched| <= limit
    ensures var ids := LongIds(fetched);
            var shorts := ShortIds(store, ids);
            && |shorts| == |fetched| && AllNumbered(shorts)
            && var returned := Returned(contactType, fetched, shorts, AccountLists(WithIds(store, ids), shorts, account));
               forall i :: 0 <= i < |fetched| ==> Mirrors(returned[i], fetched[i], store, Parsed(store, contactType, account, ids), contactType, account)
  {
    var ids := LongIds(fetched);
    WrittenAtPlaces(store, contactType, account, ids, longIds, limit);
    ParsedGathers(store, contactType, account, ids, longIds, limit);
    var shorts, parsed := ShortIds(store, ids), Parsed(store, contactType, account, ids);
    var lists := AccountLists(WithIds(store, ids), shorts, account);
    forall i | 0 <= i < |fetched|
      ensures Mirrors(Returned(contactType, fetched, shorts, lists)[i], fetched[i], store, parsed, contactType, account)
    {
      assert ids[i] in ids;
      MirrorAt(store, parsed, contactType, account, fetched[i], shorts[i].n, lists[i]);
    }
  }

  // The record under each short id, after the call.
  lemma WrittenAtPlaces(store: Cache, contactType: string, account: string, ids: seq<string>, longIds: set<string>, limit: nat)
    requires Ready(store, ids, longIds, limit) && NoStrays(store, limit) && Unrepeated(ids) && Counter(store) + |ids| <= limit
    ensures var shorts, parsed := ShortIds(store, ids), Parsed(store, contactType, account, ids);
            && |shorts| == |ids| && AllNumbered(shorts)
            && forall i :: 0 <= i < |ids| ==>
                 && ShortId(parsed, ids[i]) == shorts[i]
                 && Lookup(parsed, Decimal(shorts[i].n))
                    == Some(Doc(CachedContact(ids[i], contactType, Some(AccountLists(WithIds(store, ids), shorts, account)[i]))))
  {
    NumberedContacts(store, ids, longIds, limit);
    OwnShortIds(store, ids, longIds, limit);
    ParsedWhenNumbered(store, contactType, account, ids);
    RecordsAtPlaces(WithIds(store, ids), contactType, ids, ShortIds(store, ids), AccountLists(WithIds(store, ids), ShortIds(store, ids), account),
                    longIds, limit);
  }

  lemma RecordsAtPlaces(withIds: Cache, contactType: string, ids: seq<string>, shorts: seq<ShortRef>, lists: seq<seq<string>>,
                        longIds: set<string>, limit: nat)
    requires Apart(longIds, limit) && WellKeyed(withIds, longIds, limit) && NoStrays(withIds, limit)
    requires Unrepeated(ids) && |shorts| == |ids| == |lists| && forall k :: k in ids ==> k in longIds
    requires forall i :: 0 <= i < |shorts| ==> shorts[i].Known? && shorts[i] == ShortId(withIds, ids[i])
    ensures var parsed := withIds + Docs(Records(contactType, ids, shorts, lists, |shorts|));
            forall i :: 0 <= i < |ids| ==> ShortId(parsed, ids[i]) == shorts[i]
                                           && Lookup(parsed, Decimal(shorts[i].n)) == Some(Doc(CachedContact(ids[i], contactType, Some(lists[i]))))
  {
    var records := Records(contactType, ids, shorts, lists, |shorts|);
    RecordsListed(withIds, contactType, ids, shorts, lists, longIds, limit);
    RecordsInCache(withIds, withIds + Docs(records), records, longIds, limit);
    assert forall i :: 0 <= i < |ids| ==> ids[i] in ids;
  }

  lemma MirrorAt(store: Cache, parsed: Cache, contactType: string, account: string, contact: Contact, n: nat, list: seq<string>)
    requires ShortId(parsed, contact.contactId) == Known(n)
    requires Lookup(parsed, Decimal(n)) == Some(Doc(CachedContact(contact.contactId, contactType, Some(list))))
    requires Lists(Stored(parsed, contact.contactId), contact.contactId, Accounts(store, contact.contactId) + {account})
    ensures Mirrors(AdvertiserContact(n, contact.email, contactType, list), contact, store, parsed, contactType, account)
  {
  }

  // ---- Histories ----

  datatype Call = Call(contactType: string, account: string, ids: seq<string>)

  ghost predicate Possible(store: Cache, calls: seq<Call>, longIds: set<string>, limit: nat) {
    && Apart(longIds, limit) && WellKeyed(store, longIds, limit) && NoStrays(store, limit)
    && (forall i :: 0 <= i < |calls| ==> Unrepeated(calls[i].ids) && forall k :: k in calls[i].ids ==> k in longIds)
    && Counter(store) + Length(calls) <= limit
  }

  function Length(calls: seq<Call>): nat {
    if calls == [] then 0 else |calls[0].ids| + Length(calls[1..])
  }

  lemma PossibleNext(store: Cache, calls: seq<Call>, longIds: set<string>, limit: nat)
    requires Possible(store, calls, longIds, limit) && calls != []
    ensures Possible(Parsed(store, calls[0].contactType, calls[0].account, calls[0].ids), calls[1..], longIds, limit)
  {
    ParsedGathers(store, calls[0].contactType, calls[0].account, calls[0].ids, longIds, limit);
  }

  ghost function After(store: Cache, calls: seq<Call>, longIds: set<string>, limit: nat): Cache
    requires Possible(store, calls, longIds, limit)
    decreases |calls|
  {
    if calls == [] then store
    else
      PossibleNext(store, calls, longIds, limit);
      After(Parsed(store, calls[0].contactType, calls[0].account, calls[0].ids), calls[1..], longIds, limit)
  }

  // The accounts a contact was fetched for.
  function FetchedFor(calls: seq<Call>, longId: string): set<string> {
    set i | 0 <= i < |calls| && longId in calls[i].ids :: calls[i].account
  }

  lemma FetchedForNext(calls: seq<Call>, longId: string)
    requires calls != []
    ensures FetchedFor(calls, longId) == (if longId in calls[0].ids then {calls[0].account} else {}) + FetchedFor(calls[1..], longId)
  {
    forall a | a in FetchedFor(calls, longId)
      ensures a in (if longId in calls[0].ids then {calls[0].account} else {}) + FetchedFor(calls[1..], longId)
    {
      var i :| 0 <= i < |calls| && longId in calls[i].ids && calls[i].account == a;
      assert i > 0 ==> calls[1..][i - 1] == calls[i];
    }
    forall a | a in FetchedFor(calls[1..], longId) ensures a in FetchedFor(calls, longId) {
      var i :| 0 <= i < |calls[1..]| && longId in calls[1..][i].ids && calls[1..][i].account == a;
      assert calls[i + 1].account == a;
    }
  }

  // From one cache to another: the contact was fetched for these accounts, and its short id is the same.
  ghost predicate Recorded(before: Cache, after: Cache, longId: string, fetchedFor: set<string>) {
    && (if fetchedFor == {} then Stored(after, longId) == Stored(before, longId)
        else Lists(Stored(after, longId), longId, Accounts(before, longId) + fetchedFor))
    && (longId in before ==> longId in after && ShortId(after, longId) == ShortId(before, longId))
  }

  // Over any history, a contact's record lists exactly its first accounts and all it was fetched for, sorted and
  // without repetition; a contact never fetched keeps its record, and short ids never change.
  lemma {:induction false} HistoryGathers(store: Cache, calls: seq<Call>, longIds: set<string>, limit: nat, longId: string)
    requires Possible(store, calls, longIds, limit) && longId in longIds
    ensures WellKeyed(After(store, calls, longIds, limit), longIds, limit)
    ensures Recorded(store, After(store, calls, longIds, limit), longId, FetchedFor(calls, longId))
    decreases |calls|
  {
    if calls != [] {
      var first := calls[0];
      var next := Parsed(store, first.contactType, first.account, first.ids);
      PossibleNext(store, calls, longIds, limit);
      ParsedGathers(store, first.contactType, first.account, first.ids, longIds, limit);
      HistoryGathers(next, calls[1..], longIds, limit, longId);
      FetchedForNext(calls, longId);
      RecordedBefore(store, next, After(next, calls[1..], longIds, limit), longIds, limit, longId, first, FetchedFor(calls[1..], longId));
    }
  }

  lemma RecordedBefore(store: Cache, next: Cache, after: Cache, longIds: set<string>, limit: nat, longId: string, call: Call, later: set<string>)
    requires WellKeyed(store, longIds, limit) && longId in longIds && Gathers(store, next, call.account, call.ids, longIds)
    requires Recorded(next, after, longId, later)
    ensures Recorded(store, after, longId, (if longId in call.ids then {call.account} else {}) + later)
  {
    assert longId in store ==> store[longId].Num?;
    var all := (if longId in call.ids then {call.account} else {}) + later;
    if longId in call.ids {
      assert call.account in all;
      assert Accounts(store, longId) + all == Accounts(next, longId) + later;
    }
  }
}
