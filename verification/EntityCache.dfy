/**
The Redis keys of one entity, without their common prefix: an id counter under "id",
short ids under long ids, and records under the decimal text of short ids.
 */
module EntityCache {
  import opened Options
  import opened PyDict

  datatype Value<+D> = Num(n: nat) | Text(s: string) | Doc(d: D)

  type Store<D> = map<string, Value<D>>

  function Lookup<D>(store: Store<D>, key: string): Option<Value<D>> {
    if key in store then Some(store[key]) else None
  }

  const COUNTER := "id"

  // The counter holds a number, as INCR demands.
  predicate Countable<D>(store: Store<D>) {
    COUNTER in store ==> store[COUNTER].Num?
  }

  function Counter<D>(store: Store<D>): nat
    requires Countable(store)
  {
    if COUNTER in store then store[COUNTER].n else 0
  }

  // A cached short id comes back as text and is read as a number; a record is no short id.
  function AsId<D>(value: Option<Value<D>>): Option<nat> {
    if value.Some? && value.value.Num? then Some(value.value.n) else None
  }

  // What is read under a long id: nothing, a short id, or something that spells no number and that no field for
  // an id accepts.
  datatype ShortRef = Missing | Known(n: nat) | Unfit

  function ReadId<D>(value: Option<Value<D>>): ShortRef {
    if value.None? then Missing else if value.value.Num? then Known(value.value.n) else Unfit
  }

  // A record that does not parse as one reads as missing.
  function AsDoc<D>(value: Option<Value<D>>): Option<D> {
    if value.Some? && value.value.Doc? then Some(value.value.d) else None
  }

  // ---- Allocating ids ----

  function NumberPairs(first: nat, keys: seq<string>): (pairs: seq<(string, nat)>)
    ensures |pairs| == |keys| && forall i :: 0 <= i < |keys| ==> pairs[i] == (keys[i], first + i)
  {
    seq(|keys|, i requires 0 <= i < |keys| => (keys[i], first + i))
  }

  // {key: first + i for i, key in enumerate(keys)}
  function Numbered(first: nat, keys: seq<string>): Dict<string, nat> {
    FromPairs(NumberPairs(first, keys))
  }

  function Nums<D>(ids: map<string, nat>): (store: Store<D>)
    ensures store.Keys == ids.Keys && forall key :: key in ids ==> store[key] == Num(ids[key])
  {
    map key | key in ids :: Num(ids[key])
  }

  function Assigned<D>(store: Store<D>, keys: seq<string>): Store<D>
    requires Countable(store)
  {
    if keys == [] then store
    else store[COUNTER := Num(Counter(store) + |keys|)] + Nums(Numbered(Counter(store) + 1, keys).at)
  }

  function Values(d: Dict<string, nat>): (r: seq<nat>)
    requires forall i :: 0 <= i < |d.keys| ==> d.keys[i] in d.at
    ensures |r| == |d.keys| && forall i :: 0 <= i < |r| ==> r[i] == d.at[d.keys[i]]
  {
    seq(|d.keys|, i requires 0 <= i < |d.keys| => d.at[d.keys[i]])
  }

  // The list assign_numeric_id_batch hands back.
  function AssignedIds<D>(store: Store<D>, keys: seq<string>): seq<nat>
    requires Countable(store)
  {
    NumberedKeys(Counter(store) + 1, keys);
    if keys == [] then [] else Values(Numbered(Counter(store) + 1, keys))
  }

  lemma NumberedKeys(first: nat, keys: seq<string>)
    ensures Valid(Numbered(first, keys))
    ensures forall k :: k in Numbered(first, keys).at <==> k in keys
  {
    var pairs := NumberPairs(first, keys);
    FromPairsValid(pairs);
    forall k | k in keys ensures k in FromPairs(pairs).at {
      var i :| 0 <= i < |keys| && keys[i] == k;
      assert pairs[i].0 == k;
    }
  }

  // A list without repetition gets consecutive ids in its own order.
  lemma UnrepeatedGetConsecutiveIds(first: nat, keys: seq<string>)
    requires Unrepeated(keys)
    ensures Numbered(first, keys).keys == keys
    ensures forall i :: 0 <= i < |keys| ==> keys[i] in Numbered(first, keys).at && Numbered(first, keys).at[keys[i]] == first + i
  {
    DistinctPairsKeepOrder(NumberPairs(first, keys), keys);
  }

  lemma UnrepeatedAssignedIds<D>(store: Store<D>, keys: seq<string>)
    requires Countable(store) && Unrepeated(keys)
    ensures |AssignedIds(store, keys)| == |keys|
    ensures forall i :: 0 <= i < |keys| ==> AssignedIds(store, keys)[i] == Counter(store) + 1 + i
  {
    UnrepeatedGetConsecutiveIds(Counter(store) + 1, keys);
  }

  // A repeated key takes the id of its last place, and the list handed back has each key once.
  lemma RepeatedKeysCollapse(first: nat, keys: seq<string>, i: nat)
    requires i < |keys| && forall j :: i < j < |keys| ==> keys[j] != keys[i]
    ensures Numbered(first, keys).keys == Dedupe(keys)
    ensures keys[i] in Numbered(first, keys).at && Numbered(first, keys).at[keys[i]] == first + i
  {
    FromPairsKeys(NumberPairs(first, keys), keys);
    LastPairWins(NumberPairs(first, keys), i);
  }

  class RedisEntity<D> {
    var store: Store<D>

    constructor (store: Store<D>)
      ensures this.store == store
    {
      this.store := store;
    }

    method Mget(keys: seq<string>) returns (values: seq<Option<Value<D>>>)
      ensures |values| == |keys| && forall i :: 0 <= i < |keys| ==> values[i] == Lookup(store, keys[i])
    {
      values := [];
      for i := 0 to |keys|
        invariant |values| == i && forall j :: 0 <= j < i ==> values[j] == Lookup(store, keys[j])
      {
        values := values + [if keys[i] in store then Some(store[keys[i]]) else None];
      }
    }

    method Mset(entries: map<string, Value<D>>)
      modifies this
      ensures store == old(store) + entries
    {
      store := store + entries;
    }

    method IncrBy(amount: nat) returns (value: nat)
      requires Countable(store)
      modifies this
      ensures value == Counter(old(store)) + amount && store == old(store)[COUNTER := Num(value)]
    {
      value := (if COUNTER in store then store[COUNTER].n else 0) + amount;
      store := store[COUNTER := Num(value)];
    }

    method AssignNumericIdBatch(keys: seq<string>) returns (ids: seq<nat>)
      requires Countable(store)
      modifies this
      ensures store == Assigned(old(store), keys)
      ensures ids == AssignedIds(old(store), keys)
    {
      if keys == [] {
        return [];
      }
      var beginning := IncrBy(1);
      var end := IncrBy(|keys| - 1);
      assert store == old(store)[COUNTER := Num(Counter(old(store)) + |keys|)];
      var numbered := NumberKeys(beginning, keys);
      Mset(Nums(numbered.at));
      NumberedKeys(beginning, keys);
      ids := Values(numbered);
    }
  }

  method NumberKeys(first: nat, keys: seq<string>) returns (numbered: Dict<string, nat>)
    ensures numbered == Numbered(first, keys)
  {
    numbered := Empty();
    ghost var pairs := NumberPairs(first, keys);
    for i := 0 to |keys|
      invariant numbered == FromPairs(pairs[..i])
    {
      numbered := Put(numbered, keys[i], first + i);
      assert pairs[..i + 1][..i] == pairs[..i];
    }
    assert pairs[..|keys|] == pairs;
  }

  // ---- The key families ----

  function Digit(n: nat): char
    requires n < 10
  {
    ('0' as int + n) as char
  }

  // The decimal text of a number.
  function Decimal(n: nat): (s: string)
    ensures s != [] && '0' <= s[0] <= '9'
  {
    if n < 10 then [Digit(n)] else Decimal(n / 10) + [Digit(n % 10)]
  }

  lemma {:induction false} DecimalInjective(m: nat, n: nat)
    requires Decimal(m) == Decimal(n)
    ensures m == n
  {
    var s := Decimal(m);
    assert s[|s| - 1] == Digit(m % 10) == Digit(n % 10);
    assert |s| == 1 <==> m < 10;
    assert |s| == 1 <==> n < 10;
    if m >= 10 {
      assert s[..|s| - 1] == Decimal(m / 10) && s[..|s| - 1] == Decimal(n / 10);
      DecimalInjective(m / 10, n / 10);
    }
  }

  lemma DecimalsDiffer()
    ensures forall m, n {:trigger Decimal(m), Decimal(n)} :: Decimal(m) == Decimal(n) ==> m == n
  {
    forall m, n | Decimal(m) == Decimal(n) ensures m == n {
      DecimalInjective(m, n);
    }
  }

  // {f"{short_id}": record for short_id, record in records.items()}
  function Docs<D>(records: map<nat, D>): Store<D> {
    DecimalsDiffer();
    map n | n in records :: Decimal(n) := Doc(records[n])
  }

  lemma DocsKeys<D>(records: map<nat, D>)
    ensures forall n :: n in records ==> Decimal(n) in Docs(records) && Docs(records)[Decimal(n)] == Doc(records[n])
    ensures forall key :: key in Docs(records) ==> exists n :: n in records && key == Decimal(n)
  {
    DecimalsDiffer();
  }

  // The text of None, which a missing short id is looked up under.
  const NONE := "None"

  // The text a short id is looked up under. Where none can be, the call fails before what is found there matters.
  function IdKey(id: ShortRef): string {
    match id
    case Known(n) => Decimal(n)
    case Missing => NONE
    case Unfit => ""
  }

  // The long ids share their key space with the counter and with the records of the short ids up
  // to limit. Nothing in the code keeps them apart: a long id must be none of those keys.
  ghost predicate Apart(longIds: set<string>, limit: nat) {
    COUNTER !in longIds && NONE !in longIds && forall n :: 1 <= n <= limit ==> Decimal(n) !in longIds
  }

  // Records sit under short ids, short ids under long ids, each short id under one long id and within the counter.
  ghost predicate WellKeyed<D>(store: Store<D>, longIds: set<string>, limit: nat) {
    && Countable(store) && Counter(store) <= limit && NONE !in store
    && (forall n :: 1 <= n <= limit && Decimal(n) in store ==> store[Decimal(n)].Doc?)
    && (forall k :: k in longIds && k in store ==> store[k].Num? && 1 <= store[k].n <= Counter(store))
    && (forall k, l {:trigger k in longIds, l in longIds} ::
          k in longIds && l in longIds && k in store && l in store && store[k] == store[l] ==> k == l)
  }

  // What assigning ids to fresh, unrepeated long ids does to each key.
  lemma AssignedKeys<D(!new)>(store: Store<D>, keys: seq<string>)
    requires Countable(store) && Unrepeated(keys) && COUNTER !in keys
    ensures var store' := Assigned(store, keys);
            && Countable(store') && Counter(store') == Counter(store) + |keys|
            && (forall i :: 0 <= i < |keys| ==> keys[i] in store' && store'[keys[i]] == Num(Counter(store) + 1 + i))
            && (forall k :: k in store' <==> k in store || k in keys || (k == COUNTER && keys != []))
            && (forall k :: k in store && k != COUNTER && k !in keys ==> store'[k] == store[k])
  {
    if keys != [] {
      var first := Counter(store) + 1;
      UnrepeatedGetConsecutiveIds(first, keys);
      NumberedKeys(first, keys);
      OverlayIds(store, first, keys, Numbered(first, keys).at);
    }
  }

  lemma OverlayIds<D(!new)>(store: Store<D>, first: nat, keys: seq<string>, ids: map<string, nat>)
    requires 0 < first && COUNTER !in keys && forall k :: k in ids <==> k in keys
    requires forall i :: 0 <= i < |keys| ==> keys[i] in ids && ids[keys[i]] == first + i
    ensures var end: Value<D> := Num(first + |keys| - 1);
            var store' := store[COUNTER := end] + Nums(ids);
            && COUNTER in store' && store'[COUNTER] == end
            && (forall i :: 0 <= i < |keys| ==> keys[i] in store' && store'[keys[i]] == Num(first + i))
            && (forall k :: k in store' <==> k in store || k in keys || k == COUNTER)
            && (forall k :: k in store && k != COUNTER && k !in keys ==> store'[k] == store[k])
  {
  }

  lemma DecimalIsNoName(n: nat)
    ensures Decimal(n) != COUNTER && Decimal(n) != NONE
  {
    assert '0' <= Decimal(n)[0] <= '9';
  }

  // Giving fresh long ids their short ids keeps the families apart and the ids distinct.
  lemma AssignedWellKeyed<D(!new)>(store: Store<D>, keys: seq<string>, longIds: set<string>, limit: nat)
    requires Apart(longIds, limit) && WellKeyed(store, longIds, limit) && Counter(store) + |keys| <= limit
    requires Unrepeated(keys) && forall k :: k in keys ==> k in longIds && k !in store
    ensures WellKeyed(Assigned(store, keys), longIds, limit)
  {
    var store' := Assigned(store, keys);
    AssignedKeys(store, keys);
    forall n | 1 <= n <= limit && Decimal(n) in store' ensures store'[Decimal(n)].Doc? {
      DecimalIsNoName(n);
      assert Decimal(n) !in keys;
    }
    forall k | k in longIds && k in store'
      ensures store'[k].Num? && 1 <= store'[k].n <= Counter(store')
      ensures k in keys <==> Counter(store) < store'[k].n
    {
      assert k in keys || (k in store && store'[k] == store[k]);
    }
    forall k, l | k in longIds && l in longIds && k in store' && l in store' && store'[k] == store'[l]
      ensures k == l
    {
      if k in keys {
        var i, j :| 0 <= i < |keys| && keys[i] == k && 0 <= j < |keys| && keys[j] == l;
      } else {
        assert store[k] == store[l];
      }
    }
  }

  // Writing records under short ids leaves a numbered long id alone if and only if none of them is written where the
  // long id stands.
  lemma WritingRecordsKeepsIff<D(!new)>(store: Store<D>, records: map<nat, D>, k: string)
    requires k in store && store[k].Num?
    ensures Lookup(store + Docs(records), k) == Lookup(store, k) <==> forall n :: n in records ==> Decimal(n) != k
  {
    DocsKeys(records);
  }

  // Writing records under short ids disturbs neither the counter nor any long id.
  lemma WritingRecords<D(!new)>(store: Store<D>, records: map<nat, D>, longIds: set<string>, limit: nat)
    requires Apart(longIds, limit) && WellKeyed(store, longIds, limit)
    requires forall n :: n in records ==> 1 <= n <= limit
    ensures var store' := store + Docs(records);
            && WellKeyed(store', longIds, limit) && Counter(store') == Counter(store)
            && (forall k :: k in longIds ==> Lookup(store', k) == Lookup(store, k))
            && (forall n :: 1 <= n <= limit ==>
                  Lookup(store', Decimal(n)) == if n in records then Some(Doc(records[n])) else Lookup(store, Decimal(n)))
  {
    RecordKeysApart(records, longIds, limit);
    RecordsOverlay(store, records);
  }

  lemma RecordKeysApart<D(!new)>(records: map<nat, D>, longIds: set<string>, limit: nat)
    requires Apart(longIds, limit) && forall n :: n in records ==> 1 <= n <= limit
    ensures forall k :: k in Docs(records) ==> k != COUNTER && k != NONE && k !in longIds
  {
    DocsKeys(records);
    forall k | k in Docs(records) ensures k != COUNTER && k != NONE && k !in longIds {
      var n :| n in records && k == Decimal(n);
      DecimalIsNoName(n);
    }
  }

  // Under the decimal text of a number the record is found, where there is one.
  lemma RecordsOverlay<D(!new)>(store: Store<D>, records: map<nat, D>)
    ensures forall n: nat :: Lookup(store + Docs(records), Decimal(n)) == if n in records then Some(Doc(records[n])) else Lookup(store, Decimal(n))
    ensures forall k :: k !in Docs(records) ==> Lookup(store + Docs(records), k) == Lookup(store, k)
  {
    DocsKeys(records);
    DecimalsDiffer();
  }
}
