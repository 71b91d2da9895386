/** A Python dict: a map that remembers the order its keys were first inserted in. */
module PyDict {

  datatype Dict<K(==), V> = Dict(keys: seq<K>, at: map<K, V>)

  ghost predicate Unrepeated<K(!new)>(keys: seq<K>) {
    forall i, j :: 0 <= i < j < |keys| ==> keys[i] != keys[j]
  }

  ghost predicate Valid<K(!new), V>(d: Dict<K, V>) {
    Unrepeated(d.keys) && forall k :: k in d.keys <==> k in d.at
  }

  function Empty<K(==,!new), V>(): Dict<K, V> {
    Dict([], map[])
  }

  // d[k] = v
  function Put<K(==,!new), V>(d: Dict<K, V>, k: K, v: V): (r: Dict<K, V>)
    ensures Valid(d) ==> Valid(r)
  {
    Dict(if k in d.at then d.keys else d.keys + [k], d.at[k := v])
  }

  // {k: v for k, v in pairs}
  function FromPairs<K(==,!new), V>(pairs: seq<(K, V)>): Dict<K, V> {
    if pairs == [] then Empty()
    else
      var last := |pairs| - 1;
      Put(FromPairs(pairs[..last]), pairs[last].0, pairs[last].1)
  }

  lemma {:induction false} FromPairsValid<K(!new), V>(pairs: seq<(K, V)>)
    ensures Valid(FromPairs(pairs))
    ensures forall i :: 0 <= i < |pairs| ==> pairs[i].0 in FromPairs(pairs).at
    ensures forall k :: k in FromPairs(pairs).at ==> exists i :: 0 <= i < |pairs| && pairs[i].0 == k
  {
    if pairs != [] {
      FromPairsValid(pairs[..|pairs| - 1]);
    }
  }

  // A later pair overrides an earlier one with the same key.
  lemma {:induction false} LastPairWins<K(!new), V>(pairs: seq<(K, V)>, i: nat)
    requires i < |pairs| && forall j :: i < j < |pairs| ==> pairs[j].0 != pairs[i].0
    ensures pairs[i].0 in FromPairs(pairs).at && FromPairs(pairs).at[pairs[i].0] == pairs[i].1
  {
    var last := |pairs| - 1;
    if i < last {
      LastPairWins(pairs[..last], i);
    }
  }

  // Every value comes from a pair with its key.
  lemma {:induction false} PairOf<K(!new), V>(pairs: seq<(K, V)>, k: K) returns (i: nat)
    requires k in FromPairs(pairs).at
    ensures i < |pairs| && pairs[i] == (k, FromPairs(pairs).at[k])
  {
    var last := |pairs| - 1;
    if pairs[last].0 == k {
      i := last;
    } else {
      i := PairOf(pairs[..last], k);
    }
  }

  // The keys in the order they first occur.
  function Dedupe<K(==)>(keys: seq<K>): seq<K> {
    if keys == [] then []
    else
      var last := |keys| - 1;
      var r := Dedupe(keys[..last]);
      if keys[last] in r then r else r + [keys[last]]
  }

  lemma {:induction false} DedupeHasTheSameKeys<K(!new)>(keys: seq<K>)
    ensures Unrepeated(Dedupe(keys)) && forall k :: k in Dedupe(keys) <==> k in keys
  {
    if keys != [] {
      var last := |keys| - 1;
      DedupeHasTheSameKeys(keys[..last]);
      assert keys == keys[..last] + [keys[last]];
    }
  }

  lemma {:induction false} DedupeOfUnrepeated<K(!new)>(keys: seq<K>)
    requires Unrepeated(keys)
    ensures Dedupe(keys) == keys
  {
    if keys != [] {
      var last := |keys| - 1;
      DedupeOfUnrepeated(keys[..last]);
      assert keys == keys[..last] + [keys[last]];
    }
  }

  // A longer list keeps the first occurrences of its front.
  lemma {:induction false} DedupeOfFront<K(!new)>(front: seq<K>, more: seq<K>)
    ensures |Dedupe(front)| <= |Dedupe(front + more)| && Dedupe(front + more)[..|Dedupe(front)|] == Dedupe(front)
  {
    if more == [] {
      assert front + more == front;
    } else {
      var last := |more| - 1;
      DedupeOfFront(front, more[..last]);
      assert (front + more)[..|front| + last] == front + more[..last];
    }
  }

  // A dict built over a list has the list's keys, each once, in the order they first occur.
  lemma {:induction false} FromPairsKeys<K(!new), V>(pairs: seq<(K, V)>, keys: seq<K>)
    requires |pairs| == |keys| && forall i :: 0 <= i < |keys| ==> pairs[i].0 == keys[i]
    ensures FromPairs(pairs).keys == Dedupe(keys)
  {
    if pairs != [] {
      FromPairsKeys(pairs[..|pairs| - 1], keys[..|keys| - 1]);
      FromPairsValid(pairs[..|pairs| - 1]);
    }
  }

  // Pairs whose keys do not repeat keep their order and their values.
  lemma DistinctPairsKeepOrder<K(!new), V>(pairs: seq<(K, V)>, keys: seq<K>)
    requires |pairs| == |keys| && forall i :: 0 <= i < |keys| ==> pairs[i].0 == keys[i]
    requires Unrepeated(keys)
    ensures FromPairs(pairs).keys == keys
    ensures forall i :: 0 <= i < |keys| ==> keys[i] in FromPairs(pairs).at && FromPairs(pairs).at[keys[i]] == pairs[i].1
  {
    FromPairsKeys(pairs, keys);
    DedupeOfUnrepeated(keys);
    forall i | 0 <= i < |keys| ensures pairs[i].0 in FromPairs(pairs).at && FromPairs(pairs).at[pairs[i].0] == pairs[i].1 {
      LastPairWins(pairs, i);
    }
  }

  function Filter<K>(keys: seq<K>, p: K -> bool): seq<K> {
    if keys == [] then []
    else
      var last := |keys| - 1;
      Filter(keys[..last], p) + if p(keys[last]) then [keys[last]] else []
  }

  lemma {:induction false} FilterKeeps<K(!new)>(keys: seq<K>, p: K -> bool)
    ensures forall k :: k in Filter(keys, p) <==> k in keys && p(k)
    ensures Unrepeated(keys) ==> Unrepeated(Filter(keys, p))
  {
    if keys != [] {
      var last := |keys| - 1;
      FilterKeeps(keys[..last], p);
      assert keys == keys[..last] + [keys[last]];
      assert Unrepeated(keys) ==> keys[last] !in keys[..last];
    }
  }

  lemma {:induction false} FilterAgrees<K(!new)>(keys: seq<K>, p: K -> bool, q: K -> bool)
    requires forall k :: k in keys ==> p(k) == q(k)
    ensures Filter(keys, p) == Filter(keys, q)
  {
    if keys != [] {
      FilterAgrees(keys[..|keys| - 1], p, q);
    }
  }

  lemma {:induction false} FilterKeepsNothing<K(!new)>(keys: seq<K>, p: K -> bool)
    requires forall k :: k in keys ==> !p(k)
    ensures Filter(keys, p) == []
  {
    if keys != [] {
      FilterKeepsNothing(keys[..|keys| - 1], p);
    }
  }

  lemma {:induction false} FilterConcat<K(!new)>(front: seq<K>, more: seq<K>, p: K -> bool)
    ensures Filter(front + more, p) == Filter(front, p) + Filter(more, p)
  {
    if more == [] {
      assert front + more == front;
    } else {
      var last := |more| - 1;
      FilterConcat(front, more[..last], p);
      assert (front + more)[..|front| + last] == front + more[..last];
    }
  }

  // Where a key first stands.
  function Place<K(==)>(keys: seq<K>, key: K): nat {
    if keys == [] || keys[0] == key then 0 else Place(keys[1..], key) + 1
  }

  lemma {:induction false} PlaceIsIn<K>(keys: seq<K>, key: K)
    requires key in keys
    ensures Place(keys, key) < |keys|
  {
    if keys[0] != key {
      PlaceIsIn(keys[1..], key);
    }
  }

  lemma {:induction false} PlaceAt<K(!new)>(keys: seq<K>, i: nat)
    requires Unrepeated(keys) && i < |keys|
    ensures Place(keys, keys[i]) == i
  {
    if i > 0 {
      assert keys[0] != keys[i];
      PlaceAt(keys[1..], i - 1);
    }
  }
}
