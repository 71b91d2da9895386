/** Merging a list of updates into a list of keyed entries by removing from the old list in place. */
module ListMerge {
  import opened Options

  ghost predicate DistinctKeys<T, K>(s: seq<T>, key: T -> K) {
    forall i, j :: 0 <= i < j < |s| ==> key(s[i]) != key(s[j])
  }

  // The entries whose key is not among the gone ones, in order.
  function Without<T, K(==)>(s: seq<T>, key: T -> K, gone: set<K>): seq<T> {
    if s == [] then []
    else (if key(s[0]) in gone then [] else [s[0]]) + Without(s[1..], key, gone)
  }

  function Keeping<T>(s: seq<T>, p: T -> bool): seq<T> {
    if s == [] then []
    else Keeping(s[..|s| - 1], p) + if p(s[|s| - 1]) then [s[|s| - 1]] else []
  }

  function Keys<T, K>(s: seq<T>, key: T -> K): set<K> {
    set i | 0 <= i < |s| :: key(s[i])
  }

  function Cut<T>(s: seq<T>, i: nat): seq<T>
    requires i < |s|
  {
    s[..i] + s[i + 1..]
  }

  lemma {:induction false} WithoutNothing<T, K>(s: seq<T>, key: T -> K)
    ensures Without(s, key, {}) == s
  {
    if s != [] {
      WithoutNothing(s[1..], key);
    }
  }

  lemma {:induction false} WithoutMembers<T, K>(s: seq<T>, key: T -> K, gone: set<K>)
    ensures |Without(s, key, gone)| <= |s|
    ensures forall i :: 0 <= i < |Without(s, key, gone)| ==>
              key(Without(s, key, gone)[i]) !in gone && exists j :: 0 <= j < |s| && s[j] == Without(s, key, gone)[i]
    ensures forall j :: 0 <= j < |s| && key(s[j]) !in gone ==> s[j] in Without(s, key, gone)
  {
    if s != [] {
      var rest := Without(s[1..], key, gone);
      WithoutMembers(s[1..], key, gone);
      var all := Without(s, key, gone);
      forall i | 0 <= i < |all| ensures key(all[i]) !in gone && exists j :: 0 <= j < |s| && s[j] == all[i] {
        if key(s[0]) in gone || i > 0 {
          var i' := if key(s[0]) in gone then i else i - 1;
          assert rest[i'] == all[i];
          var j :| 0 <= j < |s[1..]| && s[1..][j] == rest[i'];
          assert s[j + 1] == all[i];
        } else {
          assert s[0] == all[i];
        }
      }
      forall j | 0 <= j < |s| && key(s[j]) !in gone ensures s[j] in all {
        if j > 0 {
          assert s[1..][j - 1] in rest;
        }
      }
    }
  }

  lemma {:induction false} WithoutDistinct<T, K>(s: seq<T>, key: T -> K, gone: set<K>)
    requires DistinctKeys(s, key)
    ensures DistinctKeys(Without(s, key, gone), key)
  {
    if s != [] {
      WithoutDistinct(s[1..], key, gone);
      WithoutMembers(s[1..], key, gone);
    }
  }

  // When no entry left has the key, taking the key away changes nothing.
  lemma {:induction false} WithoutAbsentKey<T, K>(s: seq<T>, key: T -> K, gone: set<K>, k: K)
    requires forall i :: 0 <= i < |Without(s, key, gone)| ==> key(Without(s, key, gone)[i]) != k
    ensures Without(s, key, gone + {k}) == Without(s, key, gone)
  {
    if s != [] {
      var all, rest := Without(s, key, gone), Without(s[1..], key, gone);
      forall i | 0 <= i < |rest| ensures key(rest[i]) != k {
        assert rest[i] == all[if key(s[0]) in gone then i else i + 1];
      }
      WithoutAbsentKey(s[1..], key, gone, k);
      assert key(s[0]) !in gone ==> all[0] == s[0];
    }
  }

  // Among distinct keys, cutting the one entry with a key is taking that key away.
  lemma {:induction false} CutTakesKeyAway<T, K>(s: seq<T>, key: T -> K, gone: set<K>, i: nat)
    requires DistinctKeys(s, key) && i < |Without(s, key, gone)|
    ensures Cut(Without(s, key, gone), i) == Without(s, key, gone + {key(Without(s, key, gone)[i])})
  {
    if key(s[0]) in gone {
      CutTakesKeyAway(s[1..], key, gone, i);
      GoneFirst(s, key, gone, key(Without(s, key, gone)[i]));
    } else if i == 0 {
      CutTheFirst(s, key, gone);
    } else {
      FirstOfDistinct(s, key, gone);
      CutTakesKeyAway(s[1..], key, gone, i - 1);
      CutPastTheFirst(s, key, gone, i);
    }
  }

  lemma GoneFirst<T, K>(s: seq<T>, key: T -> K, gone: set<K>, k: K)
    requires s != [] && key(s[0]) in gone
    ensures Without(s, key, gone) == Without(s[1..], key, gone) && Without(s, key, gone + {k}) == Without(s[1..], key, gone + {k})
  {
  }

  lemma CutTheFirst<T, K>(s: seq<T>, key: T -> K, gone: set<K>)
    requires DistinctKeys(s, key) && s != [] && key(s[0]) !in gone
    ensures Without(s, key, gone) != [] && Without(s, key, gone)[0] == s[0]
    ensures Cut(Without(s, key, gone), 0) == Without(s, key, gone + {key(s[0])})
  {
    FirstOfDistinct(s, key, gone);
    WithoutAbsentKey(s[1..], key, gone, key(s[0]));
    assert Without(s, key, gone) == [s[0]] + Without(s[1..], key, gone);
  }

  lemma CutPastTheFirst<T, K>(s: seq<T>, key: T -> K, gone: set<K>, i: nat)
    requires s != [] && key(s[0]) !in gone && 0 < i < |Without(s, key, gone)|
    requires var rest := Without(s[1..], key, gone);
             key(s[0]) != key(rest[i - 1]) && Cut(rest, i - 1) == Without(s[1..], key, gone + {key(rest[i - 1])})
    ensures Cut(Without(s, key, gone), i) == Without(s, key, gone + {key(Without(s, key, gone)[i])})
  {
    var rest := Without(s[1..], key, gone);
    var k := key(rest[i - 1]);
    CutOfCons(s[0], rest, i);
    assert Without(s, key, gone) == [s[0]] + rest;
    assert Without(s, key, gone + {k}) == [s[0]] + Without(s[1..], key, gone + {k});
  }

  lemma FirstOfDistinct<T, K>(s: seq<T>, key: T -> K, gone: set<K>)
    requires DistinctKeys(s, key) && s != []
    ensures DistinctKeys(s[1..], key)
    ensures forall i :: 0 <= i < |Without(s[1..], key, gone)| ==> key(Without(s[1..], key, gone)[i]) != key(s[0])
  {
    WithoutMembers(s[1..], key, gone);
  }

  lemma CutOfCons<T>(x: T, s: seq<T>, i: nat)
    requires 0 < i <= |s|
    ensures Cut([x] + s, i) == [x] + Cut(s, i - 1)
  {
  }

  // Cutting an entry whose key is gone anyway leaves the entries with other keys as they were.
  lemma {:induction false} CutKeepsTheOthers<T, K>(s: seq<T>, key: T -> K, gone: set<K>, i: nat)
    requires i < |s| && key(s[i]) in gone
    ensures Without(Cut(s, i), key, gone) == Without(s, key, gone)
  {
    if i > 0 {
      CutKeepsTheOthers(s[1..], key, gone, i - 1);
      assert Cut(s, i)[1..] == Cut(s[1..], i - 1);
    } else {
      assert Cut(s, 0) == s[1..];
    }
  }

  lemma {:induction false} KeepingMembers<T>(s: seq<T>, p: T -> bool)
    ensures forall i :: 0 <= i < |Keeping(s, p)| ==> p(Keeping(s, p)[i]) && exists j :: 0 <= j < |s| && s[j] == Keeping(s, p)[i]
    ensures forall j :: 0 <= j < |s| && p(s[j]) ==> s[j] in Keeping(s, p)
  {
    if s != [] {
      var last := |s| - 1;
      KeepingMembers(s[..last], p);
      var some := Keeping(s[..last], p);
      forall i | 0 <= i < |Keeping(s, p)|
        ensures p(Keeping(s, p)[i]) && exists j :: 0 <= j < |s| && s[j] == Keeping(s, p)[i]
      {
        if i < |some| {
          var j :| 0 <= j < |s[..last]| && s[..last][j] == some[i];
          assert s[j] == Keeping(s, p)[i];
        } else {
          assert s[last] == Keeping(s, p)[i];
        }
      }
      forall j | 0 <= j < |s| && p(s[j]) ensures s[j] in Keeping(s, p) {
        assert j < last ==> s[..last][j] in some;
      }
    }
  }

  lemma {:induction false} KeepingDistinct<T, K>(s: seq<T>, key: T -> K, p: T -> bool)
    requires DistinctKeys(s, key)
    ensures DistinctKeys(Keeping(s, p), key)
  {
    if s != [] {
      KeepingDistinct(s[..|s| - 1], key, p);
      KeepingMembers(s[..|s| - 1], p);
    }
  }

  // The last entry with the key: what a dictionary built from the list maps the key to.
  function LastWith<T, K(==)>(s: seq<T>, key: T -> K, k: K): Option<T> {
    if s == [] then None
    else if key(s[|s| - 1]) == k then Some(s[|s| - 1])
    else LastWith(s[..|s| - 1], key, k)
  }

  lemma {:induction false} LastWithIsTheEntry<T, K>(s: seq<T>, key: T -> K, k: K)
    ensures LastWith(s, key, k).Some? ==> Has(s, LastWith(s, key, k).value) && key(LastWith(s, key, k).value) == k
    ensures DistinctKeys(s, key) ==>
              forall i :: 0 <= i < |s| && key(s[i]) == k ==> LastWith(s, key, k) == Some(s[i])
  {
    if s != [] {
      LastWithIsTheEntry(s[..|s| - 1], key, k);
    }
  }

  lemma KeysSnoc<T, K>(s: seq<T>, key: T -> K, x: T)
    ensures Keys(s + [x], key) == Keys(s, key) + {key(x)}
  {
    var t := s + [x];
    forall k | k in Keys(s, key) + {key(x)} ensures k in Keys(t, key) {
      if k == key(x) {
        assert key(t[|s|]) == k;
      } else {
        var i :| 0 <= i < |s| && key(s[i]) == k;
        assert key(t[i]) == k;
      }
    }
  }

  // The merged list: what is left of the old entries, then the updates that are not deletions.
  function Merged<T, K(==)>(prev: seq<T>, next: seq<T>, key: T -> K, live: T -> bool): seq<T> {
    Without(prev, key, Keys(next, key)) + Keeping(next, live)
  }

  // Merging lists of distinct keys keeps the keys distinct.
  lemma MergedDistinct<T, K>(prev: seq<T>, next: seq<T>, key: T -> K, live: T -> bool)
    requires DistinctKeys(prev, key) && DistinctKeys(next, key)
    ensures DistinctKeys(Merged(prev, next, key, live), key)
  {
    var kept, added := Without(prev, key, Keys(next, key)), Keeping(next, live);
    WithoutDistinct(prev, key, Keys(next, key));
    WithoutMembers(prev, key, Keys(next, key));
    KeepingDistinct(next, key, live);
    KeepingMembers(next, live);
    forall i, j | 0 <= i < |kept| && 0 <= j < |added| ensures key(kept[i]) != key(added[j]) {
      assert exists n :: 0 <= n < |next| && next[n] == added[j];
    }
  }

  // Entry x is the one the list has for its key.
  ghost predicate Has<T>(s: seq<T>, x: T) {
    exists i :: 0 <= i < |s| && s[i] == x
  }

  // It is a map update: for each key, an entry of the result is the live update for it,
  // or the old entry where no update mentions it.
  lemma MergedIsAMapUpdate<T, K>(prev: seq<T>, next: seq<T>, key: T -> K, live: T -> bool, x: T)
    requires DistinctKeys(prev, key) && DistinctKeys(next, key)
    ensures Has(Merged(prev, next, key, live), x) <==>
            if key(x) in Keys(next, key) then Has(next, x) && live(x) else Has(prev, x)
  {
    var gone := Keys(next, key);
    var kept, added := Without(prev, key, gone), Keeping(next, live);
    WithoutMembers(prev, key, gone);
    KeepingMembers(next, live);
    assert Has(Merged(prev, next, key, live), x) <==> Has(kept, x) || Has(added, x) by {
      var all := Merged(prev, next, key, live);
      if Has(kept, x) {
        var i :| 0 <= i < |kept| && kept[i] == x;
        assert all[i] == x;
      }
      if Has(added, x) {
        var i :| 0 <= i < |added| && added[i] == x;
        assert all[|kept| + i] == x;
      }
    }
  }
}
