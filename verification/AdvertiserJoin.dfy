/** Joining the requested advertisers with the user's Koddi advertisers through dictionaries of lists. */
module AdvertiserJoin {
  import opened Options

  datatype CachedAdvertiser = CachedAdvertiser(brandId: string)

  datatype KoddiAdvertiser = KoddiAdvertiser(koddiId: int, brandIds: seq<string>, agencyId: Option<string>)

  datatype IdGroup = IdGroup(koddiId: int, longId: string, shortId: Option<int>)

  function Get<K, V>(m: map<K, seq<V>>, k: K): seq<V> {
    if k in m then m[k] else []
  }

  function Find<K, V>(m: map<K, V>, k: K): Option<V> {
    if k in m then Some(m[k]) else None
  }

  // An agency id that is missing or empty filters nothing.
  predicate PassesAgency(c: KoddiAdvertiser, agencyId: Option<string>) {
    agencyId.None? || agencyId.value == "" || c.agencyId == agencyId
  }

  // ---- Short ids by brand ----

  function ZipLength(shortIds: seq<int>, advertisers: seq<CachedAdvertiser>): nat {
    if |shortIds| < |advertisers| then |shortIds| else |advertisers|
  }

  // Of the first n requested advertisers of one brand the last short id wins.
  function LastShortId(shortIds: seq<int>, advertisers: seq<CachedAdvertiser>, n: nat, brand: string): Option<int>
    requires n <= ZipLength(shortIds, advertisers)
  {
    if n == 0 then None
    else if advertisers[n - 1].brandId == brand then Some(shortIds[n - 1])
    else LastShortId(shortIds, advertisers, n - 1, brand)
  }

  method GetAdvertisersAndIdMap(shortIds: seq<int>, advertisers: seq<CachedAdvertiser>) returns (byBrand: map<string, int>)
    ensures forall b :: Find(byBrand, b) == LastShortId(shortIds, advertisers, ZipLength(shortIds, advertisers), b)
  {
    byBrand := map[];
    for i := 0 to ZipLength(shortIds, advertisers)
      invariant forall b :: Find(byBrand, b) == LastShortId(shortIds, advertisers, i, b)
    {
      byBrand := byBrand[advertisers[i].brandId := shortIds[i]];
    }
  }

  // It is the short id of an advertiser of the brand after which none of the brand comes.
  lemma {:induction false} LastShortIdIsTheLast(shortIds: seq<int>, advertisers: seq<CachedAdvertiser>, n: nat, brand: string)
    requires n <= ZipLength(shortIds, advertisers)
    ensures LastShortId(shortIds, advertisers, n, brand).None? <==> forall i :: 0 <= i < n ==> advertisers[i].brandId != brand
    ensures forall i :: 0 <= i < n && advertisers[i].brandId == brand && (forall j :: i < j < n ==> advertisers[j].brandId != brand) ==>
              LastShortId(shortIds, advertisers, n, brand) == Some(shortIds[i])
  {
    if n > 0 {
      LastShortIdIsTheLast(shortIds, advertisers, n - 1, brand);
    }
  }

  // ---- Koddi ids by brand ----

  // The Koddi id, once for each time the brand occurs among the first n.
  function Repeats(c: KoddiAdvertiser, n: nat, brand: string): seq<int>
    requires n <= |c.brandIds|
  {
    if n == 0 then [] else Repeats(c, n - 1, brand) + if c.brandIds[n - 1] == brand then [c.koddiId] else []
  }

  function KoddiIds(cs: seq<KoddiAdvertiser>, n: nat, agencyId: Option<string>, brand: string): seq<int>
    requires n <= |cs|
  {
    if n == 0 then []
    else KoddiIds(cs, n - 1, agencyId, brand)
         + if PassesAgency(cs[n - 1], agencyId) then Repeats(cs[n - 1], |cs[n - 1].brandIds|, brand) else []
  }

  method BuildUserKoddiIdDict(koddiAdvertisers: seq<KoddiAdvertiser>, agencyId: Option<string>) returns (byBrand: map<string, seq<int>>)
    ensures forall b :: Get(byBrand, b) == KoddiIds(koddiAdvertisers, |koddiAdvertisers|, agencyId, b)
  {
    byBrand := map[];
    for j := 0 to |koddiAdvertisers|
      invariant Listed(byBrand, koddiAdvertisers, j, agencyId)
    {
      var c := koddiAdvertisers[j];
      ghost var before := byBrand;
      if agencyId.Some? && agencyId.value != "" && c.agencyId != agencyId {
        ListedStep(before, byBrand, koddiAdvertisers, j, agencyId);
        continue;
      }
      byBrand := AddBrands(byBrand, c);
      ListedStep(before, byBrand, koddiAdvertisers, j, agencyId);
    }
  }

  ghost predicate Listed(byBrand: map<string, seq<int>>, cs: seq<KoddiAdvertiser>, n: nat, agencyId: Option<string>)
    requires n <= |cs|
  {
    forall b :: Get(byBrand, b) == KoddiIds(cs, n, agencyId, b)
  }

  lemma ListedStep(before: map<string, seq<int>>, after: map<string, seq<int>>, cs: seq<KoddiAdvertiser>, n: nat, agencyId: Option<string>)
    requires n < |cs| && Listed(before, cs, n, agencyId)
    requires if PassesAgency(cs[n], agencyId) then BrandsAdded(before, after, cs[n], |cs[n].brandIds|) else after == before
    ensures Listed(after, cs, n + 1, agencyId)
  {
    forall b ensures Get(after, b) == KoddiIds(cs, n + 1, agencyId, b) {
      assert Get(before, b) == KoddiIds(cs, n, agencyId, b);
    }
  }

  method AddBrands(before: map<string, seq<int>>, c: KoddiAdvertiser) returns (after: map<string, seq<int>>)
    ensures BrandsAdded(before, after, c, |c.brandIds|)
  {
    after := before;
    for l := 0 to |c.brandIds|
      invariant BrandsAdded(before, after, c, l)
    {
      var brand := c.brandIds[l];
      var ids := Get(after, brand);
      ids := ids + [c.koddiId];
      AddBrandStep(before, after, c, l);
      after := after[brand := ids];
    }
  }

  ghost predicate BrandsAdded(before: map<string, seq<int>>, after: map<string, seq<int>>, c: KoddiAdvertiser, l: nat)
    requires l <= |c.brandIds|
  {
    forall b :: Get(after, b) == Get(before, b) + Repeats(c, l, b)
  }

  lemma AddBrandStep(before: map<string, seq<int>>, after: map<string, seq<int>>, c: KoddiAdvertiser, l: nat)
    requires l < |c.brandIds| && BrandsAdded(before, after, c, l)
    ensures BrandsAdded(before, after[c.brandIds[l] := Get(after, c.brandIds[l]) + [c.koddiId]], c, l + 1)
  {
    var brand := c.brandIds[l];
    var now := after[brand := Get(after, brand) + [c.koddiId]];
    forall b ensures Get(now, b) == Get(before, b) + Repeats(c, l + 1, b) {
      assert Repeats(c, l + 1, b) == Repeats(c, l, b) + if brand == b then [c.koddiId] else [];
      assert Get(now, b) == if brand == b then Get(after, b) + [c.koddiId] else Get(after, b);
    }
  }

  // ---- The join ----

  // group once for each time k occurs among the first n ids.
  function Groups(ids: seq<int>, n: nat, k: int, group: IdGroup): seq<IdGroup>
    requires n <= |ids|
  {
    if n == 0 then [] else Groups(ids, n - 1, k, group) + if ids[n - 1] == k then [group] else []
  }

  function Join(advertisers: seq<CachedAdvertiser>, n: nat, idsByBrand: string -> seq<int>, shorts: map<string, int>, k: int): seq<IdGroup>
    requires n <= |advertisers|
  {
    if n == 0 then []
    else
      var brand := advertisers[n - 1].brandId;
      var ids := idsByBrand(brand);
      Join(advertisers, n - 1, idsByBrand, shorts, k) + Groups(ids, |ids|, k, IdGroup(k, brand, Find(shorts, brand)))
  }

  // The ids by brand that the join goes through.
  function IdsByBrand(koddiAdvertisers: seq<KoddiAdvertiser>, agencyId: Option<string>): string -> seq<int> {
    brand => KoddiIds(koddiAdvertisers, |koddiAdvertisers|, agencyId, brand)
  }

  // advertisers are what the lookup of the requested short ids found, in order.
  method BuildKoddiIdDict(shortIds: seq<int>, advertisers: seq<CachedAdvertiser>, koddiAdvertisers: seq<KoddiAdvertiser>, agencyId: Option<string>)
    returns (byKoddiId: map<int, seq<IdGroup>>, ghost shorts: map<string, int>)
    ensures forall b :: Find(shorts, b) == LastShortId(shortIds, advertisers, ZipLength(shortIds, advertisers), b)
    ensures forall k :: Get(byKoddiId, k) == Join(advertisers, |advertisers|, IdsByBrand(koddiAdvertisers, agencyId), shorts, k)
    ensures forall k :: k in byKoddiId ==> byKoddiId[k] != []
  {
    var shortByBrand := GetAdvertisersAndIdMap(shortIds, advertisers);
    shorts := shortByBrand;
    var byBrand := BuildUserKoddiIdDict(koddiAdvertisers, agencyId);
    ghost var idsOf := IdsByBrand(koddiAdvertisers, agencyId);
    byKoddiId := map[];
    for i := 0 to |advertisers|
      invariant Joined(byKoddiId, advertisers, i, idsOf, shorts)
    {
      var brand := advertisers[i].brandId;
      var ids := Get(byBrand, brand);
      assert ids == idsOf(brand);
      ghost var before := byKoddiId;
      byKoddiId := AppendGroups(byKoddiId, ids, brand, Find(shortByBrand, brand));
      JoinStep(before, byKoddiId, advertisers, i, idsOf, shorts);
    }
  }

  ghost predicate Joined(byKoddiId: map<int, seq<IdGroup>>, advertisers: seq<CachedAdvertiser>, n: nat, idsOf: string -> seq<int>, shorts: map<string, int>)
    requires n <= |advertisers|
  {
    && (forall k :: Get(byKoddiId, k) == Join(advertisers, n, idsOf, shorts, k))
    && (forall k :: k in byKoddiId ==> byKoddiId[k] != [])
  }

  lemma JoinStep(before: map<int, seq<IdGroup>>, after: map<int, seq<IdGroup>>, advertisers: seq<CachedAdvertiser>, n: nat,
                 idsOf: string -> seq<int>, shorts: map<string, int>)
    requires n < |advertisers| && Joined(before, advertisers, n, idsOf, shorts)
    requires var brand := advertisers[n].brandId;
             forall k :: Get(after, k) == Get(before, k) + Groups(idsOf(brand), |idsOf(brand)|, k, IdGroup(k, brand, Find(shorts, brand)))
    requires forall k :: k in after ==> after[k] != []
    ensures Joined(after, advertisers, n + 1, idsOf, shorts)
  {
  }

  method AppendGroups(before: map<int, seq<IdGroup>>, ids: seq<int>, brand: string, shortId: Option<int>) returns (after: map<int, seq<IdGroup>>)
    requires forall k :: k in before ==> before[k] != []
    ensures forall k :: Get(after, k) == Get(before, k) + Groups(ids, |ids|, k, IdGroup(k, brand, shortId))
    ensures forall k :: k in after ==> after[k] != []
  {
    after := before;
    for n := 0 to |ids|
      invariant Appended(before, after, ids, n, brand, shortId)
    {
      var mapped := Get(after, ids[n]);
      mapped := mapped + [IdGroup(ids[n], brand, shortId)];
      AppendStep(before, after, ids, n, brand, shortId);
      after := after[ids[n] := mapped];
    }
  }

  ghost predicate Appended(before: map<int, seq<IdGroup>>, after: map<int, seq<IdGroup>>, ids: seq<int>, n: nat, brand: string, shortId: Option<int>)
    requires n <= |ids|
  {
    && (forall k :: Get(after, k) == Get(before, k) + Groups(ids, n, k, IdGroup(k, brand, shortId)))
    && (forall k :: k in after ==> after[k] != [])
  }

  lemma AppendStep(before: map<int, seq<IdGroup>>, after: map<int, seq<IdGroup>>, ids: seq<int>, n: nat, brand: string, shortId: Option<int>)
    requires n < |ids| && Appended(before, after, ids, n, brand, shortId)
    ensures Appended(before, after[ids[n] := Get(after, ids[n]) + [IdGroup(ids[n], brand, shortId)]], ids, n + 1, brand, shortId)
  {
    var now := after[ids[n] := Get(after, ids[n]) + [IdGroup(ids[n], brand, shortId)]];
    forall k ensures Get(now, k) == Get(before, k) + Groups(ids, n + 1, k, IdGroup(k, brand, shortId)) {
      GroupsStep(Get(before, k), ids, n, k, IdGroup(k, brand, shortId));
    }
  }

  lemma GroupsStep(front: seq<IdGroup>, ids: seq<int>, n: nat, k: int, group: IdGroup)
    requires n < |ids|
    ensures front + Groups(ids, n + 1, k, group)
            == if k == ids[n] then front + Groups(ids, n, k, group) + [group] else front + Groups(ids, n, k, group)
  {
  }

  // ---- The naive definition: matching triples of indices ----

  // Requested advertiser i, Koddi advertiser j, and the l-th of the brands of j.
  datatype Triple = Triple(i: nat, j: nat, l: nat)

  predicate Before(t: Triple, u: Triple) {
    t.i < u.i || (t.i == u.i && (t.j < u.j || (t.j == u.j && t.l < u.l)))
  }

  predicate Matches(t: Triple, advertisers: seq<CachedAdvertiser>, koddiAdvertisers: seq<KoddiAdvertiser>, agencyId: Option<string>, k: int) {
    && t.i < |advertisers| && MatchesBrand(t, advertisers[t.i].brandId, koddiAdvertisers, agencyId)
    && koddiAdvertisers[t.j].koddiId == k
  }

  predicate MatchesBrand(t: Triple, brand: string, koddiAdvertisers: seq<KoddiAdvertiser>, agencyId: Option<string>) {
    && t.j < |koddiAdvertisers| && PassesAgency(koddiAdvertisers[t.j], agencyId)
    && t.l < |koddiAdvertisers[t.j].brandIds| && koddiAdvertisers[t.j].brandIds[t.l] == brand
  }

  ghost predicate Increasing(ts: seq<Triple>) {
    forall m, n :: 0 <= m < n < |ts| ==> Before(ts[m], ts[n])
  }

  lemma IncreasingConcat(ts: seq<Triple>, us: seq<Triple>)
    requires Increasing(ts) && Increasing(us) && forall t, u :: t in ts && u in us ==> Before(t, u)
    ensures Increasing(ts + us)
  {
  }

  lemma {:induction false} RepeatsAtPlaces(i: nat, j: nat, c: KoddiAdvertiser, n: nat, brand: string) returns (ts: seq<Triple>)
    requires n <= |c.brandIds|
    ensures Increasing(ts) && |ts| == |Repeats(c, n, brand)|
    ensures forall m :: 0 <= m < |ts| ==> Repeats(c, n, brand)[m] == c.koddiId
    ensures forall t :: t in ts <==> t.i == i && t.j == j && t.l < n && c.brandIds[t.l] == brand
  {
    if n == 0 {
      ts := [];
    } else {
      ts := RepeatsAtPlaces(i, j, c, n - 1, brand);
      if c.brandIds[n - 1] == brand {
        IncreasingConcat(ts, [Triple(i, j, n - 1)]);
        ts := ts + [Triple(i, j, n - 1)];
      }
    }
  }

  // The places of the Koddi ids of the brand among the first n Koddi advertisers.
  ghost predicate Places(ts: seq<Triple>, i: nat, cs: seq<KoddiAdvertiser>, n: nat, agencyId: Option<string>, brand: string) {
    && Increasing(ts)
    && (forall t :: t in ts <==> t.i == i && t.j < n && MatchesBrand(t, brand, cs, agencyId))
  }

  ghost predicate IdsAt(ids: seq<int>, ts: seq<Triple>, cs: seq<KoddiAdvertiser>) {
    |ts| == |ids| && forall m :: 0 <= m < |ts| ==> ts[m].j < |cs| && ids[m] == cs[ts[m].j].koddiId
  }

  lemma {:induction false} KoddiIdsAtPlaces(i: nat, cs: seq<KoddiAdvertiser>, n: nat, agencyId: Option<string>, brand: string)
    returns (ts: seq<Triple>)
    requires n <= |cs|
    ensures Places(ts, i, cs, n, agencyId, brand) && IdsAt(KoddiIds(cs, n, agencyId, brand), ts, cs)
  {
    if n == 0 {
      ts := [];
    } else {
      var some := KoddiIdsAtPlaces(i, cs, n - 1, agencyId, brand);
      if PassesAgency(cs[n - 1], agencyId) {
        var more := RepeatsAtPlaces(i, n - 1, cs[n - 1], |cs[n - 1].brandIds|, brand);
        ts := some + more;
        PlacesNext(some, more, i, cs, n, agencyId, brand);
        forall m | 0 <= m < |more| ensures more[m].j == n - 1 {
          assert more[m] in more;
        }
        IdsAtConcat(KoddiIds(cs, n - 1, agencyId, brand), some, Repeats(cs[n - 1], |cs[n - 1].brandIds|, brand), more, cs);
      } else {
        ts := some;
      }
    }
  }

  lemma PlacesNext(some: seq<Triple>, more: seq<Triple>, i: nat, cs: seq<KoddiAdvertiser>, n: nat, agencyId: Option<string>, brand: string)
    requires 0 < n <= |cs| && Places(some, i, cs, n - 1, agencyId, brand) && PassesAgency(cs[n - 1], agencyId) && Increasing(more)
    requires forall t :: t in more <==> t.i == i && t.j == n - 1 && t.l < |cs[n - 1].brandIds| && cs[n - 1].brandIds[t.l] == brand
    ensures Places(some + more, i, cs, n, agencyId, brand)
  {
    IncreasingConcat(some, more);
  }

  lemma IdsAtConcat(ids: seq<int>, ts: seq<Triple>, ids': seq<int>, ts': seq<Triple>, cs: seq<KoddiAdvertiser>)
    requires IdsAt(ids, ts, cs) && IdsAt(ids', ts', cs)
    ensures IdsAt(ids + ids', ts + ts', cs)
  {
  }

  // Of the places of the ids, those of id k.
  lemma {:induction false} GroupsAtPlaces(ids: seq<int>, ts: seq<Triple>, n: nat, k: int, group: IdGroup) returns (us: seq<Triple>)
    requires n <= |ids| == |ts| && Increasing(ts)
    ensures Increasing(us) && |us| == |Groups(ids, n, k, group)|
    ensures forall m :: 0 <= m < |us| ==> Groups(ids, n, k, group)[m] == group
    ensures forall u :: u in us <==> exists m :: 0 <= m < n && ts[m] == u && ids[m] == k
  {
    if n == 0 {
      us := [];
    } else {
      us := GroupsAtPlaces(ids, ts, n - 1, k, group);
      if ids[n - 1] == k {
        IncreasingConcat(us, [ts[n - 1]]);
        us := us + [ts[n - 1]];
      }
    }
  }

  lemma BrandTriples(i: nat, cs: seq<KoddiAdvertiser>, agencyId: Option<string>, brand: string, k: int, group: IdGroup)
    returns (us: seq<Triple>)
    ensures var ids := IdsByBrand(cs, agencyId)(brand);
            Increasing(us) && |us| == |Groups(ids, |ids|, k, group)| && forall m :: 0 <= m < |us| ==> Groups(ids, |ids|, k, group)[m] == group
    ensures forall t :: t in us <==> t.i == i && MatchesBrand(t, brand, cs, agencyId) && cs[t.j].koddiId == k
  {
    var ids := IdsByBrand(cs, agencyId)(brand);
    var ts := KoddiIdsAtPlaces(i, cs, |cs|, agencyId, brand);
    us := GroupsAtPlaces(ids, ts, |ids|, k, group);
    forall t: Triple | t.i == i && MatchesBrand(t, brand, cs, agencyId) && cs[t.j].koddiId == k ensures t in us {
      assert t in ts;
      var m :| 0 <= m < |ts| && ts[m] == t;
    }
    forall t: Triple | t in us ensures t.i == i && MatchesBrand(t, brand, cs, agencyId) && cs[t.j].koddiId == k {
      var m :| 0 <= m < |ids| && ts[m] == t && ids[m] == k;
      assert t in ts;
    }
  }

  ghost predicate GroupsAt(groups: seq<IdGroup>, ts: seq<Triple>, advertisers: seq<CachedAdvertiser>, shorts: map<string, int>, k: int) {
    |ts| == |groups| && forall m :: 0 <= m < |ts| ==> GroupAt(groups[m], ts[m], advertisers, shorts, k)
  }

  ghost predicate GroupAt(group: IdGroup, t: Triple, advertisers: seq<CachedAdvertiser>, shorts: map<string, int>, k: int) {
    t.i < |advertisers| && group == IdGroup(k, advertisers[t.i].brandId, Find(shorts, advertisers[t.i].brandId))
  }

  // The dictionary is the naive join: the groups of Koddi id k are, in order, one for each triple of a requested
  // advertiser, a Koddi advertiser with that id which passes the agency filter, and an occurrence of the brand in it.
  lemma {:induction false} JoinIsTheTriples(advertisers: seq<CachedAdvertiser>, n: nat, cs: seq<KoddiAdvertiser>, agencyId: Option<string>,
                                            shorts: map<string, int>, k: int) returns (ts: seq<Triple>)
    requires n <= |advertisers|
    ensures Increasing(ts)
    ensures forall t :: t in ts <==> t.i < n && Matches(t, advertisers, cs, agencyId, k)
    ensures GroupsAt(Join(advertisers, n, IdsByBrand(cs, agencyId), shorts, k), ts, advertisers, shorts, k)
  {
    if n == 0 {
      ts := [];
    } else {
      var brand := advertisers[n - 1].brandId;
      var some := JoinIsTheTriples(advertisers, n - 1, cs, agencyId, shorts, k);
      var more := BrandTriples(n - 1, cs, agencyId, brand, k, IdGroup(k, brand, Find(shorts, brand)));
      forall m | 0 <= m < |more| ensures more[m].i == n - 1 {
        assert more[m] in more;
      }
      ts := some + more;
      var ids := IdsByBrand(cs, agencyId)(brand);
      GroupsAtConcat(Join(advertisers, n - 1, IdsByBrand(cs, agencyId), shorts, k), some,
                     Groups(ids, |ids|, k, IdGroup(k, brand, Find(shorts, brand))), more, advertisers, shorts, k);
      TriplesNext(some, more, advertisers, n, cs, agencyId, k);
    }
  }

  lemma GroupsAtConcat(groups: seq<IdGroup>, ts: seq<Triple>, groups': seq<IdGroup>, ts': seq<Triple>, advertisers: seq<CachedAdvertiser>,
                       shorts: map<string, int>, k: int)
    requires GroupsAt(groups, ts, advertisers, shorts, k) && GroupsAt(groups', ts', advertisers, shorts, k)
    ensures GroupsAt(groups + groups', ts + ts', advertisers, shorts, k)
  {
  }

  lemma TriplesNext(some: seq<Triple>, more: seq<Triple>, advertisers: seq<CachedAdvertiser>, n: nat, cs: seq<KoddiAdvertiser>,
                    agencyId: Option<string>, k: int)
    requires 0 < n <= |advertisers| && Increasing(some) && Increasing(more)
    requires forall t :: t in some <==> t.i < n - 1 && Matches(t, advertisers, cs, agencyId, k)
    requires forall t :: t in more <==> t.i == n - 1 && MatchesBrand(t, advertisers[n - 1].brandId, cs, agencyId) && cs[t.j].koddiId == k
    ensures Increasing(some + more)
    ensures forall t :: t in some + more <==> t.i < n && Matches(t, advertisers, cs, agencyId, k)
  {
    IncreasingConcat(some, more);
  }

  // A Koddi id is a key exactly when some requested advertiser matches it.
  lemma KeyIffMatched(byKoddiId: map<int, seq<IdGroup>>, advertisers: seq<CachedAdvertiser>, cs: seq<KoddiAdvertiser>,
                      agencyId: Option<string>, shorts: map<string, int>, k: int)
    requires Get(byKoddiId, k) == Join(advertisers, |advertisers|, IdsByBrand(cs, agencyId), shorts, k)
    requires k in byKoddiId ==> byKoddiId[k] != []
    ensures k in byKoddiId <==> exists t :: Matches(t, advertisers, cs, agencyId, k)
  {
    var ts := JoinIsTheTriples(advertisers, |advertisers|, cs, agencyId, shorts, k);
    if k in byKoddiId {
      assert ts[0] in ts;
    }
  }
}
