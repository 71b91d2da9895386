/**
Translating Koddi ids to short ids through a cache that holds Koddi id to long id and long
id to short id, fetching from upstream what the cache does not know.
 */
module ReportTranslation {
  import opened Options
  import opened JsonIds
  import opened PyDict
  import opened EntityCache

  // Long ids are cached under "KODDI:" and the Koddi id, short ids under the long id itself.
  type Links = Store<()>

  // The ids filed under a Koddi id.
  datatype IdGroup = IdGroup(longId: Option<string>, shortId: Option<nat>)

  type GroupDict = Dict<Id, IdGroup>

  function Spelled(id: Id): string {
    match id
    case Number(n) => if n < 0 then "-" + Decimal(-n) else Decimal(n)
    case Word(t) => t
  }

  function KoddiKey(koddiId: Id): string {
    "KODDI:" + Spelled(koddiId)
  }

  function AsText(value: Option<Value<()>>): Option<string> {
    if value.Some? && value.value.Text? then Some(value.value.s) else None
  }

  // An empty id counts as missing, like None.
  predicate HasLong(group: IdGroup) {
    group.longId.Some? && group.longId.value != ""
  }

  predicate HasShort(group: IdGroup) {
    group.shortId.Some? && group.shortId.value != 0
  }

  // ---- The truth upstream ----

  datatype Upstream = Upstream(longOf: map<Id, string>, shortOf: map<string, nat>)

  // Koddi ids are numbers. The long ids share the key space of the cache with the Koddi keys and the text of None:
  // they must be neither.
  ghost predicate WellFormed(up: Upstream) {
    && (forall k :: k in up.longOf ==> k.Number? && up.longOf[k] != "" && up.longOf[k] != NONE)
    && (forall j, k :: k in up.longOf ==> up.longOf[k] != KoddiKey(j))
    && (forall l :: l in up.shortOf ==> up.shortOf[l] != 0)
  }

  function ShortOf(up: Upstream, longId: string): Option<nat> {
    if longId in up.shortOf then Some(up.shortOf[longId]) else None
  }

  function Truth(up: Upstream, k: Id): IdGroup
    requires k in up.longOf
  {
    IdGroup(Some(up.longOf[k]), ShortOf(up, up.longOf[k]))
  }

  predicate Resolved(up: Upstream, k: Id) {
    k in up.longOf && up.longOf[k] in up.shortOf
  }

  // The cache says nothing upstream would not say.
  ghost predicate Agrees(store: Links, up: Upstream) {
    && NONE !in store
    && (forall k: Id :: k.Number? && KoddiKey(k) in store ==> k in up.longOf && store[KoddiKey(k)] == Text(up.longOf[k]))
    && (forall k :: k in up.longOf && up.longOf[k] in store ==>
          up.longOf[k] in up.shortOf && store[up.longOf[k]] == Num(up.shortOf[up.longOf[k]]))
  }

  // A group holds only true ids.
  ghost predicate TrueGroup(group: IdGroup, k: Id, up: Upstream) {
    && (group.longId.Some? ==> k in up.longOf && group.longId == Some(up.longOf[k]))
    && (group.shortId.Some? ==> k in up.longOf && group.shortId == ShortOf(up, up.longOf[k]))
  }

  ghost predicate Known(groups: GroupDict, up: Upstream) {
    forall k :: k in groups.at ==> TrueGroup(groups.at[k], k, up)
  }

  ghost predicate LongsKnown(groups: GroupDict, up: Upstream) {
    forall k :: k in groups.at && k in up.longOf ==> groups.at[k].longId == Some(up.longOf[k])
  }

  // The true groups of some of the asked ids, filed under those ids.
  ghost predicate PartOf(groups: GroupDict, asked: seq<Id>, up: Upstream) {
    && (forall k :: k in groups.keys <==> k in groups.at)
    && (forall k :: k in groups.at ==> k in asked && k in up.longOf && groups.at[k] == Truth(up, k))
  }

  // The groups of exactly those asked ids that upstream knows.
  ghost predicate Exact(groups: GroupDict, asked: seq<Id>, up: Upstream) {
    PartOf(groups, asked, up) && forall k :: k in asked && k in up.longOf ==> k in groups.at
  }

  // A handler for missing ids; None when it raises.
  type Handler = (seq<Id>, GroupDict) -> Option<GroupDict>

  // The handler answers each of the ids it is asked for.
  ghost predicate Answers(h: Handler, asked: seq<Id>, groups: GroupDict, up: Upstream) {
    h(asked, groups).Some? && Exact(h(asked, groups).value, asked, up)
  }

  // ---- The translation ----

  function CurrentGroup(store: Links, k: Id): IdGroup {
    var longId := AsText(Lookup(store, KoddiKey(k)));
    IdGroup(longId, AsId(Lookup(store, if longId.Some? then longId.value else NONE)))
  }

  function CurrentPairs(store: Links, ids: seq<Id>): (pairs: seq<(Id, IdGroup)>)
    ensures |pairs| == |ids|
  {
    seq(|ids|, i requires 0 <= i < |ids| => (ids[i], CurrentGroup(store, ids[i])))
  }

  // {**d, **e}
  function Merge(d: GroupDict, e: GroupDict): GroupDict {
    Dict(d.keys + Filter(e.keys, k => k !in d.at), d.at + e.at)
  }

  function MissingLong(groups: GroupDict): seq<Id> {
    Filter(groups.keys, k => k in groups.at && !HasLong(groups.at[k]))
  }

  function MissingShort(groups: GroupDict): seq<Id> {
    Filter(groups.keys, k => k in groups.at && !HasShort(groups.at[k]))
  }

  // What asking for some ids makes of the groups; None when the handler raises.
  function Fetch(groups: GroupDict, asked: seq<Id>, h: Handler): Option<GroupDict> {
    if asked == [] then Some(groups)
    else if h(asked, groups).None? then None
    else Some(Merge(groups, h(asked, groups).value))
  }

  function FetchLongs(groups: GroupDict, h: Handler): Option<GroupDict> {
    Fetch(groups, MissingLong(groups), h)
  }

  function FetchShorts(groups: GroupDict, h: Handler): Option<GroupDict> {
    Fetch(groups, MissingShort(groups), h)
  }

  // How many handlers are called.
  function Calls(groups: GroupDict, longs: Handler): nat {
    var fetched := FetchLongs(groups, longs);
    (if MissingLong(groups) == [] then 0 else 1) + if fetched.None? || MissingShort(fetched.value) == [] then 0 else 1
  }

  predicate CachesLong(cached: IdGroup, group: IdGroup) {
    cached.longId.None? && HasLong(group)
  }

  predicate CachesShort(cached: IdGroup, group: IdGroup) {
    cached.shortId.None? && HasShort(group) && HasLong(group)
  }

  // The links the ids asked for add to the cache.
  function LongLinks(store: Links, ids: seq<Id>, at: map<Id, IdGroup>): Links {
    if ids == [] then map[]
    else
      var k, links := ids[|ids| - 1], LongLinks(store, ids[..|ids| - 1], at);
      if k in at && CachesLong(CurrentGroup(store, k), at[k]) then links[KoddiKey(k) := Text(at[k].longId.value)] else links
  }

  function ShortLinks(store: Links, ids: seq<Id>, at: map<Id, IdGroup>): Links {
    if ids == [] then map[]
    else
      var k, links := ids[|ids| - 1], ShortLinks(store, ids[..|ids| - 1], at);
      if k in at && CachesShort(CurrentGroup(store, k), at[k]) then links[at[k].longId.value := Num(at[k].shortId.value)] else links
  }

  function Translation(groups: GroupDict): map<Id, nat> {
    map k | k in groups.at && Truthy(k) && HasShort(groups.at[k]) :: groups.at[k].shortId.value
  }

  function Current(store: Links, ids: seq<Id>): GroupDict {
    FromPairs(CurrentPairs(store, ids))
  }

  function Groups(store: Links, ids: seq<Id>, longs: Handler, shorts: Handler): Option<GroupDict> {
    var fetched := FetchLongs(Current(store, ids), longs);
    if fetched.None? then None else FetchShorts(fetched.value, shorts)
  }

  function CacheAfter(store: Links, ids: seq<Id>, at: map<Id, IdGroup>): Links {
    store + LongLinks(store, ids, at) + ShortLinks(store, ids, at)
  }

  // The mapping upstream has for the ids.
  function UpstreamMapping(ids: seq<Id>, up: Upstream): map<Id, nat> {
    map k | k in ids && k != Number(0) && k != Word("") && Resolved(up, k) :: up.shortOf[up.longOf[k]]
  }

  // The cache and upstream are in order, and the ids are different numbers.
  ghost predicate Ready(store: Links, ids: seq<Id>, up: Upstream) {
    Agrees(store, up) && WellFormed(up) && Unrepeated(ids) && forall k :: k in ids ==> k.Number?
  }

  // Each handler this very run calls answers each of the ids it is asked for.
  ghost predicate Answered(store: Links, ids: seq<Id>, longs: Handler, shorts: Handler, up: Upstream) {
    var current := Current(store, ids);
    var fetched := FetchLongs(current, longs);
    && (MissingLong(current) != [] ==> Answers(longs, MissingLong(current), current, up))
    && (fetched.Some? && MissingShort(fetched.value) != [] ==> Answers(shorts, MissingShort(fetched.value), fetched.value, up))
  }

  // ---- It is the upstream mapping ----

  lemma KoddiKeysDiffer()
    ensures forall j: Id, k: Id {:trigger KoddiKey(j), KoddiKey(k)} :: j.Number? && k.Number? && KoddiKey(j) == KoddiKey(k) ==> j == k
    ensures forall k {:trigger KoddiKey(k)} :: KoddiKey(k) != NONE
  {
    forall j: Id, k: Id | j.Number? && k.Number? && KoddiKey(j) == KoddiKey(k) ensures j == k {
      assert KoddiKey(j)[6..] == Spelled(j) && KoddiKey(k)[6..] == Spelled(k);
      SpelledDiffer(j.n, k.n);
    }
    forall k ensures KoddiKey(k) != NONE {
      assert KoddiKey(k)[0] == 'K' && NONE[0] == 'N';
    }
  }

  lemma SpelledDiffer(m: int, n: int)
    ensures Spelled(Number(m)) == Spelled(Number(n)) ==> m == n
  {
    var s, t := Spelled(Number(m)), Spelled(Number(n));
    assert m < 0 ==> s[0] == '-' && s[1..] == Decimal(-m);
    assert n < 0 ==> t[0] == '-' && t[1..] == Decimal(-n);
    DecimalsDiffer();
  }

  lemma CurrentGroupIsTrue(store: Links, k: Id, up: Upstream)
    requires Agrees(store, up) && WellFormed(up) && k.Number?
    ensures TrueGroup(CurrentGroup(store, k), k, up)
  {
  }

  lemma CurrentGroups(store: Links, ids: seq<Id>, up: Upstream)
    requires Ready(store, ids, up)
    ensures var groups := Current(store, ids);
            && groups.keys == ids && (forall k :: k in groups.at <==> k in ids)
            && (forall k :: k in groups.at ==> groups.at[k] == CurrentGroup(store, k))
            && Known(groups, up)
  {
    var pairs := CurrentPairs(store, ids);
    DistinctPairsKeepOrder(pairs, ids);
    FromPairsValid(pairs);
    var groups := Current(store, ids);
    forall k | k in groups.at ensures groups.at[k] == CurrentGroup(store, k) && TrueGroup(groups.at[k], k, up) {
      assert k in groups.keys;
      var i :| 0 <= i < |ids| && ids[i] == k;
      CurrentGroupIsTrue(store, k, up);
    }
  }

  // Merging true groups of some of the ids keeps the ids and the truth.
  lemma MergePart(groups: GroupDict, asked: seq<Id>, answer: GroupDict, up: Upstream)
    requires Known(groups, up) && PartOf(answer, asked, up) && forall k :: k in asked ==> k in groups.at
    ensures var merged := Merge(groups, answer);
            && merged.keys == groups.keys && (forall k :: k in merged.at <==> k in groups.at)
            && Known(merged, up)
            && (forall k :: k in groups.at ==> merged.at[k] == if k in answer.at then Truth(up, k) else groups.at[k])
  {
    FilterKeepsNothing(answer.keys, k => k !in groups.at);
  }

  // The groups of the ids asked for, all true.
  ghost predicate TrueGroups(groups: GroupDict, ids: seq<Id>, up: Upstream) {
    groups.keys == ids && (forall k :: k in groups.at <==> k in ids) && Known(groups, up)
  }

  lemma FetchedLongs(groups: GroupDict, ids: seq<Id>, longs: Handler, up: Upstream)
    requires TrueGroups(groups, ids, up) && WellFormed(up)
    requires MissingLong(groups) != [] ==> Answers(longs, MissingLong(groups), groups, up)
    ensures var fetched := FetchLongs(groups, longs);
            fetched.Some? && TrueGroups(fetched.value, ids, up) && LongsKnown(fetched.value, up)
  {
    var asked := MissingLong(groups);
    FilterKeeps(groups.keys, k => k in groups.at && !HasLong(groups.at[k]));
    assert forall k :: k in groups.at && k !in asked ==> HasLong(groups.at[k]);
    if asked != [] {
      MergePart(groups, asked, longs(asked, groups).value, up);
    }
  }

  lemma FetchedShorts(groups: GroupDict, ids: seq<Id>, shorts: Handler, up: Upstream)
    requires TrueGroups(groups, ids, up) && LongsKnown(groups, up) && WellFormed(up)
    requires MissingShort(groups) != [] ==> Answers(shorts, MissingShort(groups), groups, up)
    ensures var fetched := FetchShorts(groups, shorts);
            fetched.Some? && TrueGroups(fetched.value, ids, up)
            && forall k :: k in ids && k in up.longOf ==> fetched.value.at[k] == Truth(up, k)
  {
    var asked := MissingShort(groups);
    FilterKeeps(groups.keys, k => k in groups.at && !HasShort(groups.at[k]));
    assert forall k :: k in groups.at && k !in asked ==> HasShort(groups.at[k]);
    if asked != [] {
      MergePart(groups, asked, shorts(asked, groups).value, up);
    }
  }

  // When the handlers called answer what they are asked, there is a group for exactly each id asked for, none says
  // anything untrue, and what upstream knows is all there.
  lemma AllGroups(store: Links, ids: seq<Id>, longs: Handler, shorts: Handler, up: Upstream)
    requires Ready(store, ids, up) && Answered(store, ids, longs, shorts, up)
    ensures var groups := Groups(store, ids, longs, shorts);
            && groups.Some? && TrueGroups(groups.value, ids, up)
            && (forall k :: k in ids && k in up.longOf ==> groups.value.at[k] == Truth(up, k))
  {
    CurrentGroups(store, ids, up);
    FetchedLongs(Current(store, ids), ids, longs, up);
    FetchedShorts(FetchLongs(Current(store, ids), longs).value, ids, shorts, up);
  }

  // With a truthful cache, and handlers that answer what this run asks them, the result is exactly the upstream mapping
  // on the nonzero ids asked for.
  lemma TranslationIsUpstream(store: Links, ids: seq<Id>, longs: Handler, shorts: Handler, up: Upstream)
    requires Ready(store, ids, up) && Answered(store, ids, longs, shorts, up)
    ensures Groups(store, ids, longs, shorts).Some?
    ensures Translation(Groups(store, ids, longs, shorts).value) == UpstreamMapping(ids, up)
  {
    AllGroups(store, ids, longs, shorts, up);
    TranslationOfTruth(Groups(store, ids, longs, shorts).value, ids, up);
  }

  lemma TranslationOfTruth(groups: GroupDict, ids: seq<Id>, up: Upstream)
    requires (forall k :: k in groups.at <==> k in ids) && Known(groups, up) && WellFormed(up)
    requires forall k :: k in ids && k in up.longOf ==> groups.at[k] == Truth(up, k)
    ensures Translation(groups) == UpstreamMapping(ids, up)
  {
    forall k | k in ids ensures HasShort(groups.at[k]) <==> Resolved(up, k) {
    }
  }

  // ---- The cache stays truthful and learns every id ----

  ghost predicate LongLink(up: Upstream, key: string, value: Value<()>) {
    exists k {:trigger up.longOf[k]} :: k in up.longOf && key == KoddiKey(k) && value == Text(up.longOf[k])
  }

  ghost predicate ShortLink(up: Upstream, key: string, value: Value<()>) {
    exists k :: Resolved(up, k) && key == up.longOf[k] && value == Num(up.shortOf[key])
  }

  lemma {:induction false} LongLinksAreTrue(store: Links, ids: seq<Id>, at: map<Id, IdGroup>, up: Upstream)
    requires forall k :: k in ids ==> k in at && TrueGroup(at[k], k, up)
    ensures forall key :: key in LongLinks(store, ids, at) ==> LongLink(up, key, LongLinks(store, ids, at)[key])
    ensures forall k :: k in ids && CachesLong(CurrentGroup(store, k), at[k]) ==> KoddiKey(k) in LongLinks(store, ids, at)
  {
    if ids != [] {
      var last := |ids| - 1;
      var k, rest := ids[last], LongLinks(store, ids[..last], at);
      assert k in ids && ids == ids[..last] + [k];
      LongLinksAreTrue(store, ids[..last], at, up);
      if CachesLong(CurrentGroup(store, k), at[k]) {
        assert LongLink(up, KoddiKey(k), Text(at[k].longId.value));
        assert LongLinks(store, ids, at) == rest[KoddiKey(k) := Text(at[k].longId.value)];
      }
    }
  }

  lemma {:induction false} ShortLinksAreTrue(store: Links, ids: seq<Id>, at: map<Id, IdGroup>, up: Upstream)
    requires forall k :: k in ids ==> k in at && TrueGroup(at[k], k, up)
    ensures forall key :: key in ShortLinks(store, ids, at) ==> ShortLink(up, key, ShortLinks(store, ids, at)[key])
    ensures forall k :: k in ids && CachesShort(CurrentGroup(store, k), at[k]) ==> at[k].longId.value in ShortLinks(store, ids, at)
  {
    if ids != [] {
      var last := |ids| - 1;
      var k := ids[last];
      assert k in ids && ids == ids[..last] + [k];
      ShortLinksAreTrue(store, ids[..last], at, up);
      if CachesShort(CurrentGroup(store, k), at[k]) {
        assert ShortLink(up, at[k].longId.value, Num(at[k].shortId.value));
      }
    }
  }

  lemma TrueLinksAgree(store: Links, longs: Links, shorts: Links, up: Upstream)
    requires Agrees(store, up) && WellFormed(up)
    requires forall key :: key in longs ==> LongLink(up, key, longs[key])
    requires forall key :: key in shorts ==> ShortLink(up, key, shorts[key])
    ensures Agrees(store + longs + shorts, up)
  {
    KoddiKeysDiffer();
    var store' := store + longs + shorts;
    forall k: Id | k.Number? && KoddiKey(k) in store' ensures k in up.longOf && store'[KoddiKey(k)] == Text(up.longOf[k]) {
      assert KoddiKey(k) !in shorts;
    }
    forall k | k in up.longOf && up.longOf[k] in store'
      ensures up.longOf[k] in up.shortOf && store'[up.longOf[k]] == Num(up.shortOf[up.longOf[k]])
    {
      assert up.longOf[k] !in longs;
    }
  }

  // Whatever was fetched, as long as it is true, the cache still agrees with upstream afterwards.
  lemma CacheStaysTrue(store: Links, ids: seq<Id>, groups: GroupDict, up: Upstream)
    requires Ready(store, ids, up) && TrueGroups(groups, ids, up)
    ensures Agrees(CacheAfter(store, ids, groups.at), up)
  {
    LongLinksAreTrue(store, ids, groups.at, up);
    ShortLinksAreTrue(store, ids, groups.at, up);
    TrueLinksAgree(store, LongLinks(store, ids, groups.at), ShortLinks(store, ids, groups.at), up);
  }

  // Afterwards the cache still agrees with upstream, and holds every link upstream has for the ids asked.
  lemma CacheStaysTrueAndComplete(store: Links, ids: seq<Id>, longs: Handler, shorts: Handler, up: Upstream)
    requires Ready(store, ids, up) && Answered(store, ids, longs, shorts, up)
    ensures Groups(store, ids, longs, shorts).Some?
    ensures var store' := CacheAfter(store, ids, Groups(store, ids, longs, shorts).value.at);
            && Agrees(store', up)
            && (forall k :: k in ids && k in up.longOf ==> KoddiKey(k) in store')
            && (forall k :: k in ids && Resolved(up, k) ==> up.longOf[k] in store')
  {
    AllGroups(store, ids, longs, shorts, up);
    var groups := Groups(store, ids, longs, shorts).value;
    CacheStaysTrue(store, ids, groups, up);
    forall k | k in ids && k in up.longOf
      ensures KoddiKey(k) in CacheAfter(store, ids, groups.at)
      ensures Resolved(up, k) ==> up.longOf[k] in CacheAfter(store, ids, groups.at)
    {
      LinkedAfter(store, ids, groups, up, k);
    }
  }

  lemma LinkedAfter(store: Links, ids: seq<Id>, groups: GroupDict, up: Upstream, k: Id)
    requires Ready(store, ids, up) && TrueGroups(groups, ids, up) && k in ids && k in up.longOf && groups.at[k] == Truth(up, k)
    ensures KoddiKey(k) in CacheAfter(store, ids, groups.at)
    ensures Resolved(up, k) ==> up.longOf[k] in CacheAfter(store, ids, groups.at)
  {
    LongLinksAreTrue(store, ids, groups.at, up);
    ShortLinksAreTrue(store, ids, groups.at, up);
    CurrentGroupIsTrue(store, k, up);
  }

  // Once every id asked is resolved, a second run answers the same mapping, calls no handler and writes nothing.
  lemma SecondRunCallsNothing(store: Links, ids: seq<Id>, longs: Handler, shorts: Handler, up: Upstream, longs': Handler, shorts': Handler)
    requires Ready(store, ids, up) && Answered(store, ids, longs, shorts, up)
    requires forall k :: k in ids ==> Resolved(up, k)
    ensures Groups(store, ids, longs, shorts).Some?
    ensures var groups := Groups(store, ids, longs, shorts).value;
            var store' := CacheAfter(store, ids, groups.at);
            && Calls(Current(store', ids), longs') == 0
            && Groups(store', ids, longs', shorts').Some?
            && Translation(Groups(store', ids, longs', shorts').value) == Translation(groups)
            && CacheAfter(store', ids, Groups(store', ids, longs', shorts').value.at) == store'
  {
    CacheStaysTrueAndComplete(store, ids, longs, shorts, up);
    TranslationIsUpstream(store, ids, longs, shorts, up);
    FullCacheCallsNothing(CacheAfter(store, ids, Groups(store, ids, longs, shorts).value.at), ids, longs', shorts', up);
  }

  lemma FullCacheCallsNothing(store: Links, ids: seq<Id>, longs: Handler, shorts: Handler, up: Upstream)
    requires Ready(store, ids, up)
    requires forall k :: k in ids ==> Resolved(up, k) && KoddiKey(k) in store && up.longOf[k] in store
    ensures Calls(Current(store, ids), longs) == 0
    ensures Groups(store, ids, longs, shorts).Some?
    ensures Translation(Groups(store, ids, longs, shorts).value) == UpstreamMapping(ids, up)
    ensures CacheAfter(store, ids, Groups(store, ids, longs, shorts).value.at) == store
  {
    GroupsOfFullCache(store, ids, longs, shorts, up);
    var groups := Groups(store, ids, longs, shorts).value;
    TranslationOfTruth(groups, ids, up);
    NothingToLink(store, ids, groups.at);
    assert store + map[] + map[] == store;
  }

  lemma GroupsOfFullCache(store: Links, ids: seq<Id>, longs: Handler, shorts: Handler, up: Upstream)
    requires Ready(store, ids, up)
    requires forall k :: k in ids ==> Resolved(up, k) && KoddiKey(k) in store && up.longOf[k] in store
    ensures Calls(Current(store, ids), longs) == 0
    ensures Groups(store, ids, longs, shorts) == Some(Current(store, ids)) && TrueGroups(Current(store, ids), ids, up)
    ensures forall k :: k in ids ==>
              var group := Current(store, ids).at[k];
              group == CurrentGroup(store, k) == Truth(up, k) && HasLong(group) && HasShort(group)
  {
    CurrentGroups(store, ids, up);
    forall k | k in ids ensures CurrentGroup(store, k) == Truth(up, k) {
    }
    NothingMissing(Current(store, ids), longs, shorts);
  }

  lemma NothingMissing(groups: GroupDict, longs: Handler, shorts: Handler)
    requires forall k :: k in groups.at ==> HasLong(groups.at[k]) && HasShort(groups.at[k])
    ensures FetchLongs(groups, longs) == Some(groups) && FetchShorts(groups, shorts) == Some(groups) && Calls(groups, longs) == 0
  {
    FilterKeepsNothing(groups.keys, k => k in groups.at && !HasLong(groups.at[k]));
    FilterKeepsNothing(groups.keys, k => k in groups.at && !HasShort(groups.at[k]));
  }

  lemma {:induction false} NothingToLink(store: Links, ids: seq<Id>, at: map<Id, IdGroup>)
    requires forall k :: k in ids ==> k in at && at[k] == CurrentGroup(store, k) && HasLong(at[k]) && HasShort(at[k])
    ensures LongLinks(store, ids, at) == map[] && ShortLinks(store, ids, at) == map[]
  {
    if ids != [] {
      NothingToLink(store, ids[..|ids| - 1], at);
      assert ids[|ids| - 1] in ids;
    }
  }

  // ---- Exactly what is written, and when upstream is asked ----

  // The link to a long id the cache had none for, and that to a short id it had none for.
  ghost predicate NewLong(store: Links, ids: seq<Id>, at: map<Id, IdGroup>, key: string, value: Value<()>) {
    exists k :: k in ids && k in at && CurrentGroup(store, k).longId == None
                && at[k].longId.Some? && at[k].longId.value != "" && key == KoddiKey(k) && value == Text(at[k].longId.value)
  }

  ghost predicate NewShort(store: Links, ids: seq<Id>, at: map<Id, IdGroup>, key: string, value: Value<()>) {
    exists k :: k in ids && k in at && CurrentGroup(store, k).shortId == None
                && at[k].shortId.Some? && at[k].shortId.value != 0
                && at[k].longId.Some? && at[k].longId.value != "" && key == at[k].longId.value && value == Num(at[k].shortId.value)
  }

  ghost predicate NewLongFor(store: Links, ids: seq<Id>, at: map<Id, IdGroup>, key: string) {
    exists value :: NewLong(store, ids, at, key, value)
  }

  ghost predicate NewShortFor(store: Links, ids: seq<Id>, at: map<Id, IdGroup>, key: string) {
    exists value :: NewShort(store, ids, at, key, value)
  }

  // The new links are written, those to short ids last, and everything else is as it was.
  ghost predicate WritesLinks(store: Links, after: Links, ids: seq<Id>, at: map<Id, IdGroup>) {
    forall key ::
      if NewShortFor(store, ids, at, key) then key in after && NewShort(store, ids, at, key, after[key])
      else if NewLongFor(store, ids, at, key) then key in after && NewLong(store, ids, at, key, after[key])
      else Lookup(after, key) == Lookup(store, key)
  }

  lemma {:induction false} NewLongs(store: Links, ids: seq<Id>, at: map<Id, IdGroup>)
    ensures forall key :: key in LongLinks(store, ids, at) ==> NewLong(store, ids, at, key, LongLinks(store, ids, at)[key])
    ensures forall key :: NewLongFor(store, ids, at, key) ==> key in LongLinks(store, ids, at)
  {
    if ids != [] {
      var rest, k := ids[..|ids| - 1], ids[|ids| - 1];
      assert ids == rest + [k];
      NewLongs(store, rest, at);
      forall key ensures NewLongFor(store, ids, at, key) ==> key in LongLinks(store, ids, at) {
        if NewLongFor(store, ids, at, key) {
          var value :| NewLong(store, ids, at, key, value);
          assert NewLong(store, rest, at, key, value) || key == KoddiKey(k);
        }
      }
      forall key | key in LongLinks(store, ids, at) ensures NewLong(store, ids, at, key, LongLinks(store, ids, at)[key]) {
        assert key in LongLinks(store, rest, at) ==> NewLong(store, rest, at, key, LongLinks(store, rest, at)[key]);
      }
    }
  }

  lemma {:induction false} NewShorts(store: Links, ids: seq<Id>, at: map<Id, IdGroup>)
    ensures forall key :: key in ShortLinks(store, ids, at) ==> NewShort(store, ids, at, key, ShortLinks(store, ids, at)[key])
    ensures forall key :: NewShortFor(store, ids, at, key) ==> key in ShortLinks(store, ids, at)
  {
    if ids != [] {
      var rest, k := ids[..|ids| - 1], ids[|ids| - 1];
      assert ids == rest + [k];
      NewShorts(store, rest, at);
      forall key ensures NewShortFor(store, ids, at, key) ==> key in ShortLinks(store, ids, at) {
        if NewShortFor(store, ids, at, key) {
          var value :| NewShort(store, ids, at, key, value);
          assert NewShort(store, rest, at, key, value) || (k in at && key == at[k].longId.value);
        }
      }
      forall key | key in ShortLinks(store, ids, at) ensures NewShort(store, ids, at, key, ShortLinks(store, ids, at)[key]) {
        assert key in ShortLinks(store, rest, at) ==> NewShort(store, rest, at, key, ShortLinks(store, rest, at)[key]);
      }
    }
  }

  lemma LinksAreWritten(store: Links, ids: seq<Id>, at: map<Id, IdGroup>)
    ensures WritesLinks(store, CacheAfter(store, ids, at), ids, at)
  {
    NewLongs(store, ids, at);
    NewShorts(store, ids, at);
  }

  // No handler is called if and only if the cache has a long id that is not empty for every id asked, and a short id other
  // than 0 under it.
  lemma NoCallsIff(store: Links, ids: seq<Id>, longs: Handler)
    requires Unrepeated(ids)
    ensures Calls(Current(store, ids), longs) == 0
            <==> forall k :: k in ids ==>
                   var long := AsText(Lookup(store, KoddiKey(k)));
                   long.Some? && long.value != "" && var short := AsId(Lookup(store, long.value)); short.Some? && short.value != 0
  {
    CurrentAt(store, ids);
    NothingIsMissingIff(Current(store, ids));
    assert forall k :: k in ids ==> Current(store, ids).at[k] == CurrentGroup(store, k);
  }

  ghost predicate LacksLong(groups: GroupDict) {
    exists k :: k in groups.keys && k in groups.at && (groups.at[k].longId == None || groups.at[k].longId == Some(""))
  }

  ghost predicate LacksShort(groups: GroupDict) {
    exists k :: k in groups.keys && k in groups.at && (groups.at[k].shortId == None || groups.at[k].shortId == Some(0))
  }

  // The first handler is called once when some long id is missing, the second once when a short id is missing after that.
  lemma CallsAreCounted(groups: GroupDict, longs: Handler)
    ensures var fetched := FetchLongs(groups, longs);
            Calls(groups, longs) == (if LacksLong(groups) then 1 else 0) + if fetched.Some? && LacksShort(fetched.value) then 1 else 0
  {
    MissingIffLacks(groups);
    if FetchLongs(groups, longs).Some? {
      MissingIffLacks(FetchLongs(groups, longs).value);
    }
  }

  lemma MissingIffLacks(groups: GroupDict)
    ensures MissingLong(groups) != [] <==> LacksLong(groups)
    ensures MissingShort(groups) != [] <==> LacksShort(groups)
  {
    FilterKeeps(groups.keys, k => k in groups.at && !HasLong(groups.at[k]));
    FilterKeeps(groups.keys, k => k in groups.at && !HasShort(groups.at[k]));
    assert MissingLong(groups) != [] ==> MissingLong(groups)[0] in MissingLong(groups);
    assert MissingShort(groups) != [] ==> MissingShort(groups)[0] in MissingShort(groups);
  }

  lemma CurrentAt(store: Links, ids: seq<Id>)
    requires Unrepeated(ids)
    ensures Current(store, ids).keys == ids
    ensures forall k :: k in ids ==> k in Current(store, ids).at && Current(store, ids).at[k] == CurrentGroup(store, k)
  {
    DistinctPairsKeepOrder(CurrentPairs(store, ids), ids);
    forall k | k in ids ensures k in Current(store, ids).at && Current(store, ids).at[k] == CurrentGroup(store, k) {
      var i :| 0 <= i < |ids| && ids[i] == k;
    }
  }

  lemma NothingIsMissingIff(groups: GroupDict)
    requires forall k :: k in groups.keys ==> k in groups.at
    ensures MissingLong(groups) == [] <==> forall k :: k in groups.keys ==> HasLong(groups.at[k])
    ensures MissingShort(groups) == [] <==> forall k :: k in groups.keys ==> HasShort(groups.at[k])
  {
    MissingIffLacks(groups);
  }

  // ---- Another family under the same keys ----

  // The Koddi campaign ids are cached under the very keys of the long ids, but by short id.
  function KoddiIdLinks(koddiIds: map<int, int>): Links {
    KoddiKeysDiffer();
    map s | s in koddiIds :: KoddiKey(Number(s)) := Text(Spelled(Number(koddiIds[s])))
  }

  // The cache goes on agreeing with upstream if and only if every number so written happens to be the long id
  // of the Koddi id its key stands for.
  lemma OtherFamilyAgreesIff(store: Links, koddiIds: map<int, int>, up: Upstream)
    requires Agrees(store, up) && WellFormed(up)
    ensures Agrees(store + KoddiIdLinks(koddiIds), up)
            <==> forall s :: s in koddiIds ==> Number(s) in up.longOf && up.longOf[Number(s)] == Spelled(Number(koddiIds[s]))
  {
    var links := KoddiIdLinks(koddiIds);
    KoddiIdLinksKeys(koddiIds);
    if Agrees(store + links, up) {
      forall s | s in koddiIds ensures Number(s) in up.longOf && up.longOf[Number(s)] == Spelled(Number(koddiIds[s])) {
        assert KoddiKey(Number(s)) in links && (store + links)[KoddiKey(Number(s))] == Text(Spelled(Number(koddiIds[s])));
      }
    }
    if forall s :: s in koddiIds ==> Number(s) in up.longOf && up.longOf[Number(s)] == Spelled(Number(koddiIds[s])) {
      OverwrittenAgrees(store, links, koddiIds, up);
    }
  }

  lemma KoddiIdLinksKeys(koddiIds: map<int, int>)
    ensures forall s :: s in koddiIds ==>
              KoddiKey(Number(s)) in KoddiIdLinks(koddiIds) && KoddiIdLinks(koddiIds)[KoddiKey(Number(s))] == Text(Spelled(Number(koddiIds[s])))
    ensures forall key :: key in KoddiIdLinks(koddiIds) ==> exists s :: s in koddiIds && key == KoddiKey(Number(s))
    ensures NONE !in KoddiIdLinks(koddiIds)
  {
    KoddiKeysDiffer();
  }

  lemma OverwrittenAgrees(store: Links, links: Links, koddiIds: map<int, int>, up: Upstream)
    requires Agrees(store, up) && WellFormed(up) && NONE !in links
    requires forall key :: key in links ==> exists s :: s in koddiIds && key == KoddiKey(Number(s))
    requires forall s :: s in koddiIds ==>
               KoddiKey(Number(s)) in links && Number(s) in up.longOf && links[KoddiKey(Number(s))] == Text(up.longOf[Number(s)])
    ensures Agrees(store + links, up)
  {
    KoddiKeysDiffer();
    var store' := store + links;
    forall k: Id | k.Number? && KoddiKey(k) in store' ensures k in up.longOf && store'[KoddiKey(k)] == Text(up.longOf[k]) {
      if KoddiKey(k) in links {
        var s :| s in koddiIds && KoddiKey(k) == KoddiKey(Number(s));
      } else {
        assert KoddiKey(k) in store;
      }
    }
    forall k | k in up.longOf && up.longOf[k] in store'
      ensures up.longOf[k] in up.shortOf && store'[up.longOf[k]] == Num(up.shortOf[up.longOf[k]])
    {
      assert up.longOf[k] !in links;
    }
  }

  // ---- The service ----

  class Translator {
    const cache: RedisEntity<()>

    constructor (cache: RedisEntity<()>)
      ensures this.cache == cache
    {
      this.cache := cache;
    }

    method GetCurrentIds(ids: seq<Id>) returns (current: seq<(Id, IdGroup)>)
      ensures current == CurrentPairs(cache.store, ids)
    {
      var longs := cache.Mget(seq(|ids|, i requires 0 <= i < |ids| => KoddiKey(ids[i])));
      var shorts := cache.Mget(seq(|longs|, i requires 0 <= i < |longs| =>
        if AsText(longs[i]).Some? then AsText(longs[i]).value else NONE));
      current := seq(|ids|, i requires 0 <= i < |ids| => (ids[i], IdGroup(AsText(longs[i]), AsId(shorts[i]))));
    }

    method FetchMissingIds(current: GroupDict, longs: Handler, shorts: Handler) returns (groups: Option<GroupDict>, calls: nat)
      ensures groups == var fetched := FetchLongs(current, longs); if fetched.None? then None else FetchShorts(fetched.value, shorts)
      ensures calls == Calls(current, longs)
    {
      groups, calls := Some(current), 0;
      var missing := MissingLong(current);
      if missing != [] {
        calls := calls + 1;
        var update := longs(missing, current);
        if update.None? {
          return None, calls;
        }
        groups := Some(Merge(current, update.value));
      }
      missing := MissingShort(groups.value);
      if missing != [] {
        calls := calls + 1;
        var update := shorts(missing, groups.value);
        if update.None? {
          return None, calls;
        }
        groups := Some(Merge(groups.value, update.value));
      }
    }

    method CacheMissingIds(current: seq<(Id, IdGroup)>, at: map<Id, IdGroup>, ghost ids: seq<Id>)
      requires current == CurrentPairs(cache.store, ids)
      modifies cache
      ensures cache.store == CacheAfter(old(cache.store), ids, at)
      ensures WritesLinks(old(cache.store), cache.store, ids, at)
    {
      LinksAreWritten(cache.store, ids, at);
      var longLinks, shortLinks := NewLinks(cache.store, current, at, ids);
      WriteLinks(longLinks, shortLinks);
    }

    method WriteLinks(longLinks: Links, shortLinks: Links)
      modifies cache
      ensures cache.store == old(cache.store) + longLinks + shortLinks
    {
      if longLinks != map[] {
        cache.Mset(longLinks);
      }
      if shortLinks != map[] {
        cache.Mset(shortLinks);
      }
    }

    // calls counts the missing-id handlers called; when one raises, nothing is cached.
    method BuildTranslation(ids: seq<Id>, longs: Handler, shorts: Handler) returns (shortIds: Option<map<Id, nat>>, calls: nat)
      modifies cache
      ensures calls == Calls(Current(old(cache.store), ids), longs)
      ensures var groups := Groups(old(cache.store), ids, longs, shorts);
              && (shortIds.Some? <==> groups.Some?)
              && (groups.None? ==> cache.store == old(cache.store))
              && (groups.Some? ==> shortIds.value == Translation(groups.value)
                                   && cache.store == CacheAfter(old(cache.store), ids, groups.value.at))
    {
      var current := GetCurrentIds(ids);
      var groups: Option<GroupDict>;
      groups, calls := FetchMissingIds(FromPairs(current), longs, shorts);
      if groups.None? {
        return None, calls;
      }
      CacheMissingIds(current, groups.value.at, ids);
      shortIds := Some(Translation(groups.value));
    }
  }

  // The links to write, of the ids a group was found for.
  method NewLinks(ghost store: Links, current: seq<(Id, IdGroup)>, at: map<Id, IdGroup>, ghost ids: seq<Id>)
    returns (longLinks: Links, shortLinks: Links)
    requires current == CurrentPairs(store, ids)
    ensures longLinks == LongLinks(store, ids, at) && shortLinks == ShortLinks(store, ids, at)
  {
    longLinks, shortLinks := map[], map[];
    for i := 0 to |current|
      invariant longLinks == LongLinks(store, ids[..i], at)
      invariant shortLinks == ShortLinks(store, ids[..i], at)
    {
      var (k, cached) := current[i];
      assert ids[..i + 1][..i] == ids[..i];
      if k in at {
        var group := at[k];
        if cached.longId.None? && HasLong(group) {
          longLinks := longLinks[KoddiKey(k) := Text(group.longId.value)];
        }
        if cached.shortId.None? && HasShort(group) && HasLong(group) {
          shortLinks := shortLinks[group.longId.value := Num(group.shortId.value)];
        }
      }
    }
    assert ids[..|current|] == ids;
  }
}
