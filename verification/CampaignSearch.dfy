/**
The campaign search answers one page. When one page is enough for a handler, and when two are
enough for a whole translation.
 */
module CampaignSearch {
  import opened Options
  import opened JsonIds
  import opened PyDict
  import opened EntityCache
  import opened ReportTranslation
  import opened ReportHandlers

  // The page size of a search that asks for none.
  const PAGE_SIZE: nat := 30

  // The campaigns upstream has: one for each Koddi id it knows, with its true ids.
  ghost predicate Carries(all: seq<Campaign>, up: Upstream) {
    && (forall i :: 0 <= i < |all| ==> TrueCampaign(all[i], up))
    && (forall i, j :: 0 <= i < j < |all| ==> KoddiOf(all[i]) != KoddiOf(all[j]))
    && (forall k :: k in up.longOf ==> OnPage(all, k))
  }

  predicate Asked(campaign: Campaign, missing: seq<Id>) {
    KoddiOf(campaign).Some? && KoddiOf(campaign).value in missing
  }

  // All campaigns asked for, in upstream's order.
  function Matches(all: seq<Campaign>, missing: seq<Id>): seq<Campaign> {
    if all == [] then []
    else Matches(all[..|all| - 1], missing) + if Asked(all[|all| - 1], missing) then [all[|all| - 1]] else []
  }

  // The first page of them.
  function FirstPage(all: seq<Campaign>, missing: seq<Id>, size: nat): seq<Campaign> {
    var matches := Matches(all, missing);
    if size < |matches| then matches[..size] else matches
  }

  function Search(all: seq<Campaign>, size: nat): seq<Id> -> Option<seq<Campaign>> {
    missing => Some(FirstPage(all, missing, size))
  }

  // The ids asked for that upstream knows.
  function KnownAmong(missing: seq<Id>, up: Upstream): set<Id> {
    set k | k in missing && k in up.longOf
  }

  ghost predicate DifferentIds(campaigns: seq<Campaign>) {
    forall i, j :: 0 <= i < j < |campaigns| ==> KoddiOf(campaigns[i]) != KoddiOf(campaigns[j])
  }

  lemma {:induction false} MatchesAreAsked(all: seq<Campaign>, missing: seq<Id>, up: Upstream)
    requires (forall i :: 0 <= i < |all| ==> TrueCampaign(all[i], up)) && DifferentIds(all)
    ensures forall i :: 0 <= i < |Matches(all, missing)| ==> TrueCampaign(Matches(all, missing)[i], up) && Asked(Matches(all, missing)[i], missing)
    ensures DifferentIds(Matches(all, missing))
    ensures forall k :: OnPage(Matches(all, missing), k) <==> OnPage(all, k) && k in missing
  {
    if all != [] {
      var rest, last := all[..|all| - 1], all[|all| - 1];
      MatchesAreAsked(rest, missing, up);
      var some := Matches(rest, missing);
      forall i | 0 <= i < |some| && Asked(last, missing) ensures KoddiOf(some[i]) != KoddiOf(last) {
        assert OnPage(some, KoddiOf(some[i]).value);
        var j :| 0 <= j < |rest| && KoddiOf(rest[j]) == KoddiOf(some[i]);
        assert all[j] == rest[j];
      }
      forall k ensures OnPage(Matches(all, missing), k) <==> OnPage(all, k) && k in missing {
        OnLongerPage(all, k);
        assert TrueCampaign(last, up);
        if Asked(last, missing) {
          assert Matches(all, missing)[..|some|] == some && Matches(all, missing)[|some|] == last;
          OnLongerPage(Matches(all, missing), k);
        } else {
          assert Matches(all, missing) == some;
        }
      }
    }
  }

  // The matches are of exactly the ids asked for and known, and as many.
  lemma MatchesAreKnown(all: seq<Campaign>, missing: seq<Id>, up: Upstream)
    requires Carries(all, up)
    ensures forall k :: k in KnownAmong(missing, up) <==> OnPage(Matches(all, missing), k)
    ensures |Matches(all, missing)| == |KnownAmong(missing, up)|
  {
    MatchesAreAsked(all, missing, up);
    forall k ensures k in KnownAmong(missing, up) <==> OnPage(Matches(all, missing), k) {
      if OnPage(all, k) {
        var i :| 0 <= i < |all| && KoddiOf(all[i]) == Some(k);
        assert TrueCampaign(all[i], up);
      }
    }
    CountOfIds(Matches(all, missing), KnownAmong(missing, up));
  }

  lemma {:induction false} CountOfIds(campaigns: seq<Campaign>, ids: set<Id>)
    requires DifferentIds(campaigns) && forall i :: 0 <= i < |campaigns| ==> KoddiOf(campaigns[i]).Some?
    requires forall k :: k in ids <==> OnPage(campaigns, k)
    ensures |ids| == |campaigns|
  {
    if campaigns == [] {
      assert ids == {};
    } else {
      var rest, k := campaigns[..|campaigns| - 1], KoddiOf(campaigns[|campaigns| - 1]).value;
      forall j ensures j in ids - {k} <==> OnPage(rest, j) {
        OnLongerPage(campaigns, j);
      }
      assert OnPage(campaigns, k);
      CountOfIds(rest, ids - {k});
    }
  }

  // The page: true campaigns for ids asked for.
  lemma PageIsTrue(all: seq<Campaign>, missing: seq<Id>, size: nat, up: Upstream)
    requires Carries(all, up)
    ensures var page := FirstPage(all, missing, size);
            forall i :: 0 <= i < |page| ==> TrueCampaign(page[i], up) && KoddiOf(page[i]).value in missing
    ensures DifferentIds(FirstPage(all, missing, size))
    ensures forall k :: OnPage(FirstPage(all, missing, size), k) ==> k in KnownAmong(missing, up)
  {
    MatchesAreAsked(all, missing, up);
    MatchesAreKnown(all, missing, up);
    var matches, page := Matches(all, missing), FirstPage(all, missing, size);
    assert forall i :: 0 <= i < |page| ==> page[i] == matches[i];
    forall k | OnPage(page, k) ensures k in KnownAmong(missing, up) {
      var i :| 0 <= i < |page| && KoddiOf(page[i]) == Some(k);
      assert OnPage(matches, k);
    }
  }

  // It has as many as there are up to its size, hence all of them exactly when they are no more than that.
  lemma PageIsCompleteIff(all: seq<Campaign>, missing: seq<Id>, size: nat, up: Upstream)
    requires Carries(all, up)
    ensures var page, known := FirstPage(all, missing, size), KnownAmong(missing, up);
            && |page| == (if size < |known| then size else |known|)
            && (|known| <= size <==> forall k :: k in known ==> OnPage(page, k))
  {
    var matches, page := Matches(all, missing), FirstPage(all, missing, size);
    MatchesAreAsked(all, missing, up);
    MatchesAreKnown(all, missing, up);
    if size < |matches| {
      var k := KoddiOf(matches[size]).value;
      assert OnPage(matches, k);
      forall i | 0 <= i < |page| ensures KoddiOf(page[i]) != Some(k) {
        assert page[i] == matches[i];
      }
      assert k in KnownAmong(missing, up) && !OnPage(page, k);
    }
  }

  // The handler answers what it is asked if and only if upstream knows no more of the ids than a page holds.
  lemma PagedHandlerAnswersIff(all: seq<Campaign>, missing: seq<Id>, groups: GroupDict, size: nat, up: Upstream)
    requires Carries(all, up)
    ensures Answers(CampaignHandler(Search(all, size)), missing, groups, up) <==> |KnownAmong(missing, up)| <= size
  {
    PageIsTrue(all, missing, size, up);
    PageIsCompleteIff(all, missing, size, up);
    CampaignHandlerAnswersIff(Search(all, size), missing, groups, up);
  }

  // As the code has it: at most 30.
  lemma CampaignHandlerAnswersUpToThirty(all: seq<Campaign>, missing: seq<Id>, groups: GroupDict, up: Upstream)
    requires Carries(all, up)
    ensures Answers(CampaignHandler(Search(all, PAGE_SIZE)), missing, groups, up) <==> |KnownAmong(missing, up)| <= 30
  {
    PagedHandlerAnswersIff(all, missing, groups, PAGE_SIZE, up);
  }

  // ---- A whole translation of campaigns: the same search for long ids, then for short ids ----

  // The asked and known ids whose long id is not cached, and those whose long id is but whose short id is not.
  function Unlinked(store: Links, ids: seq<Id>, up: Upstream): set<Id> {
    set k | k in ids && k in up.longOf && KoddiKey(k) !in store
  }

  function HalfLinked(store: Links, ids: seq<Id>, up: Upstream): set<Id> {
    set k | k in ids && k in up.longOf && KoddiKey(k) in store && up.longOf[k] !in store
  }

  // What the first search leaves over, the second asks for again.
  function LeftOver(unlinked: nat, halfLinked: nat, size: nat): nat {
    (if size < unlinked then unlinked - size else 0) + halfLinked
  }

  lemma CurrentLinks(store: Links, ids: seq<Id>, up: Upstream, k: Id)
    requires Ready(store, ids, up) && k in ids && k in up.longOf
    ensures HasLong(CurrentGroup(store, k)) <==> KoddiKey(k) in store
    ensures HasShort(CurrentGroup(store, k)) <==> KoddiKey(k) in store && up.longOf[k] in store
  {
  }

  // The first search is for the unlinked ids, among the known ones.
  lemma FirstAsked(store: Links, ids: seq<Id>, up: Upstream)
    requires Ready(store, ids, up)
    ensures KnownAmong(MissingLong(Current(store, ids)), up) == Unlinked(store, ids, up)
  {
    CurrentGroups(store, ids, up);
    var groups := Current(store, ids);
    FilterKeeps(groups.keys, k => k in groups.at && !HasLong(groups.at[k]));
    forall k | k in ids && k in up.longOf ensures HasLong(groups.at[k]) <==> KoddiKey(k) in store {
      CurrentLinks(store, ids, up, k);
    }
  }

  // After a search, whatever it was asked for, the groups are true; those on the page are complete, the others as before.
  lemma Searched(groups: GroupDict, asked: seq<Id>, all: seq<Campaign>, size: nat, ids: seq<Id>, up: Upstream)
    requires Carries(all, up) && WellFormed(up) && TrueGroups(groups, ids, up) && forall k :: k in asked ==> k in groups.at
    ensures Fetch(groups, asked, CampaignHandler(Search(all, size))).Some?
    ensures var after := Fetch(groups, asked, CampaignHandler(Search(all, size))).value;
            TrueGroups(after, ids, up) && Completed(groups, after, FirstPage(all, asked, size), up)
  {
    var page := FirstPage(all, asked, size);
    PageIsTrue(all, asked, size, up);
    CampaignGroupsAreTrue(page, up);
    FetchByPage(groups, asked, all, size);
    CompletedBy(groups, asked, page, CampaignGroups(page).value, ids, up);
  }

  lemma FetchByPage(groups: GroupDict, asked: seq<Id>, all: seq<Campaign>, size: nat)
    requires CampaignGroups(FirstPage(all, asked, size)).Some?
    ensures Fetch(groups, asked, CampaignHandler(Search(all, size)))
            == Some(if asked == [] then groups else Merge(groups, CampaignGroups(FirstPage(all, asked, size)).value))
  {
    var h, search := CampaignHandler(Search(all, size)), Search(all, size);
    assert search(asked) == Some(FirstPage(all, asked, size));
    assert h(asked, groups) == CampaignGroups(FirstPage(all, asked, size));
  }

  lemma CompletedBy(groups: GroupDict, asked: seq<Id>, page: seq<Campaign>, answer: GroupDict, ids: seq<Id>, up: Upstream)
    requires TrueGroups(groups, ids, up) && (forall k :: k in asked ==> k in groups.at) && Valid(answer)
    requires forall k :: OnPage(page, k) ==> k in KnownAmong(asked, up)
    requires forall k :: k in answer.at <==> OnPage(page, k)
    requires forall k :: k in answer.at ==> k in up.longOf && answer.at[k] == Truth(up, k)
    ensures var after := if asked == [] then groups else Merge(groups, answer);
            TrueGroups(after, ids, up) && Completed(groups, after, page, up)
  {
    if asked == [] {
      assert KnownAmong(asked, up) == {};
    } else {
      MergePart(groups, asked, answer, up);
    }
  }

  ghost predicate Completed(before: GroupDict, after: GroupDict, page: seq<Campaign>, up: Upstream) {
    && (forall k :: k in after.at <==> k in before.at)
    && (forall k :: k in before.at ==>
          if OnPage(page, k) then k in up.longOf && after.at[k] == Truth(up, k) else after.at[k] == before.at[k])
  }

  // True groups translate to the upstream mapping exactly when each id it has is translated.
  lemma TranslationIff(groups: GroupDict, ids: seq<Id>, up: Upstream)
    requires TrueGroups(groups, ids, up) && WellFormed(up)
    ensures Translation(groups) == UpstreamMapping(ids, up)
            <==> forall k :: k in ids && Truthy(k) && Resolved(up, k) ==> HasShort(groups.at[k])
  {
    var mapping := UpstreamMapping(ids, up);
    forall k | k in ids && HasShort(groups.at[k]) ensures Resolved(up, k) && groups.at[k].shortId.value == up.shortOf[up.longOf[k]] {
      assert TrueGroup(groups.at[k], k, up);
    }
    if Translation(groups) == mapping {
      forall k | k in ids && Truthy(k) && Resolved(up, k) ensures HasShort(groups.at[k]) {
        assert k in mapping && k in Translation(groups);
      }
    }
  }

  // Every campaign has a short id, and none the Koddi id 0.
  ghost predicate AllResolved(up: Upstream) {
    forall k :: k in up.longOf ==> Truthy(k) && Resolved(up, k)
  }

  // What the second search is for, among the known ids.
  lemma SecondAsked(store: Links, ids: seq<Id>, all: seq<Campaign>, size: nat, up: Upstream, after: GroupDict)
    requires Ready(store, ids, up) && Carries(all, up) && AllResolved(up)
    requires TrueGroups(after, ids, up) && Completed(Current(store, ids), after, FirstPage(all, MissingLong(Current(store, ids)), size), up)
    ensures KnownAmong(MissingShort(after), up)
            == (set k | k in Unlinked(store, ids, up) && !OnPage(FirstPage(all, MissingLong(Current(store, ids)), size), k))
               + HalfLinked(store, ids, up)
  {
    var page := FirstPage(all, MissingLong(Current(store, ids)), size);
    PageIsTrue(all, MissingLong(Current(store, ids)), size, up);
    FirstAsked(store, ids, up);
    forall k | k in ids && k in up.longOf
      ensures HasShort(after.at[k]) <==> OnPage(page, k) || (KoddiKey(k) in store && up.longOf[k] in store)
    {
      ShortAfter(store, ids, page, up, after, k);
    }
    ShortsMissing(after, ids);
    SplitByPage(store, ids, page, MissingShort(after), up, after);
  }

  lemma ShortsMissing(groups: GroupDict, ids: seq<Id>)
    requires groups.keys == ids && forall k :: k in groups.at <==> k in ids
    ensures forall k :: k in MissingShort(groups) <==> k in ids && !HasShort(groups.at[k])
  {
    FilterKeeps(groups.keys, k => k in groups.at && !HasShort(groups.at[k]));
  }

  lemma LongsMissing(groups: GroupDict, ids: seq<Id>)
    requires groups.keys == ids && forall k :: k in groups.at <==> k in ids
    ensures forall k :: k in MissingLong(groups) <==> k in ids && !HasLong(groups.at[k])
  {
    FilterKeeps(groups.keys, k => k in groups.at && !HasLong(groups.at[k]));
  }

  lemma ShortAfter(store: Links, ids: seq<Id>, page: seq<Campaign>, up: Upstream, after: GroupDict, k: Id)
    requires Ready(store, ids, up) && AllResolved(up) && k in ids && k in up.longOf
    requires TrueGroups(after, ids, up) && Completed(Current(store, ids), after, page, up)
    ensures HasShort(after.at[k]) <==> OnPage(page, k) || (KoddiKey(k) in store && up.longOf[k] in store)
  {
    CurrentGroups(store, ids, up);
    CurrentLinks(store, ids, up, k);
  }

  lemma SplitByPage(store: Links, ids: seq<Id>, page: seq<Campaign>, asked: seq<Id>, up: Upstream, after: GroupDict)
    requires forall k :: OnPage(page, k) ==> k in Unlinked(store, ids, up)
    requires forall k :: k in after.at <==> k in ids
    requires forall k :: k in asked <==> k in ids && !HasShort(after.at[k])
    requires forall k :: k in ids && k in up.longOf ==>
               (HasShort(after.at[k]) <==> OnPage(page, k) || (KoddiKey(k) in store && up.longOf[k] in store))
    ensures KnownAmong(asked, up) == (set k | k in Unlinked(store, ids, up) && !OnPage(page, k)) + HalfLinked(store, ids, up)
  {
  }

  // How many those are.
  lemma SecondCount(store: Links, ids: seq<Id>, all: seq<Campaign>, size: nat, up: Upstream)
    requires Ready(store, ids, up) && Carries(all, up)
    ensures var page := FirstPage(all, MissingLong(Current(store, ids)), size);
            |(set k | k in Unlinked(store, ids, up) && !OnPage(page, k)) + HalfLinked(store, ids, up)|
            == LeftOver(|Unlinked(store, ids, up)|, |HalfLinked(store, ids, up)|, size)
  {
    var asked := MissingLong(Current(store, ids));
    FirstAsked(store, ids, up);
    PageIsTrue(all, asked, size, up);
    PageIsCompleteIff(all, asked, size, up);
    PageLeaves(FirstPage(all, asked, size), Unlinked(store, ids, up), HalfLinked(store, ids, up), size, up);
  }

  lemma PageLeaves(page: seq<Campaign>, unlinked: set<Id>, half: set<Id>, size: nat, up: Upstream)
    requires DifferentIds(page) && forall i :: 0 <= i < |page| ==> TrueCampaign(page[i], up)
    requires |page| == (if size < |unlinked| then size else |unlinked|) && unlinked !! half
    requires forall k :: OnPage(page, k) ==> k in unlinked
    ensures |(set k | k in unlinked && !OnPage(page, k)) + half| == LeftOver(|unlinked|, |half|, size)
  {
    var found, left := set k | k in unlinked && OnPage(page, k), set k | k in unlinked && !OnPage(page, k);
    CountOfIds(page, found);
    assert unlinked == found + left;
  }

  // Translating campaigns by the paged search gives the whole upstream mapping if and only if what the first search
  // leaves over, with the ids whose short id alone is missing, fits a page: the second search asks for those again.
  lemma CampaignTranslationIff(store: Links, ids: seq<Id>, all: seq<Campaign>, size: nat, up: Upstream)
    requires Ready(store, ids, up) && Carries(all, up) && AllResolved(up)
    ensures var h := CampaignHandler(Search(all, size));
            && Groups(store, ids, h, h).Some?
            && (Translation(Groups(store, ids, h, h).value) == UpstreamMapping(ids, up)
                <==> LeftOver(|Unlinked(store, ids, up)|, |HalfLinked(store, ids, up)|, size) <= size)
  {
    var h, current := CampaignHandler(Search(all, size)), Current(store, ids);
    FirstSearch(store, ids, all, size, up);
    var first := FetchLongs(current, h).value;
    ShortsMissing(first, ids);
    Searched(first, MissingShort(first), all, size, ids, up);
    SecondAsked(store, ids, all, size, up, first);
    SecondCount(store, ids, all, size, up);
    SecondSearchIff(first, FetchShorts(first, h).value, all, size, ids, up);
  }

  lemma FirstSearch(store: Links, ids: seq<Id>, all: seq<Campaign>, size: nat, up: Upstream)
    requires Ready(store, ids, up) && Carries(all, up)
    ensures var current := Current(store, ids);
            var first := FetchLongs(current, CampaignHandler(Search(all, size)));
            && first.Some? && TrueGroups(first.value, ids, up)
            && Completed(current, first.value, FirstPage(all, MissingLong(current), size), up)
  {
    CurrentGroups(store, ids, up);
    LongsMissing(Current(store, ids), ids);
    Searched(Current(store, ids), MissingLong(Current(store, ids)), all, size, ids, up);
  }

  lemma SecondSearchIff(first: GroupDict, second: GroupDict, all: seq<Campaign>, size: nat, ids: seq<Id>, up: Upstream)
    requires Carries(all, up) && WellFormed(up) && AllResolved(up) && TrueGroups(first, ids, up) && TrueGroups(second, ids, up)
    requires Completed(first, second, FirstPage(all, MissingShort(first), size), up)
    ensures Translation(second) == UpstreamMapping(ids, up) <==> |KnownAmong(MissingShort(first), up)| <= size
  {
    var asked := MissingShort(first);
    var page := FirstPage(all, asked, size);
    ShortsMissing(first, ids);
    PageIsTrue(all, asked, size, up);
    PageIsCompleteIff(all, asked, size, up);
    TranslationIff(second, ids, up);
    forall k | k in ids && k in up.longOf ensures HasShort(second.at[k]) <==> k !in asked || OnPage(page, k) {
      assert k in asked <==> !HasShort(first.at[k]);
    }
  }

  // As the code has it, from an empty cache: up to 60 campaigns are translated in full, and no more.
  lemma SixtyFromAnEmptyCache(ids: seq<Id>, all: seq<Campaign>, up: Upstream)
    requires Ready(map[], ids, up) && Carries(all, up) && AllResolved(up)
    ensures var h := CampaignHandler(Search(all, PAGE_SIZE));
            && Groups(map[], ids, h, h).Some?
            && (Translation(Groups(map[], ids, h, h).value) == UpstreamMapping(ids, up) <==> |KnownAmong(ids, up)| <= 60)
  {
    CampaignTranslationIff(map[], ids, all, PAGE_SIZE, up);
    assert Unlinked(map[], ids, up) == KnownAmong(ids, up) && HalfLinked(map[], ids, up) == {};
  }
}
