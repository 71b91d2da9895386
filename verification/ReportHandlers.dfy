/** The handlers the report translation calls for missing campaign and ad group ids, and when they answer what they are asked. */
module ReportHandlers {
  import opened Options
  import opened JsonIds
  import opened PyDict
  import opened ReportTranslation

  function Page<T>(response: Option<seq<T>>): seq<T> {
    if response.None? then [] else response.value
  }

  // ---- Campaigns: one search answers both missing long and missing short ids ----

  const KODDI_PARTNER := "KODDI_CAMPAIGN_ID"

  datatype ExternalId = ExternalId(partner: string, id: Option<int>)

  datatype Campaign = Campaign(id: string, shortId: Option<nat>, externalIds: seq<ExternalId>)

  // The first external id of the Koddi partner.
  function KoddiExternalId(externalIds: seq<ExternalId>): Option<ExternalId> {
    if externalIds == [] then None
    else if externalIds[0].partner == KODDI_PARTNER then Some(externalIds[0])
    else KoddiExternalId(externalIds[1..])
  }

  function KoddiOf(campaign: Campaign): Option<Id> {
    var external := KoddiExternalId(campaign.externalIds);
    if external.Some? && external.value.id.Some? then Some(Number(external.value.id.value)) else None
  }

  // The partner is named but the id is missing: no group can be made of it.
  predicate Unfit(campaign: Campaign) {
    KoddiExternalId(campaign.externalIds).Some? && KoddiOf(campaign).None?
  }

  function GroupOf(campaign: Campaign): IdGroup {
    IdGroup(Some(campaign.id), campaign.shortId)
  }

  function CampaignGroups(campaigns: seq<Campaign>): Option<GroupDict> {
    if campaigns == [] then Some(Empty())
    else
      var last := campaigns[|campaigns| - 1];
      var groups := CampaignGroups(campaigns[..|campaigns| - 1]);
      if groups.None? || Unfit(last) then None
      else if KoddiOf(last).None? then groups
      else Some(Put(groups.value, KoddiOf(last).value, GroupOf(last)))
  }

  // ---- A campaign's Koddi id, by place ----

  // Place i is the first with the Koddi partner.
  ghost predicate StandsFirst(externalIds: seq<ExternalId>, i: nat) {
    i < |externalIds| && externalIds[i].partner == "KODDI_CAMPAIGN_ID" && forall j :: 0 <= j < i ==> externalIds[j].partner != "KODDI_CAMPAIGN_ID"
  }

  // The external id found is the one that stands first, and none is found exactly when none has the partner.
  lemma {:induction false} KoddiExternalIdStandsFirst(externalIds: seq<ExternalId>)
    ensures forall e :: KoddiExternalId(externalIds) == Some(e) <==> exists i: nat :: StandsFirst(externalIds, i) && externalIds[i] == e
    ensures KoddiExternalId(externalIds) == None <==> forall i :: 0 <= i < |externalIds| ==> externalIds[i].partner != "KODDI_CAMPAIGN_ID"
  {
    if externalIds != [] {
      KoddiExternalIdStandsFirst(externalIds[1..]);
      forall e ensures KoddiExternalId(externalIds) == Some(e) <==> exists i: nat :: StandsFirst(externalIds, i) && externalIds[i] == e {
        StandsFirstAfter(externalIds, e);
      }
      if forall i :: 0 <= i < |externalIds| ==> externalIds[i].partner != "KODDI_CAMPAIGN_ID" {
        assert externalIds[0].partner != "KODDI_CAMPAIGN_ID";
      }
    }
  }

  lemma StandsFirstAfter(externalIds: seq<ExternalId>, e: ExternalId)
    requires externalIds != []
    ensures (exists i: nat :: StandsFirst(externalIds, i) && externalIds[i] == e)
            <==> if externalIds[0].partner == "KODDI_CAMPAIGN_ID" then externalIds[0] == e
                 else exists i: nat :: StandsFirst(externalIds[1..], i) && externalIds[1..][i] == e
  {
    var rest := externalIds[1..];
    if externalIds[0].partner == "KODDI_CAMPAIGN_ID" {
      assert StandsFirst(externalIds, 0);
    } else {
      if i: nat :| StandsFirst(externalIds, i) && externalIds[i] == e {
        assert forall j :: 0 <= j < i - 1 ==> rest[j] == externalIds[j + 1];
        assert StandsFirst(rest, i - 1) && rest[i - 1] == e;
      }
      if i: nat :| StandsFirst(rest, i) && rest[i] == e {
        assert forall j :: 1 <= j < i + 1 ==> externalIds[j] == rest[j - 1];
        assert StandsFirst(externalIds, i + 1) && externalIds[i + 1] == e;
      }
    }
  }

  // The number of the campaign's first external id with the Koddi partner; a campaign may also lack the number there.
  ghost predicate Names(campaign: Campaign, n: int) {
    exists i: nat :: StandsFirst(campaign.externalIds, i) && campaign.externalIds[i].id == Some(n)
  }

  ghost predicate LacksNumber(campaign: Campaign) {
    exists i: nat :: StandsFirst(campaign.externalIds, i) && campaign.externalIds[i].id == None
  }

  lemma NamesIsKoddiOf(campaign: Campaign)
    ensures forall n :: Names(campaign, n) <==> KoddiOf(campaign) == Some(Number(n))
    ensures LacksNumber(campaign) <==> Unfit(campaign)
  {
    KoddiExternalIdStandsFirst(campaign.externalIds);
    var external := KoddiExternalId(campaign.externalIds);
    if external.Some? {
      var i: nat :| StandsFirst(campaign.externalIds, i) && campaign.externalIds[i] == external.value;
      assert forall j: nat :: StandsFirst(campaign.externalIds, j) ==> j == i;
    }
  }

  // Campaign i is the last on the page that names n.
  ghost predicate NamesLast(page: seq<Campaign>, i: nat, n: int) {
    i < |page| && Names(page[i], n) && forall j :: i < j < |page| ==> !Names(page[j], n)
  }

  ghost predicate SomeLacksNumber(page: seq<Campaign>) {
    exists i :: 0 <= i < |page| && LacksNumber(page[i])
  }

  ghost predicate Named(page: seq<Campaign>, n: int) {
    exists i: nat :: NamesLast(page, i, n)
  }

  // The keys are exactly the numbers that campaigns name, and each has the ids of the last campaign that names it.
  ghost predicate FiledByLast(page: seq<Campaign>, groups: GroupDict) {
    && (forall k :: k in groups.keys <==> k in groups.at)
    && (forall k :: k in groups.at <==> k.Number? && Named(page, k.n))
    && (forall i: nat, n :: NamesLast(page, i, n) ==>
          Number(n) in groups.at && groups.at[Number(n)] == IdGroup(Some(page[i].id), page[i].shortId))
  }

  // What becomes of a page: nothing when some campaign lacks its number, and otherwise the groups just said.
  ghost predicate GroupsOfPage(page: seq<Campaign>, r: Option<GroupDict>) {
    (r.None? <==> SomeLacksNumber(page)) && (r.Some? ==> FiledByLast(page, r.value))
  }

  lemma {:induction false} CampaignGroupsOfPage(page: seq<Campaign>)
    ensures GroupsOfPage(page, CampaignGroups(page))
  {
    if page != [] {
      var rest, last := page[..|page| - 1], page[|page| - 1];
      CampaignGroupsOfPage(rest);
      NamesIsKoddiOf(last);
      LackingSnoc(page);
      var groups := CampaignGroups(rest);
      if groups.Some? && !Unfit(last) {
        if KoddiOf(last).None? {
          UnnamedSnoc(page, last, groups.value);
        } else {
          NamedSnoc(page, last, groups.value, KoddiOf(last).value.n);
        }
      }
    }
  }

  lemma LackingSnoc(page: seq<Campaign>)
    requires page != []
    ensures SomeLacksNumber(page) <==> SomeLacksNumber(page[..|page| - 1]) || LacksNumber(page[|page| - 1])
  {
    var rest := page[..|page| - 1];
    if SomeLacksNumber(rest) {
      var i :| 0 <= i < |rest| && LacksNumber(rest[i]);
      assert LacksNumber(page[i]);
    }
    if SomeLacksNumber(page) {
      var i :| 0 <= i < |page| && LacksNumber(page[i]);
      assert i < |rest| ==> rest[i] == page[i];
    }
  }

  lemma UnnamedSnoc(page: seq<Campaign>, last: Campaign, groups: GroupDict)
    requires page != [] && page[|page| - 1] == last && FiledByLast(page[..|page| - 1], groups) && forall n :: !Names(last, n)
    ensures FiledByLast(page, groups)
  {
    var rest := page[..|page| - 1];
    forall i: nat, n ensures NamesLast(page, i, n) <==> NamesLast(rest, i, n) {
      LastNaming(page, i, n);
    }
    forall n ensures Named(page, n) <==> Named(rest, n) {
      if Named(rest, n) {
        var i: nat :| NamesLast(rest, i, n);
        assert NamesLast(page, i, n);
      }
    }
  }

  lemma NamedSnoc(page: seq<Campaign>, last: Campaign, groups: GroupDict, m: int)
    requires page != [] && page[|page| - 1] == last && FiledByLast(page[..|page| - 1], groups) && forall n :: Names(last, n) <==> n == m
    ensures FiledByLast(page, Put(groups, Number(m), IdGroup(Some(last.id), last.shortId)))
  {
    var rest := page[..|page| - 1];
    var all := Put(groups, Number(m), IdGroup(Some(last.id), last.shortId));
    forall i: nat, n ensures NamesLast(page, i, n) <==> if n == m then i == |page| - 1 else NamesLast(rest, i, n) {
      LastNaming(page, i, n);
    }
    forall n ensures Named(page, n) <==> n == m || Named(rest, n) {
      if n == m {
        assert NamesLast(page, |page| - 1, n);
      } else if Named(rest, n) {
        var i: nat :| NamesLast(rest, i, n);
        assert NamesLast(page, i, n);
      }
    }
    forall i: nat, n | NamesLast(page, i, n)
      ensures Number(n) in all.at && all.at[Number(n)] == IdGroup(Some(page[i].id), page[i].shortId)
    {
      if n != m {
        assert NamesLast(rest, i, n) && rest[i] == page[i];
      }
    }
  }

  lemma LastNaming(page: seq<Campaign>, i: nat, n: int)
    requires page != []
    ensures NamesLast(page, i, n) <==> if Names(page[|page| - 1], n) then i == |page| - 1 else NamesLast(page[..|page| - 1], i, n)
  {
    var rest, last := page[..|page| - 1], page[|page| - 1];
    if NamesLast(page, i, n) && i < |rest| {
      assert !Names(page[|rest|], n);
      assert forall j :: 0 <= j < |rest| ==> rest[j] == page[j];
    }
    if NamesLast(rest, i, n) && !Names(last, n) {
      forall j | i < j < |page| ensures !Names(page[j], n) {
        assert j < |rest| ==> page[j] == rest[j];
      }
    }
  }

  // search answers the page of campaigns for the Koddi ids, or None when upstream says not found.
  method HandleMissingCampaignIds(missing: seq<Id>, search: seq<Id> -> Option<seq<Campaign>>) returns (r: Option<GroupDict>)
    ensures GroupsOfPage(if search(missing).None? then [] else search(missing).value, r)
    ensures r == CampaignGroups(Page(search(missing)))
  {
    CampaignGroupsOfPage(Page(search(missing)));
    r := HandleCampaignPage(search(missing));
  }

  method HandleCampaignPage(response: Option<seq<Campaign>>) returns (r: Option<GroupDict>)
    ensures r == CampaignGroups(Page(response))
  {
    var groups: GroupDict := Empty();
    if response.None? {
      return Some(groups);
    }
    for i := 0 to |response.value|
      invariant CampaignGroups(response.value[..i]) == Some(groups)
    {
      var campaign := response.value[i];
      CampaignStep(response.value, i);
      var external := FindKoddi(campaign.externalIds);
      if external.Some? {
        if external.value.id.None? {
          NoGroups(response.value, i + 1);
          return None;
        }
        groups := Put(groups, Number(external.value.id.value), IdGroup(Some(campaign.id), campaign.shortId));
      }
    }
    assert response.value[..|response.value|] == response.value;
    r := Some(groups);
  }

  lemma CampaignStep(campaigns: seq<Campaign>, i: nat)
    requires i < |campaigns| && CampaignGroups(campaigns[..i]).Some?
    ensures CampaignGroups(campaigns[..i + 1])
            == if Unfit(campaigns[i]) then None
               else if KoddiOf(campaigns[i]).None? then CampaignGroups(campaigns[..i])
               else Some(Put(CampaignGroups(campaigns[..i]).value, KoddiOf(campaigns[i]).value, GroupOf(campaigns[i])))
  {
    assert campaigns[..i + 1][..i] == campaigns[..i];
  }

  method FindKoddi(externalIds: seq<ExternalId>) returns (external: Option<ExternalId>)
    ensures external == KoddiExternalId(externalIds)
  {
    for j := 0 to |externalIds|
      invariant KoddiExternalId(externalIds) == KoddiExternalId(externalIds[j..])
    {
      if externalIds[j].partner == KODDI_PARTNER {
        return Some(externalIds[j]);
      }
    }
    external := None;
  }

  lemma {:induction false} NoGroups(campaigns: seq<Campaign>, n: nat)
    requires n <= |campaigns| && CampaignGroups(campaigns[..n]).None?
    ensures CampaignGroups(campaigns).None?
    decreases |campaigns| - n
  {
    if n < |campaigns| {
      assert campaigns[..n + 1][..n] == campaigns[..n];
      NoGroups(campaigns, n + 1);
    } else {
      assert campaigns[..n] == campaigns;
    }
  }

  function CampaignHandler(search: seq<Id> -> Option<seq<Campaign>>): Handler {
    (missing, groups) => CampaignGroups(Page(search(missing)))
  }

  // The campaign has a Koddi id that upstream knows, and its true ids.
  ghost predicate TrueCampaign(campaign: Campaign, up: Upstream) {
    KoddiOf(campaign).Some? && KoddiOf(campaign).value in up.longOf && GroupOf(campaign) == Truth(up, KoddiOf(campaign).value)
  }

  ghost predicate OnPage(page: seq<Campaign>, k: Id) {
    exists i :: 0 <= i < |page| && KoddiOf(page[i]) == Some(k)
  }

  // The groups made of true campaigns are the true groups of exactly the Koddi ids on the page.
  lemma {:induction false} CampaignGroupsAreTrue(page: seq<Campaign>, up: Upstream)
    requires forall i :: 0 <= i < |page| ==> TrueCampaign(page[i], up)
    ensures CampaignGroups(page).Some?
    ensures var groups := CampaignGroups(page).value;
            && Valid(groups)
            && (forall k :: k in groups.at ==> k in up.longOf && groups.at[k] == Truth(up, k))
            && (forall k :: k in groups.at <==> OnPage(page, k))
  {
    if page != [] {
      var rest, last := page[..|page| - 1], page[|page| - 1];
      CampaignGroupsAreTrue(rest, up);
      assert TrueCampaign(last, up);
      forall k: Id ensures OnPage(page, k) <==> OnPage(rest, k) || KoddiOf(last) == Some(k) {
        OnLongerPage(page, k);
      }
    }
  }

  lemma OnLongerPage(page: seq<Campaign>, k: Id)
    requires page != []
    ensures OnPage(page, k) <==> OnPage(page[..|page| - 1], k) || KoddiOf(page[|page| - 1]) == Some(k)
  {
    var rest := page[..|page| - 1];
    if OnPage(rest, k) {
      var i :| 0 <= i < |rest| && KoddiOf(rest[i]) == Some(k);
      assert page[i] == rest[i];
    }
    if OnPage(page, k) {
      var i :| 0 <= i < |page| && KoddiOf(page[i]) == Some(k);
      assert i < |rest| ==> rest[i] == page[i];
    }
  }

  // When the page holds true campaigns for ids asked for, and nothing else, the handler answers what it is asked if
  // and only if the page holds every one upstream knows.
  lemma CampaignHandlerAnswersIff(search: seq<Id> -> Option<seq<Campaign>>, missing: seq<Id>, groups: GroupDict, up: Upstream)
    requires var page := Page(search(missing));
             forall i :: 0 <= i < |page| ==> TrueCampaign(page[i], up) && KoddiOf(page[i]).value in missing
    ensures Answers(CampaignHandler(search), missing, groups, up)
            <==> forall k :: k in missing && k in up.longOf ==> OnPage(Page(search(missing)), k)
  {
    CampaignGroupsAreTrue(Page(search(missing)), up);
  }

  // ---- Ad groups ----

  // koddi is what the untyped external ids have under "KODDI", if anything.
  datatype Activation = Activation(id: string, shortId: Option<nat>, koddi: Option<Id>)

  function ActivationGroup(activation: Activation): IdGroup {
    IdGroup(Some(activation.id), activation.shortId)
  }

  // fetch answers the activations of one Koddi id, or None when upstream says not found.
  function AdGroupLongGroups(missing: seq<Id>, fetch: Id -> Option<seq<Activation>>): GroupDict {
    if missing == [] then Empty()
    else
      var k, groups := missing[|missing| - 1], AdGroupLongGroups(missing[..|missing| - 1], fetch);
      var activations := Page(fetch(k));
      if activations == [] then groups else Put(groups, k, ActivationGroup(activations[0]))
  }

  // There is a group for exactly the ids with an activation, and it has the ids of the first one.
  method HandleMissingAdGroupLongIds(missing: seq<Id>, fetch: Id -> Option<seq<Activation>>) returns (groups: GroupDict)
    ensures forall k :: k in groups.keys <==> k in groups.at
    ensures forall k :: k in groups.at <==> k in missing && fetch(k).Some? && |fetch(k).value| > 0
    ensures forall k :: k in groups.at ==> groups.at[k] == IdGroup(Some(fetch(k).value[0].id), fetch(k).value[0].shortId)
    ensures groups == AdGroupLongGroups(missing, fetch)
  {
    AdGroupLongGroupsAt(missing, fetch);
    groups := Empty();
    for i := 0 to |missing|
      invariant groups == AdGroupLongGroups(missing[..i], fetch)
    {
      var k := missing[i];
      assert missing[..i + 1][..i] == missing[..i];
      var response := fetch(k);
      if response.Some? && |response.value| != 0 {
        var activation := response.value[0];
        groups := Put(groups, k, IdGroup(Some(activation.id), activation.shortId));
      }
    }
    assert missing[..|missing|] == missing;
  }

  function AdGroupLongHandler(fetch: Id -> Option<seq<Activation>>): Handler {
    (missing, groups) => Some(AdGroupLongGroups(missing, fetch))
  }

  lemma {:induction false} AdGroupLongGroupsAt(missing: seq<Id>, fetch: Id -> Option<seq<Activation>>)
    ensures var groups := AdGroupLongGroups(missing, fetch);
            && Valid(groups) && (forall k :: k in groups.keys <==> k in groups.at)
            && (forall k :: k in groups.at <==> k in missing && Page(fetch(k)) != [])
            && (forall k :: k in groups.at ==> groups.at[k] == ActivationGroup(Page(fetch(k))[0]))
  {
    if missing != [] {
      var rest := missing[..|missing| - 1];
      AdGroupLongGroupsAt(rest, fetch);
      assert missing == rest + [missing[|missing| - 1]];
    }
  }

  // Upstream's first activation for the Koddi id is the true one, and there is none for an id it does not know.
  ghost predicate FetchedTruly(fetch: Id -> Option<seq<Activation>>, k: Id, up: Upstream) {
    var activations := Page(fetch(k));
    if k in up.longOf then activations != [] && ActivationGroup(activations[0]) == Truth(up, k) else activations == []
  }

  // The handler for long ids answers what it is asked if and only if each of these ids is fetched truly.
  lemma AdGroupLongHandlerAnswersIff(fetch: Id -> Option<seq<Activation>>, missing: seq<Id>, groups: GroupDict, up: Upstream)
    ensures Answers(AdGroupLongHandler(fetch), missing, groups, up) <==> forall k :: k in missing ==> FetchedTruly(fetch, k, up)
  {
    AdGroupLongGroupsAt(missing, fetch);
  }

  // The long ids of the groups that have one.
  function LongsToFetch(missing: seq<Id>, groups: GroupDict): seq<string> {
    if missing == [] then []
    else
      var k := missing[|missing| - 1];
      LongsToFetch(missing[..|missing| - 1], groups)
      + if k in groups.at && HasLong(groups.at[k]) then [groups.at[k].longId.value] else []
  }

  // A group can be made of a Koddi id that is a number or spells one.
  predicate Readable(koddi: Option<Id>, spellsNumber: string -> bool) {
    koddi.Some? && (koddi.value.Word? ==> spellsNumber(koddi.value.t))
  }

  // The groups, each filed under the Koddi id as it stands in the activation; None when no group can be made of one.
  function ActivationGroups(activations: seq<Activation>, spellsNumber: string -> bool): Option<GroupDict> {
    if activations == [] then Some(Empty())
    else
      var last := activations[|activations| - 1];
      var groups := ActivationGroups(activations[..|activations| - 1], spellsNumber);
      if groups.None? || !Readable(last.koddi, spellsNumber) then None
      else Some(Put(groups.value, last.koddi.value, ActivationGroup(last)))
  }

  // What is fetched: nothing when no long id is known.
  function Fetched(missing: seq<Id>, groups: GroupDict, fetchAll: seq<string> -> Option<seq<Activation>>): seq<Activation> {
    if LongsToFetch(missing, groups) == [] then [] else Page(fetchAll(LongsToFetch(missing, groups)))
  }

  // It fails on an activation whose Koddi id is no number and spells none; otherwise the last activation of each id counts.
  method HandleMissingAdGroupShortIds(missing: seq<Id>, groups: GroupDict, fetchAll: seq<string> -> Option<seq<Activation>>,
                                      spellsNumber: string -> bool) returns (r: Option<GroupDict>)
    ensures r.Some? <==> AllReadable(Fetched(missing, groups, fetchAll), spellsNumber)
    ensures r.Some? ==> Files(r.value, Fetched(missing, groups, fetchAll))
    ensures r == ActivationGroups(Fetched(missing, groups, fetchAll), spellsNumber)
  {
    ActivationGroupsAt(Fetched(missing, groups, fetchAll), spellsNumber);
    var longs := KnownLongs(missing, groups);
    if longs == [] {
      return Some(Empty());
    }
    var response := fetchAll(longs);
    if response.None? {
      return Some(Empty());
    }
    var found: GroupDict := Empty();
    for i := 0 to |response.value|
      invariant ActivationGroups(response.value[..i], spellsNumber) == Some(found)
    {
      var activation := response.value[i];
      assert response.value[..i + 1][..i] == response.value[..i];
      if !Readable(activation.koddi, spellsNumber) {
        UnreadableFails(response.value, i + 1, spellsNumber);
        return None;
      }
      found := Put(found, activation.koddi.value, IdGroup(Some(activation.id), activation.shortId));
    }
    assert response.value[..|response.value|] == response.value;
    r := Some(found);
  }

  method KnownLongs(missing: seq<Id>, groups: GroupDict) returns (longs: seq<string>)
    ensures longs == LongsToFetch(missing, groups)
  {
    longs := [];
    for i := 0 to |missing|
      invariant longs == LongsToFetch(missing[..i], groups)
    {
      assert missing[..i + 1][..i] == missing[..i];
      if missing[i] in groups.at && HasLong(groups.at[missing[i]]) {
        longs := longs + [groups.at[missing[i]].longId.value];
      }
    }
    assert missing[..|missing|] == missing;
  }

  lemma {:induction false} UnreadableFails(activations: seq<Activation>, n: nat, spellsNumber: string -> bool)
    requires n <= |activations| && ActivationGroups(activations[..n], spellsNumber).None?
    ensures ActivationGroups(activations, spellsNumber).None?
    decreases |activations| - n
  {
    if n < |activations| {
      assert activations[..n + 1][..n] == activations[..n];
      UnreadableFails(activations, n + 1, spellsNumber);
    } else {
      assert activations[..n] == activations;
    }
  }

  function AdGroupShortHandler(fetchAll: seq<string> -> Option<seq<Activation>>, spellsNumber: string -> bool): Handler {
    (missing, groups) => ActivationGroups(Fetched(missing, groups, fetchAll), spellsNumber)
  }

  ghost predicate Filed(activations: seq<Activation>, k: Id) {
    exists i :: 0 <= i < |activations| && activations[i].koddi == Some(k)
  }

  // The groups are filed under exactly the Koddi ids of the activations, each with the ids of the last that has it.
  ghost predicate Files(groups: GroupDict, activations: seq<Activation>) {
    && (forall k :: k in groups.keys <==> k in groups.at)
    && (forall k :: k in groups.at <==> Filed(activations, k))
    && (forall k :: k in groups.at ==> FiledAs(activations, k, groups.at[k]))
  }

  ghost predicate FiledAs(activations: seq<Activation>, k: Id, group: IdGroup) {
    exists i :: 0 <= i < |activations| && IsLast(activations, i, k) && group == IdGroup(Some(activations[i].id), activations[i].shortId)
  }

  ghost predicate IsLast(activations: seq<Activation>, i: nat, k: Id) {
    i < |activations| && activations[i].koddi == Some(k) && forall j :: i < j < |activations| ==> activations[j].koddi != Some(k)
  }

  ghost predicate AllReadable(activations: seq<Activation>, spellsNumber: string -> bool) {
    forall i :: 0 <= i < |activations| ==>
      activations[i].koddi.Some? && (activations[i].koddi.value.Number? || spellsNumber(activations[i].koddi.value.t))
  }

  lemma {:induction false} ActivationGroupsAt(activations: seq<Activation>, spellsNumber: string -> bool)
    ensures ActivationGroups(activations, spellsNumber).Some? <==> AllReadable(activations, spellsNumber)
    ensures ActivationGroups(activations, spellsNumber).Some? ==> Files(ActivationGroups(activations, spellsNumber).value, activations)
  {
    if activations != [] {
      var rest, last := activations[..|activations| - 1], activations[|activations| - 1];
      ActivationGroupsAt(rest, spellsNumber);
      ReadableSnoc(activations, spellsNumber);
      if ActivationGroups(activations, spellsNumber).Some? {
        LastActivation(activations, ActivationGroups(rest, spellsNumber).value);
      }
    }
  }

  lemma ReadableSnoc(activations: seq<Activation>, spellsNumber: string -> bool)
    requires activations != []
    ensures AllReadable(activations, spellsNumber)
            <==> AllReadable(activations[..|activations| - 1], spellsNumber) && Readable(activations[|activations| - 1].koddi, spellsNumber)
  {
    var rest := activations[..|activations| - 1];
    if AllReadable(rest, spellsNumber) && Readable(activations[|rest|].koddi, spellsNumber) {
      forall i | 0 <= i < |activations| ensures Readable(activations[i].koddi, spellsNumber) {
        assert i < |rest| ==> rest[i] == activations[i];
      }
      assert forall i :: 0 <= i < |activations| ==> Readable(activations[i].koddi, spellsNumber);
    }
  }

  lemma LastActivation(activations: seq<Activation>, groups: GroupDict)
    requires activations != [] && activations[|activations| - 1].koddi.Some? && Files(groups, activations[..|activations| - 1])
    ensures var last := activations[|activations| - 1];
            Files(Put(groups, last.koddi.value, ActivationGroup(last)), activations)
  {
    var rest, last := activations[..|activations| - 1], activations[|activations| - 1];
    var all := Put(groups, last.koddi.value, ActivationGroup(last));
    forall k ensures k in all.at <==> Filed(activations, k) {
      FiledSnoc(activations, k);
    }
    forall k | k in all.at ensures FiledAs(activations, k, all.at[k]) {
      FiledAsSnoc(activations, k, all.at[k]);
      assert k != last.koddi.value ==> FiledAs(rest, k, groups.at[k]);
    }
  }

  lemma FiledSnoc(activations: seq<Activation>, k: Id)
    requires activations != []
    ensures Filed(activations, k) <==> Filed(activations[..|activations| - 1], k) || activations[|activations| - 1].koddi == Some(k)
  {
    var rest := activations[..|activations| - 1];
    if Filed(rest, k) {
      var i :| 0 <= i < |rest| && rest[i].koddi == Some(k);
      assert activations[i].koddi == Some(k);
    }
    if Filed(activations, k) {
      var i :| 0 <= i < |activations| && activations[i].koddi == Some(k);
      assert i < |rest| ==> rest[i] == activations[i];
    }
  }

  lemma FiledAsSnoc(activations: seq<Activation>, k: Id, group: IdGroup)
    requires activations != []
    ensures var rest, last := activations[..|activations| - 1], activations[|activations| - 1];
            (if last.koddi == Some(k) then group == ActivationGroup(last) else FiledAs(rest, k, group)) ==> FiledAs(activations, k, group)
  {
    var rest, last := activations[..|activations| - 1], activations[|activations| - 1];
    if last.koddi == Some(k) {
      assert IsLast(activations, |rest|, k);
    } else if FiledAs(rest, k, group) {
      var i :| 0 <= i < |rest| && IsLast(rest, i, k) && group == IdGroup(Some(rest[i].id), rest[i].shortId);
      assert forall j :: 0 <= j < |rest| ==> activations[j] == rest[j];
      assert IsLast(activations, i, k);
    }
  }

  lemma {:induction false} LongsOfTheMissing(missing: seq<Id>, groups: GroupDict, up: Upstream)
    requires WellFormed(up) && Known(groups, up) && LongsKnown(groups, up) && forall k :: k in missing ==> k in groups.at
    ensures forall l :: l in LongsToFetch(missing, groups) <==> exists k :: k in missing && k in up.longOf && up.longOf[k] == l
  {
    if missing != [] {
      var rest, k := missing[..|missing| - 1], missing[|missing| - 1];
      assert missing == rest + [k];
      LongsOfTheMissing(rest, groups, up);
    }
  }

  // The activation is that of k, whatever it has for a Koddi id unless that is another number.
  ghost predicate ActivationOf(activation: Activation, k: Id, up: Upstream) {
    && k in up.longOf && ActivationGroup(activation) == Truth(up, k)
    && (activation.koddi.Some? && activation.koddi.value.Number? ==> activation.koddi.value == k)
  }

  ghost predicate ActivationOfOne(activation: Activation, missing: seq<Id>, up: Upstream) {
    exists k :: k in missing && ActivationOf(activation, k, up)
  }

  ghost predicate HasActivation(activations: seq<Activation>, k: Id, up: Upstream) {
    exists i :: 0 <= i < |activations| && ActivationOf(activations[i], k, up)
  }

  // Every missing id that upstream knows is answered with its activation, and nothing else is.
  ghost predicate FetchedAll(activations: seq<Activation>, missing: seq<Id>, up: Upstream) {
    && (forall i :: 0 <= i < |activations| ==> ActivationOfOne(activations[i], missing, up))
    && (forall k :: k in missing && k in up.longOf ==> HasActivation(activations, k, up))
  }

  ghost predicate Numbered(activations: seq<Activation>) {
    forall i :: 0 <= i < |activations| ==> activations[i].koddi.Some? && activations[i].koddi.value.Number?
  }

  // Even when upstream answers every long id, the handler for short ids answers what it is asked if and only if every
  // activation carries its Koddi id as a number: a text files the group under a key nobody asked for.
  lemma AdGroupShortHandlerAnswersIff(fetchAll: seq<string> -> Option<seq<Activation>>, spellsNumber: string -> bool,
                                      missing: seq<Id>, groups: GroupDict, up: Upstream)
    requires WellFormed(up) && FetchedAll(Fetched(missing, groups, fetchAll), missing, up)
    ensures Answers(AdGroupShortHandler(fetchAll, spellsNumber), missing, groups, up) <==> Numbered(Fetched(missing, groups, fetchAll))
  {
    var activations := Fetched(missing, groups, fetchAll);
    ActivationGroupsAt(activations, spellsNumber);
    if Numbered(activations) {
      assert AllReadable(activations, spellsNumber);
      NumberedIsExact(activations, ActivationGroups(activations, spellsNumber).value, missing, up);
    }
    if ActivationGroups(activations, spellsNumber).Some? {
      ExactIsNumbered(activations, ActivationGroups(activations, spellsNumber).value, missing, up, spellsNumber);
    }
  }

  lemma ExactIsNumbered(activations: seq<Activation>, groups: GroupDict, missing: seq<Id>, up: Upstream, spellsNumber: string -> bool)
    requires WellFormed(up) && Files(groups, activations) && AllReadable(activations, spellsNumber)
    ensures Exact(groups, missing, up) ==> Numbered(activations)
  {
    if Exact(groups, missing, up) {
      forall i | 0 <= i < |activations| ensures activations[i].koddi.Some? && activations[i].koddi.value.Number? {
        assert Readable(activations[i].koddi, spellsNumber);
        assert Filed(activations, activations[i].koddi.value);
      }
    }
  }

  lemma NumberedIsExact(activations: seq<Activation>, groups: GroupDict, missing: seq<Id>, up: Upstream)
    requires FetchedAll(activations, missing, up) && Numbered(activations) && Files(groups, activations)
    ensures Exact(groups, missing, up)
  {
    forall k | k in groups.at ensures k in missing && k in up.longOf && groups.at[k] == Truth(up, k) {
      assert FiledAs(activations, k, groups.at[k]);
      var i :| 0 <= i < |activations| && IsLast(activations, i, k) && groups.at[k] == IdGroup(Some(activations[i].id), activations[i].shortId);
      assert ActivationOfOne(activations[i], missing, up);
      var j :| j in missing && ActivationOf(activations[i], j, up);
    }
    forall k | k in missing && k in up.longOf ensures k in groups.at {
      assert HasActivation(activations, k, up);
      var i :| 0 <= i < |activations| && ActivationOf(activations[i], k, up);
      assert activations[i].koddi == Some(k);
    }
  }

  // Upstream answers the long ids with their activations, and no other.
  ghost predicate AnswersLongs(activations: seq<Activation>, longs: seq<string>, up: Upstream) {
    && (forall i :: 0 <= i < |activations| ==> ActivationOfLong(activations[i], longs, up))
    && (forall k :: k in up.longOf && up.longOf[k] in longs ==> HasActivation(activations, k, up))
  }

  ghost predicate ActivationOfLong(activation: Activation, longs: seq<string>, up: Upstream) {
    exists k :: ActivationOf(activation, k, up) && up.longOf[k] in longs
  }

  // When the long ids of the missing are known and upstream answers those it is asked for, all is fetched.
  lemma AnsweringLongIdsFetchesAll(fetchAll: seq<string> -> Option<seq<Activation>>, missing: seq<Id>, groups: GroupDict, up: Upstream)
    requires WellFormed(up) && Known(groups, up) && LongsKnown(groups, up) && forall k :: k in missing ==> k in groups.at
    requires forall j, k :: j in up.longOf && k in up.longOf && up.longOf[j] == up.longOf[k] ==> j == k
    requires AnswersLongs(Page(fetchAll(LongsToFetch(missing, groups))), LongsToFetch(missing, groups), up)
    ensures FetchedAll(Fetched(missing, groups, fetchAll), missing, up)
  {
    var longs := LongsToFetch(missing, groups);
    LongsOfTheMissing(missing, groups, up);
    AnswersFetchAll(Fetched(missing, groups, fetchAll), longs, missing, up);
  }

  lemma AnswersFetchAll(activations: seq<Activation>, longs: seq<string>, missing: seq<Id>, up: Upstream)
    requires AnswersLongs(activations, longs, up)
    requires forall j, k :: j in up.longOf && k in up.longOf && up.longOf[j] == up.longOf[k] ==> j == k
    requires forall l :: l in longs <==> exists k :: k in missing && k in up.longOf && up.longOf[k] == l
    ensures FetchedAll(activations, missing, up)
  {
    forall i | 0 <= i < |activations| ensures ActivationOfOne(activations[i], missing, up) {
      assert ActivationOfLong(activations[i], longs, up);
      var k :| ActivationOf(activations[i], k, up) && up.longOf[k] in longs;
      var j :| j in missing && j in up.longOf && up.longOf[j] == up.longOf[k];
      assert j == k;
    }
    forall k | k in missing && k in up.longOf ensures HasActivation(activations, k, up) {
      assert up.longOf[k] in longs;
    }
  }

  // One activation that has its Koddi id as text: the number asked for stays without a group, and the text gets one.
  lemma TextIdGoesAstray(n: int, text: string, long: string, short: nat, spellsNumber: string -> bool)
    requires spellsNumber(text) && long != ""
    ensures var groups := Dict([Number(n)], map[Number(n) := IdGroup(Some(long), None)]);
            var fetchAll := (longs: seq<string>) => Some([Activation(long, Some(short), Some(Word(text)))]);
            AdGroupShortHandler(fetchAll, spellsNumber)([Number(n)], groups)
            == Some(Dict([Word(text)], map[Word(text) := IdGroup(Some(long), Some(short))]))
  {
    var groups := Dict([Number(n)], map[Number(n) := IdGroup(Some(long), None)]);
    OneLong([Number(n)], groups);
    OneActivation(Activation(long, Some(short), Some(Word(text))), spellsNumber);
  }

  lemma OneLong(missing: seq<Id>, groups: GroupDict)
    requires |missing| == 1 && missing[0] in groups.at && HasLong(groups.at[missing[0]])
    ensures LongsToFetch(missing, groups) == [groups.at[missing[0]].longId.value]
  {
    assert missing[..0] == [] && LongsToFetch(missing[..0], groups) == [];
  }

  lemma OneActivation(activation: Activation, spellsNumber: string -> bool)
    requires Readable(activation.koddi, spellsNumber)
    ensures ActivationGroups([activation], spellsNumber)
            == Some(Dict([activation.koddi.value], map[activation.koddi.value := ActivationGroup(activation)]))
  {
    assert [activation][..0] == [] && ActivationGroups([activation][..0], spellsNumber) == Some(Empty());
    assert Put(Empty(), activation.koddi.value, ActivationGroup(activation)).keys == [activation.koddi.value];
  }
}
