/** End dates of a campaign and its ad groups, over creates and updates. */
module CampaignDates {
  import opened Options
  import opened Calendar

  datatype AdGroupStatus = Draft | Scheduled | Active | Ended | Paused | Failed | UnderReview

  datatype BudgetType = Daily | Lifetime

  datatype Campaign = Campaign(start: Stamp, end: Option<Stamp>, draft: bool)

  datatype AdGroup = AdGroup(start: Stamp, end: Option<Stamp>, status: AdGroupStatus)

  datatype Rejection =
    | BeyondTwoYears | YearOutOfRange | MissingLifetimeEnd | RelatedAdGroupEnd
    | StatusNotForNew | StartsBeforeCampaign | EndsBeforeStart | EndsAfterCampaign | MissingEnd
    | NotFound | AlreadyEnded | KeywordsWithoutPlacement | MissingHeadline | UnwantedHeadline | ForbiddenTransition

  predicate Later(s: Stamp, t: Stamp) {
    !AtMost(s, t)
  }

  // ---- Campaign dates ----

  // Whether the end is before two years after the start; adding the years may fail.
  function WithinTwoYears(start: Stamp, end: Stamp): Option<Rejection> {
    var limit := Plus(start, 2);
    if limit.None? then Some(YearOutOfRange)
    else if AtMost(limit.value, end) then Some(BeyondTwoYears)
    else None
  }

  function ValidateDatesWithBudget(start: Stamp, end: Option<Stamp>, budget: BudgetType): Option<Rejection> {
    if end.Some? && WithinTwoYears(start, end.value).Some? then WithinTwoYears(start, end.value)
    else if budget == Lifetime && end.None? then Some(MissingLifetimeEnd)
    else None
  }

  // A dated campaign spans less than 731 days when it passes, and passes when it spans less than 730.
  lemma AcceptedSpan(start: Stamp, end: Stamp)
    requires ValidStamp(start) && ValidStamp(end)
    ensures WithinTwoYears(start, end).None? ==> Micros(end) - Micros(start) < 731 * DAY
    ensures InRange(start.date.year + 2) && Micros(end) - Micros(start) < 730 * DAY ==> WithinTwoYears(start, end).None?
  {
    if InRange(start.date.year + 2) {
      AddYearsIsValid(start.date, 2);
      TwoYearsLater(start.date);
      AtMostIsOnMicros(Plus(start, 2).value, end);
    }
  }

  // A new campaign passes if and only if any end lies before two years after its start, and a lifetime budget has an end.
  lemma NewCampaignPassesIff(start: Stamp, end: Option<Stamp>, budget: BudgetType)
    ensures ValidateDatesWithBudget(start, end, budget).None?
            <==> (end.Some? ==> Plus(start, 2).Some? && !AtMost(Plus(start, 2).value, end.value)) && (budget == Lifetime ==> end.Some?)
  {
  }

  predicate EndFits(g: AdGroup, reference: Stamp) {
    (g.status != Ended ==> g.end.Some?) && (g.end.Some? ==> AtMost(g.end.value, reference))
  }

  method RelatedAdGroupsHaveValidEndDate(groups: seq<AdGroup>, reference: Stamp) returns (valid: bool)
    ensures valid <==> forall i :: 0 <= i < |groups| ==> EndFits(groups[i], reference)
  {
    valid := true;
    for i := 0 to |groups|
      invariant valid <==> forall j :: 0 <= j < i ==> EndFits(groups[j], reference)
    {
      var g := groups[i];
      if (g.status != Ended && g.end.None?) || (g.end.Some? && Later(g.end.value, reference)) {
        valid := false;
      }
    }
  }

  // The ad groups are looked at only when the campaign has no end date yet.
  function DatesRejection(groups: seq<AdGroup>, campaign: Campaign, end: Option<Stamp>, start: Stamp): Option<Rejection> {
    if end.None? then None
    else if campaign.end.None? && !forall i :: 0 <= i < |groups| ==> EndFits(groups[i], end.value) then Some(RelatedAdGroupEnd)
    else WithinTwoYears(start, end.value)
  }

  method ValidateDatesWithAdGroups(groups: seq<AdGroup>, campaign: Campaign, end: Option<Stamp>, start: Stamp) returns (r: Option<Rejection>)
    ensures r == DatesRejection(groups, campaign, end, start)
  {
    if end.Some? {
      if campaign.end.None? {
        var valid := RelatedAdGroupsHaveValidEndDate(groups, end.value);
        if !valid {
          return Some(RelatedAdGroupEnd);
        }
      }
      var limit := Plus(start, 2);
      if limit.None? {
        return Some(YearOutOfRange);
      }
      if AtMost(limit.value, end.value) {
        return Some(BeyondTwoYears);
      }
    }
    r := None;
  }

  // ---- Ad group requests ----

  function ExtraValidations(g: AdGroup, isNew: bool, campaign: Campaign): Option<Rejection> {
    if isNew && g.status in {Ended, Paused, Failed} then Some(StatusNotForNew)
    else if Later(campaign.start, g.start) then Some(StartsBeforeCampaign)
    else if g.end.Some? then
      if Later(g.start, g.end.value) then Some(EndsBeforeStart)
      else if campaign.end.Some? && Later(g.end.value, campaign.end.value) then Some(EndsAfterCampaign)
      else None
    else if campaign.end.Some? then Some(MissingEnd)
    else None
  }

  // A new ad group also has to be a draft, scheduled or active.
  function CreateRejection(g: AdGroup, campaign: Campaign): Option<Rejection> {
    var r := ExtraValidations(g, true, campaign);
    if r.Some? then r
    else if g.status !in {Draft, Scheduled, Active} then Some(StatusNotForNew)
    else None
  }

  function Transitions(status: AdGroupStatus): set<AdGroupStatus> {
    match status
    case Draft => {Draft, Scheduled, Active}
    case Scheduled => {Scheduled, Active, Paused}
    case Paused => {Paused, Active}
    case Active => {Active, Paused}
    case UnderReview => {UnderReview}
    case _ => {}
  }

  // How far along an ad group is.
  function Progress(status: AdGroupStatus): nat {
    match status
    case Draft => 0
    case Scheduled => 1
    case Active => 2
    case Paused => 2
    case UnderReview => 3
    case Failed => 4
    case Ended => 4
  }

  // The statuses of an ad group through updates alone.
  ghost predicate IsUpdated(statuses: seq<AdGroupStatus>) {
    forall i :: 0 <= i < |statuses| - 1 ==> statuses[i + 1] in Transitions(statuses[i])
  }

  // Updates alone never take an ad group back, into review or out of it, nor to an end; one that was paused never gets
  // scheduled again; and nothing is updated once ended or failed.
  lemma {:induction false} UpdatesOnlyMoveForward(statuses: seq<AdGroupStatus>, i: nat, j: nat)
    requires IsUpdated(statuses) && i < j < |statuses|
    ensures Progress(statuses[i]) <= Progress(statuses[j])
    ensures statuses[i] == UnderReview <==> statuses[j] == UnderReview
    ensures statuses[i] !in {Ended, Failed} && statuses[j] !in {Ended, Failed}
    ensures statuses[i] == Draft && statuses[j] == Paused ==> exists k :: i < k < j && statuses[k] in {Scheduled, Active}
    decreases j
  {
    assert statuses[j - 1 + 1] in Transitions(statuses[j - 1]);
    if i + 1 < j {
      UpdatesOnlyMoveForward(statuses, i, j - 1);
    }
  }

  const SEARCH_AND_BROWSE := "Search & Browse"

  // The rest of an update request: its placements, whether it has keywords, and its headline.
  datatype Extras = Extras(placements: seq<string>, keywords: nat, carousel: bool, headline: string)

  function UpdateRejection(updated: AdGroup, original: Option<AdGroup>, extras: Extras): Option<Rejection> {
    if original.None? then Some(NotFound)
    else if original.value.status == Ended then Some(AlreadyEnded)
    else if SEARCH_AND_BROWSE !in extras.placements && extras.keywords > 0 then Some(KeywordsWithoutPlacement)
    else if extras.carousel && extras.headline == "" then Some(MissingHeadline)
    else if !extras.carousel && extras.headline != "" then Some(UnwantedHeadline)
    else if updated.status !in Transitions(original.value.status) then Some(ForbiddenTransition)
    else None
  }

  method ExtraValidationsForUpdate(updated: AdGroup, original: Option<AdGroup>, extras: Extras) returns (r: Option<Rejection>)
    ensures r.None? <==> original.Some? && original.value.status != Ended
                         && (extras.keywords > 0 ==> SEARCH_AND_BROWSE in extras.placements)
                         && (extras.carousel <==> extras.headline != "")
                         && updated.status in Transitions(original.value.status)
    ensures r == UpdateRejection(updated, original, extras)
  {
    if original.None? {
      return Some(NotFound);
    }
    if original.value.status == Ended {
      return Some(AlreadyEnded);
    }
    var found := false;
    for i := 0 to |extras.placements|
      invariant !found && SEARCH_AND_BROWSE !in extras.placements[..i]
    {
      if extras.placements[i] == SEARCH_AND_BROWSE {
        found := true;
        break;
      }
    }
    if !found {
      if extras.keywords > 0 {
        return Some(KeywordsWithoutPlacement);
      }
    }
    if extras.carousel && extras.headline == "" {
      return Some(MissingHeadline);
    }
    if !extras.carousel && extras.headline != "" {
      return Some(UnwantedHeadline);
    }
    if updated.status !in Transitions(original.value.status) {
      return Some(ForbiddenTransition);
    }
    r := None;
  }

  // ---- The steps of a campaign's life ----

  datatype State = State(campaign: Campaign, groups: seq<AdGroup>)

  datatype Step =
    | CreateAdGroup(group: AdGroup)
    | UpdateAdGroup(index: nat, updated: AdGroup, extras: Extras)
    | UpdateCampaign(start: Option<Stamp>, end: Option<Stamp>, draft: bool)
    | StatusMoves(index: nat, status: AdGroupStatus) // elsewhere: ad groups start, end, fail, get reviewed

  function Original(s: State, index: nat): Option<AdGroup> {
    if index < |s.groups| then Some(s.groups[index]) else None
  }

  function NewStart(s: State, start: Option<Stamp>): Stamp {
    if start.Some? then start.value else s.campaign.start
  }

  // An update is checked with the start date it asks for, but only a draft takes that date over.
  function StoredStart(s: State, start: Option<Stamp>): Stamp {
    if s.campaign.draft then NewStart(s, start) else s.campaign.start
  }

  predicate Accepted(s: State, step: Step) {
    match step
    case CreateAdGroup(g) => CreateRejection(g, s.campaign).None?
    case UpdateAdGroup(i, g, extras) =>
      ExtraValidations(g, false, s.campaign).None? && UpdateRejection(g, Original(s, i), extras).None?
    case UpdateCampaign(start, end, _) => DatesRejection(s.groups, s.campaign, end, NewStart(s, start)).None?
    case StatusMoves(i, status) => i < |s.groups| && s.groups[i].status != Ended
  }

  function Apply(s: State, step: Step): State
    requires Accepted(s, step)
  {
    match step
    case CreateAdGroup(g) => s.(groups := s.groups + [g])
    case UpdateAdGroup(i, g, _) => s.(groups := s.groups[i := g])
    case UpdateCampaign(start, end, draft) => s.(campaign := Campaign(StoredStart(s, start), end, draft))
    case StatusMoves(i, status) => s.(groups := s.groups[i := s.groups[i].(status := status)])
  }

  // Every ad group of a dated campaign that has not ended has an end date, no later than the campaign's.
  ghost predicate Contained(s: State) {
    s.campaign.end.Some? ==>
      forall i :: 0 <= i < |s.groups| && s.groups[i].status != Ended ==>
        s.groups[i].end.Some? && AtMost(s.groups[i].end.value, s.campaign.end.value)
  }

  // A start no earlier than the campaign's, no end before the start, and under a dated campaign an end no later than the campaign's.
  predicate DatesInTurn(g: AdGroup, campaign: Campaign) {
    && AtMost(campaign.start, g.start)
    && (g.end.Some? ==> AtMost(g.start, g.end.value))
    && (campaign.end.Some? ==> g.end.Some? && AtMost(g.end.value, campaign.end.value))
  }

  // An ad group is created if and only if it is a draft, scheduled or active and its dates are in turn.
  lemma CreateAdGroupAcceptedIff(s: State, g: AdGroup)
    ensures Accepted(s, CreateAdGroup(g)) <==> g.status in {Draft, Scheduled, Active} && DatesInTurn(g, s.campaign)
    ensures g.status == Ended || g.status == Paused || g.status == Failed ==> CreateRejection(g, s.campaign) == Some(StatusNotForNew)
  {
  }

  // An update replaces an ad group if and only if that is there and has not ended, its new dates are in turn, its status may
  // follow, keywords come with their placement, and exactly a carousel has a headline.
  lemma UpdateAdGroupAcceptedIff(s: State, i: nat, g: AdGroup, extras: Extras)
    ensures Accepted(s, UpdateAdGroup(i, g, extras))
            <==> && DatesInTurn(g, s.campaign)
                 && i < |s.groups| && s.groups[i].status != Ended && g.status in Transitions(s.groups[i].status)
                 && (extras.keywords > 0 ==> "Search & Browse" in extras.placements)
                 && (extras.carousel <==> extras.headline != "")
  {
  }

  // A campaign update without an end date passes. Otherwise the end lies before two years after the start asked for, or
  // the stored one when none is; and where the campaign gets its first end, every ad group has ended or has an end
  // date, and no end date of an ad group is later.
  lemma UpdateCampaignAcceptedIff(s: State, start: Option<Stamp>, end: Option<Stamp>, draft: bool)
    ensures var limit := Plus(if start.Some? then start.value else s.campaign.start, 2);
            Accepted(s, UpdateCampaign(start, end, draft))
            <==> end.Some? ==>
                   && limit.Some? && !AtMost(limit.value, end.value)
                   && (s.campaign.end.None? ==> forall g :: g in s.groups ==>
                         (g.status == Ended || g.end.Some?) && (g.end.Some? ==> AtMost(g.end.value, end.value)))
  {
    if end.Some? {
      assert (forall g :: g in s.groups ==> EndFits(g, end.value)) <==> forall i :: 0 <= i < |s.groups| ==> EndFits(s.groups[i], end.value);
    }
  }

  predicate MovesEarlier(before: Option<Stamp>, after: Option<Stamp>) {
    before.Some? && after.Some? && Later(before.value, after.value)
  }

  predicate EndsSafely(s: State, step: Step) {
    step.UpdateCampaign? ==> !MovesEarlier(s.campaign.end, step.end)
  }

  ghost predicate IsRun(states: seq<State>, steps: seq<Step>) {
    && |states| == |steps| + 1
    && forall i {:trigger steps[i]} :: 0 <= i < |steps| ==> Accepted(states[i], steps[i]) && states[i + 1] == Apply(states[i], steps[i])
  }

  lemma StepKeepsContained(s: State, step: Step)
    requires Contained(s) && Accepted(s, step) && EndsSafely(s, step)
    ensures Contained(Apply(s, step))
  {
    var after := Apply(s, step);
    if step.UpdateCampaign? && step.end.Some? && s.campaign.end.Some? {
      forall i | 0 <= i < |s.groups| && s.groups[i].status != Ended ensures AtMost(s.groups[i].end.value, step.end.value) {
        AtMostIsTransitive(s.groups[i].end.value, s.campaign.end.value, step.end.value);
      }
    }
  }

  lemma AtMostIsTransitive(s: Stamp, t: Stamp, u: Stamp)
    requires AtMost(s, t) && AtMost(t, u)
    ensures AtMost(s, u)
  {
  }

  // Over any run of accepted steps that moves no set end date of the campaign earlier, containment is kept.
  lemma {:induction false} RunsKeepContained(states: seq<State>, steps: seq<Step>, n: nat)
    requires IsRun(states, steps) && Contained(states[0]) && n <= |steps|
    requires forall i :: 0 <= i < |steps| ==> EndsSafely(states[i], steps[i])
    ensures Contained(states[n])
  {
    if n > 0 {
      RunsKeepContained(states, steps, n - 1);
      var step := steps[n - 1];
      StepKeepsContained(states[n - 1], step);
    }
  }

  // Moving a set end date earlier is let through without looking at the ad groups. For an update that respects the
  // two years, containment is kept whatever the ad groups are if and only if no set end date moves earlier.
  lemma UpdateKeepsContainedIff(campaign: Campaign, start: Option<Stamp>, end: Option<Stamp>, draft: bool)
    requires end.Some? ==> WithinTwoYears(if start.Some? then start.value else campaign.start, end.value).None?
    ensures (forall groups :: var s, step := State(campaign, groups), UpdateCampaign(start, end, draft);
                              Contained(s) && Accepted(s, step) ==> Contained(Apply(s, step)))
            <==> !MovesEarlier(campaign.end, end)
  {
    var step := UpdateCampaign(start, end, draft);
    if MovesEarlier(campaign.end, end) {
      var s := State(campaign, [AdGroup(campaign.start, campaign.end, Active)]);
      assert Contained(s) && Accepted(s, step);
      assert !Contained(Apply(s, step)) by {
        assert Apply(s, step).groups[0].status == Active;
      }
    } else {
      forall groups | Contained(State(campaign, groups)) && Accepted(State(campaign, groups), step)
        ensures Contained(Apply(State(campaign, groups), step))
      {
        StepKeepsContained(State(campaign, groups), step);
      }
    }
  }

  // Giving an undated campaign its first end date asks more than containment: an ad group that has ended must fit too.
  lemma FirstEndAsksMore(s: State, start: Option<Stamp>, end: Stamp, draft: bool)
    requires s.campaign.end.None? && WithinTwoYears(NewStart(s, start), end).None?
    ensures Accepted(s, UpdateCampaign(start, Some(end), draft))
            <==> Contained(s.(campaign := s.campaign.(end := Some(end))))
                 && forall i :: 0 <= i < |s.groups| && s.groups[i].status == Ended && s.groups[i].end.Some? ==> AtMost(s.groups[i].end.value, end)
  {
    if Accepted(s, UpdateCampaign(start, Some(end), draft)) {
      assert forall i :: 0 <= i < |s.groups| ==> EndFits(s.groups[i], end);
    } else {
      var i :| 0 <= i < |s.groups| && !EndFits(s.groups[i], end);
    }
  }

  // Ad groups that ended stay as they are: no accepted update changes one. That nothing else brings one back is
  // what StatusMoves takes for granted.
  lemma EndedIsFinal(s: State, step: Step, i: nat)
    requires Accepted(s, step) && i < |s.groups| && s.groups[i].status == Ended
    ensures i < |Apply(s, step).groups| && Apply(s, step).groups[i] == s.groups[i]
  {
    if step.UpdateAdGroup? {
      assert step.index != i;
    }
  }

  // ---- The start dates ----

  // No ad group starts before its campaign or ends before it starts.
  ghost predicate InTurn(s: State) {
    forall i :: 0 <= i < |s.groups| ==>
      AtMost(s.campaign.start, s.groups[i].start) && (s.groups[i].end.Some? ==> AtMost(s.groups[i].start, s.groups[i].end.value))
  }

  // The start date of a draft is not moved later.
  predicate StartsSafely(s: State, step: Step) {
    step.UpdateCampaign? && s.campaign.draft && step.start.Some? ==> AtMost(step.start.value, s.campaign.start)
  }

  lemma StepKeepsInTurn(s: State, step: Step)
    requires InTurn(s) && Accepted(s, step) && StartsSafely(s, step)
    ensures InTurn(Apply(s, step))
  {
    if step.UpdateCampaign? && s.campaign.draft && step.start.Some? {
      forall i | 0 <= i < |s.groups| ensures AtMost(step.start.value, s.groups[i].start) {
        AtMostIsTransitive(step.start.value, s.campaign.start, s.groups[i].start);
      }
    }
  }

  // Over any run of accepted steps that moves no draft's start date later, dates stay in turn.
  lemma {:induction false} RunsKeepInTurn(states: seq<State>, steps: seq<Step>, n: nat)
    requires IsRun(states, steps) && InTurn(states[0]) && n <= |steps|
    requires forall i :: 0 <= i < |steps| ==> StartsSafely(states[i], steps[i])
    ensures InTurn(states[n])
  {
    if n > 0 {
      RunsKeepInTurn(states, steps, n - 1);
      var step := steps[n - 1];
      StepKeepsInTurn(states[n - 1], step);
    }
  }

  // A start date moved later is let through without looking at the ad groups. For an update that respects the two years,
  // dates stay in turn whatever the ad groups are if and only if the campaign is past its draft or starts no later.
  lemma UpdateKeepsInTurnIff(campaign: Campaign, start: Option<Stamp>, end: Option<Stamp>, draft: bool)
    requires end.Some? ==> WithinTwoYears(if start.Some? then start.value else campaign.start, end.value).None?
    ensures (forall groups :: var s, step := State(campaign, groups), UpdateCampaign(start, end, draft);
                              InTurn(s) && Accepted(s, step) ==> InTurn(Apply(s, step)))
            <==> (campaign.draft && start.Some? ==> AtMost(start.value, campaign.start))
  {
    var step := UpdateCampaign(start, end, draft);
    if campaign.draft && start.Some? && !AtMost(start.value, campaign.start) {
      var s := State(campaign, [AdGroup(campaign.start, None, Ended)]);
      assert InTurn(s) && Accepted(s, step);
      assert !InTurn(Apply(s, step)) by {
        assert Apply(s, step).groups[0].start == campaign.start;
      }
    } else {
      forall groups | InTurn(State(campaign, groups)) && Accepted(State(campaign, groups), step)
        ensures InTurn(Apply(State(campaign, groups), step))
      {
        StepKeepsInTurn(State(campaign, groups), step);
      }
    }
  }

  // ---- The span of a campaign ----

  ghost predicate Stamped(step: Step) {
    step.UpdateCampaign? ==> (step.start.Some? ==> ValidStamp(step.start.value)) && (step.end.Some? ==> ValidStamp(step.end.value))
  }

  ghost predicate Short(c: Campaign) {
    && ValidStamp(c.start) && (c.end.Some? ==> ValidStamp(c.end.value))
    && (c.end.Some? ==> Micros(c.end.value) - Micros(c.start) < 731 * DAY)
  }

  // An update names no later start date than the stored one for a campaign that keeps the stored one.
  predicate StartsHonestly(s: State, step: Step) {
    step.UpdateCampaign? && step.start.Some? && !s.campaign.draft ==> AtMost(step.start.value, s.campaign.start)
  }

  // Over any run of such updates, a campaign created with an end before two years spans less than 731 days whenever
  // it is dated.
  lemma {:induction false} RunsKeepShort(states: seq<State>, steps: seq<Step>, n: nat, budget: BudgetType)
    requires IsRun(states, steps) && n <= |steps|
    requires forall i :: 0 <= i < |steps| ==> Stamped(steps[i]) && StartsHonestly(states[i], steps[i])
    requires var c := states[0].campaign;
             && ValidStamp(c.start) && (c.end.Some? ==> ValidStamp(c.end.value))
             && ValidateDatesWithBudget(c.start, c.end, budget).None?
    ensures Short(states[n].campaign)
  {
    if n == 0 {
      var c := states[0].campaign;
      if c.end.Some? {
        AcceptedSpan(c.start, c.end.value);
      }
    } else {
      RunsKeepShort(states, steps, n - 1, budget);
      var step, s := steps[n - 1], states[n - 1];
      if step.UpdateCampaign? && step.end.Some? {
        AcceptedSpan(NewStart(s, step.start), step.end.value);
        AtMostIsOnMicros(NewStart(s, step.start), s.campaign.start);
      }
    }
  }

  // Otherwise the check is made against a date that is not kept. Whatever end date an accepted update of a campaign past
  // its draft sets, the campaign stays below 731 days if and only if two years after the start date asked for is within
  // 731 days of the start date kept.
  lemma UpdateKeepsShortIff(campaign: Campaign, start: Stamp, draft: bool)
    requires !campaign.draft && ValidStamp(campaign.start) && ValidStamp(start) && InRange(start.date.year + 2)
    ensures ValidStamp(Plus(start, 2).value)
    ensures (forall end :: var s, step := State(campaign, []), UpdateCampaign(Some(start), Some(end), draft);
                           ValidStamp(end) && Accepted(s, step) ==> Short(Apply(s, step).campaign))
            <==> Micros(Plus(start, 2).value) - Micros(campaign.start) <= 731 * DAY
  {
    AddYearsIsValid(start.date, 2);
    var limit, s := Plus(start, 2).value, State(campaign, []);
    forall end | ValidStamp(end) ensures WithinTwoYears(start, end).None? <==> Micros(end) < Micros(limit) {
      AtMostIsOnMicros(limit, end);
    }
    if Micros(limit) - Micros(campaign.start) > 731 * DAY {
      var last := JustBefore(limit);
      MicrosJustBefore(limit);
      var step := UpdateCampaign(Some(start), Some(last), draft);
      assert Accepted(s, step) && !Short(Apply(s, step).campaign);
    }
  }
}
