/** Combining the bid ranges of a campaign's placements into one validation request, in place. */
module BidRanges {
  import opened Options

  // A bound is a minimum or a maximum, of the bid amount or of the number of bids.
  datatype Side = Minimum | Maximum

  predicate Meets(side: Side, bound: Option<real>, x: real) {
    bound.None? || if side.Minimum? then bound.value <= x else x <= bound.value
  }

  function Tighter(side: Side, a: real, b: real): real {
    if side.Minimum? then (if b > a then b else a) else (if b < a then b else a)
  }

  // A missing current bound takes the next one; a missing next bound erases the current one.
  function CompareValues<N>(a: Option<N>, b: Option<N>, compare: (N, N) -> N): Option<N> {
    if a.None? then b
    else if b.Some? then Some(compare(a.value, b.value))
    else None
  }

  const MAX: (real, real) -> real := (a: real, b: real) => if b > a then b else a
  const MIN: (real, real) -> real := (a: real, b: real) => if b < a then b else a
  const MAX_INT: (int, int) -> int := (a: int, b: int) => if b > a then b else a
  const MIN_INT: (int, int) -> int := (a: int, b: int) => if b < a then b else a

  // The same on bounds of either kind, read as reals.
  function Tightened(a: Option<real>, b: Option<real>, side: Side): Option<real> {
    if a.Some? && b.Some? then Some(Tighter(side, a.value, b.value)) else b
  }

  function AsReal(bound: Option<int>): Option<real> {
    if bound.Some? then Some(bound.value as real) else None
  }

  lemma ComparedIsTightened(a: Option<real>, b: Option<real>)
    ensures CompareValues(a, b, MAX) == Tightened(a, b, Minimum) && CompareValues(a, b, MIN) == Tightened(a, b, Maximum)
  {
  }

  lemma ComparedCountIsTightened(a: Option<int>, b: Option<int>)
    ensures AsReal(CompareValues(a, b, MAX_INT)) == Tightened(AsReal(a), AsReal(b), Minimum)
    ensures AsReal(CompareValues(a, b, MIN_INT)) == Tightened(AsReal(a), AsReal(b), Maximum)
  {
  }

  datatype Range = Range(minimumBidAmount: Option<real>, maximumBidAmount: Option<real>,
                         minimumBidCount: Option<int>, maximumBidCount: Option<int>)

  class ValidateBidRequest {
    var minimumBidAmount: Option<real>
    var maximumBidAmount: Option<real>
    var minimumBidCount: Option<int>
    var maximumBidCount: Option<int>

    constructor ()
      ensures Bounds() == Range(None, None, None, None)
    {
      minimumBidAmount := None;
      maximumBidAmount := None;
      minimumBidCount := None;
      maximumBidCount := None;
    }

    function Bounds(): Range
      reads this
    {
      Range(minimumBidAmount, maximumBidAmount, minimumBidCount, maximumBidCount)
    }
  }

  method CombineBidValidations(current: ValidateBidRequest, next: Range)
    modifies current
    ensures current.Bounds() == Combined(old(current.Bounds()), next)
  {
    current.minimumBidAmount := CompareValues(current.minimumBidAmount, next.minimumBidAmount, MAX);
    current.maximumBidAmount := CompareValues(current.maximumBidAmount, next.maximumBidAmount, MIN);
    current.minimumBidCount := CompareValues(current.minimumBidCount, next.minimumBidCount, MAX_INT);
    current.maximumBidCount := CompareValues(current.maximumBidCount, next.maximumBidCount, MIN_INT);
  }

  function Combined(a: Range, b: Range): Range {
    Range(CompareValues(a.minimumBidAmount, b.minimumBidAmount, MAX),
          CompareValues(a.maximumBidAmount, b.maximumBidAmount, MIN),
          CompareValues(a.minimumBidCount, b.minimumBidCount, MAX_INT),
          CompareValues(a.maximumBidCount, b.maximumBidCount, MIN_INT))
  }

  // ---- One bound, folded over a list of bounds ----

  function Folded(s: seq<Option<real>>, side: Side): Option<real> {
    if s == [] then None else Tightened(Folded(s[..|s| - 1], side), s[|s| - 1], side)
  }

  // Where the bounds after the last missing one begin.
  function AfterLastGap(s: seq<Option<real>>): (i: nat)
    ensures i <= |s| && (i > 0 ==> s[i - 1].None?) && forall j :: i <= j < |s| ==> s[j].Some?
  {
    if s == [] then 0
    else if s[|s| - 1].None? then |s|
    else AfterLastGap(s[..|s| - 1])
  }

  // What a fold accepts: what meets every bound after the last gap.
  lemma {:induction false} FoldForgetsBeforeTheGap(s: seq<Option<real>>, side: Side, x: real)
    ensures Folded(s, side).Some? <==> AfterLastGap(s) < |s|
    ensures Meets(side, Folded(s, side), x) <==> forall i :: AfterLastGap(s) <= i < |s| ==> Meets(side, s[i], x)
  {
    if s != [] {
      var last := |s| - 1;
      FoldForgetsBeforeTheGap(s[..last], side, x);
      if s[last].Some? {
        var start := AfterLastGap(s[..last]);
        assert forall i :: start <= i < last ==> s[..last][i] == s[i];
        assert Meets(side, Folded(s, side), x) <==> Meets(side, Folded(s[..last], side), x) && Meets(side, s[last], x);
      }
    }
  }

  // Bound b implies bound a.
  predicate Implies(side: Side, b: Option<real>, a: real) {
    b.Some? && if side.Minimum? then a <= b.value else b.value <= a
  }

  // Every bound before the last gap is implied by one after it.
  predicate GapsForgetNothing(s: seq<Option<real>>, side: Side) {
    forall i :: 0 <= i < AfterLastGap(s) && s[i].Some? ==>
      exists j :: AfterLastGap(s) <= j < |s| && Implies(side, s[j], s[i].value)
  }

  ghost predicate MeetsAll(s: seq<Option<real>>, side: Side, x: real) {
    forall i :: 0 <= i < |s| ==> Meets(side, s[i], x)
  }

  // A folded bound is one of the bounds after the gap.
  lemma {:induction false} FoldIsOneOfThem(s: seq<Option<real>>, side: Side) returns (j: nat)
    requires AfterLastGap(s) < |s|
    ensures AfterLastGap(s) <= j < |s| && s[j] == Folded(s, side)
  {
    var last := |s| - 1;
    FoldForgetsBeforeTheGap(s[..last], side, 0.0);
    if AfterLastGap(s) < last {
      j := FoldIsOneOfThem(s[..last], side);
    } else {
      j := last;
    }
    if Folded(s, side) == s[last] {
      j := last;
    }
  }

  // The fold accepts exactly the intersection if and only if no gap made it forget a bound that mattered.
  lemma FoldIsTheIntersectionIff(s: seq<Option<real>>, side: Side)
    ensures (forall x :: Meets(side, Folded(s, side), x) <==> MeetsAll(s, side, x)) <==> GapsForgetNothing(s, side)
  {
    var start, folded := AfterLastGap(s), Folded(s, side);
    if GapsForgetNothing(s, side) {
      forall x ensures Meets(side, folded, x) <==> MeetsAll(s, side, x) {
        FoldForgetsBeforeTheGap(s, side, x);
      }
    }
    if forall x :: Meets(side, folded, x) <==> MeetsAll(s, side, x) {
      forall i | 0 <= i < start && s[i].Some? ensures exists j :: start <= j < |s| && Implies(side, s[j], s[i].value) {
        FoldForgetsBeforeTheGap(s, side, 0.0);
        var x := if folded.Some? then folded.value else if side.Minimum? then s[i].value - 1.0 else s[i].value + 1.0;
        assert Meets(side, folded, x);
        assert Meets(side, s[i], x);
        var j := FoldIsOneOfThem(s, side);
      }
    }
  }

  // ---- Requests over placements ----

  datatype CampaignType = Pla | Toa | Carousel | Unsupported

  function BidRangeTable(campaign: CampaignType): map<string, Range> {
    match campaign
    case Pla => map["Search & Browse" := Range(Some(0.5), Some(50.0), None, None),
                    "Basket Builder" := Range(Some(0.6), Some(50.0), None, None),
                    "Savings" := Range(Some(0.3), Some(50.0), None, None)]
    case Toa => map["Search & Browse" := Range(Some(28.0), Some(100.0), None, None),
                    "Savings" := Range(Some(28.0), Some(100.0), None, None),
                    "Shop & Discover" := Range(Some(28.0), Some(100.0), None, None),
                    "In Store" := Range(Some(28.0), Some(100.0), None, None)]
    case Carousel => map["Search & Browse PPC" := Range(Some(0.9), Some(50.0), Some(3), Some(32))]
    case Unsupported => map[]
  }

  datatype Activation = Activation(campaignType: CampaignType, placementTypes: seq<string>)

  datatype Fault = NoActivation | NoPlacementTypes

  // The ranges of the known placements, in order; unknown placements are skipped.
  function Known(placements: seq<string>, table: map<string, Range>): seq<Range> {
    if placements == [] then []
    else
      var last := placements[|placements| - 1];
      Known(placements[..|placements| - 1], table) + if last in table then [table[last]] else []
  }

  function FoldedRange(s: seq<Range>): Range {
    if s == [] then Range(None, None, None, None) else Combined(FoldedRange(s[..|s| - 1]), s[|s| - 1])
  }

  // Which placements and campaign type a request is built from.
  function Basis(activation: Option<Activation>, placementTypes: Option<seq<string>>, campaignType: Option<CampaignType>)
    : Result<(seq<string>, Option<CampaignType>), Fault>
  {
    if (placementTypes.None? || placementTypes.value == []) && campaignType.None? then
      if activation.None? then Err(NoActivation)
      else Ok((activation.value.placementTypes, Some(activation.value.campaignType)))
    else if placementTypes.None? then Err(NoPlacementTypes)
    else Ok((placementTypes.value, campaignType))
  }

  function TableOf(campaignType: Option<CampaignType>): map<string, Range> {
    if campaignType.Some? then BidRangeTable(campaignType.value) else map[]
  }

  method BuildValidationRequest(activation: Option<Activation>, placementTypes: Option<seq<string>>, campaignType: Option<CampaignType>)
    returns (r: Result<ValidateBidRequest, Fault>)
    ensures r.Ok? ==> fresh(r.value)
    ensures var lacksPlacements := placementTypes.None? || placementTypes.value == [];
            && (r == Err(NoActivation) <==> lacksPlacements && campaignType.None? && activation.None?)
            && (r == Err(NoPlacementTypes) <==> placementTypes.None? && campaignType.Some?)
            && (lacksPlacements && campaignType.None? && r.Ok? ==>
                  Intersects(r.value.Bounds(), activation.value.placementTypes, BidRangeTable(activation.value.campaignType)))
            && (placementTypes.Some? && campaignType.Some? ==>
                  r.Ok? && Intersects(r.value.Bounds(), placementTypes.value, BidRangeTable(campaignType.value)))
            && (!lacksPlacements && campaignType.None? ==> r.Ok? && r.value.Bounds() == Range(None, None, None, None))
    ensures r.Ok? ==> var (placements, campaign) := Basis(activation, placementTypes, campaignType).value;
                      r.value.Bounds() == FoldedRange(Known(placements, TableOf(campaign)))
  {
    var request := new ValidateBidRequest();
    var basis := Basis(activation, placementTypes, campaignType);
    if basis.Err? {
      return Err(basis.error);
    }
    var placements, table := basis.value.0, TableOf(basis.value.1);
    for i := 0 to |placements|
      invariant fresh(request)
      invariant request.Bounds() == FoldedRange(Known(placements[..i], table))
    {
      KnownStep(placements, i, table);
      if placements[i] in table {
        CombineBidValidations(request, table[placements[i]]);
      }
    }
    assert placements[..|placements|] == placements;
    RequestIntersects(placements, basis.value.1);
    return Ok(request);
  }

  // A bid satisfies the range exactly when it satisfies that of every placement in the table.
  ghost predicate Intersects(range: Range, placements: seq<string>, table: map<string, Range>) {
    forall amount: real, count: int ::
      Accepts(range, amount, count) <==> forall p :: p in placements && p in table ==> Accepts(table[p], amount, count)
  }

  lemma RequestIntersects(placements: seq<string>, campaignType: Option<CampaignType>)
    ensures var bounds := FoldedRange(Known(placements, TableOf(campaignType)));
            && Intersects(bounds, placements, TableOf(campaignType))
            && (campaignType.None? ==> bounds == Range(None, None, None, None))
  {
    forall amount: real, count: int
      ensures Accepts(FoldedRange(Known(placements, TableOf(campaignType))), amount, count)
              <==> forall p :: p in placements && p in TableOf(campaignType) ==> Accepts(TableOf(campaignType)[p], amount, count)
    {
      RequestIsTheIntersection(campaignType, placements, amount, count);
    }
    if campaignType.None? {
      NoneKnown(placements);
    }
  }

  lemma {:induction false} NoneKnown(placements: seq<string>)
    ensures Known(placements, map[]) == []
  {
    if placements != [] {
      NoneKnown(placements[..|placements| - 1]);
    }
  }

  lemma KnownStep(placements: seq<string>, i: nat, table: map<string, Range>)
    requires i < |placements|
    ensures FoldedRange(Known(placements[..i + 1], table))
            == var folded := FoldedRange(Known(placements[..i], table));
               if placements[i] in table then Combined(folded, table[placements[i]]) else folded
  {
    assert placements[..i + 1][..i] == placements[..i];
    var known := Known(placements[..i], table);
    if placements[i] in table {
      assert Known(placements[..i + 1], table) == known + [table[placements[i]]];
      assert (known + [table[placements[i]]])[..|known|] == known;
    } else {
      assert known + [] == known;
    }
  }

  predicate Accepts(range: Range, amount: real, count: int) {
    && Meets(Minimum, range.minimumBidAmount, amount) && Meets(Maximum, range.maximumBidAmount, amount)
    && Meets(Minimum, AsReal(range.minimumBidCount), count as real) && Meets(Maximum, AsReal(range.maximumBidCount), count as real)
  }

  function Column(s: seq<Range>, field: Range -> Option<real>): (c: seq<Option<real>>)
    ensures |c| == |s| && forall i :: 0 <= i < |s| ==> c[i] == field(s[i])
  {
    if s == [] then [] else Column(s[..|s| - 1], field) + [field(s[|s| - 1])]
  }

  const MIN_AMOUNT: Range -> Option<real> := (r: Range) => r.minimumBidAmount
  const MAX_AMOUNT: Range -> Option<real> := (r: Range) => r.maximumBidAmount
  const MIN_COUNT: Range -> Option<real> := (r: Range) => AsReal(r.minimumBidCount)
  const MAX_COUNT: Range -> Option<real> := (r: Range) => AsReal(r.maximumBidCount)

  // Folding ranges is folding each field.
  lemma {:induction false} FoldedRangeByField(s: seq<Range>)
    ensures MIN_AMOUNT(FoldedRange(s)) == Folded(Column(s, MIN_AMOUNT), Minimum) && MAX_AMOUNT(FoldedRange(s)) == Folded(Column(s, MAX_AMOUNT), Maximum)
    ensures MIN_COUNT(FoldedRange(s)) == Folded(Column(s, MIN_COUNT), Minimum) && MAX_COUNT(FoldedRange(s)) == Folded(Column(s, MAX_COUNT), Maximum)
  {
    if s != [] {
      var front, last := FoldedRange(s[..|s| - 1]), s[|s| - 1];
      FoldedRangeByField(s[..|s| - 1]);
      ComparedIsTightened(front.minimumBidAmount, last.minimumBidAmount);
      ComparedIsTightened(front.maximumBidAmount, last.maximumBidAmount);
      ComparedCountIsTightened(front.minimumBidCount, last.minimumBidCount);
      ComparedCountIsTightened(front.maximumBidCount, last.maximumBidCount);
      ColumnFront(s, MIN_AMOUNT);
      ColumnFront(s, MAX_AMOUNT);
      ColumnFront(s, MIN_COUNT);
      ColumnFront(s, MAX_COUNT);
    }
  }

  lemma ColumnFront(s: seq<Range>, field: Range -> Option<real>)
    requires s != []
    ensures Column(s, field)[..|s| - 1] == Column(s[..|s| - 1], field)
  {
  }

  // Field by field, no gap forgets a bound.
  predicate NothingForgotten(s: seq<Range>) {
    && GapsForgetNothing(Column(s, MIN_AMOUNT), Minimum) && GapsForgetNothing(Column(s, MAX_AMOUNT), Maximum)
    && GapsForgetNothing(Column(s, MIN_COUNT), Minimum) && GapsForgetNothing(Column(s, MAX_COUNT), Maximum)
  }

  predicate Leaves(low: Option<real>, high: Option<real>) {
    low.Some? && high.Some? ==> low.value <= high.value
  }

  // The range still lets some bid through.
  predicate AcceptsSome(range: Range) {
    Leaves(MIN_AMOUNT(range), MAX_AMOUNT(range)) && Leaves(MIN_COUNT(range), MAX_COUNT(range))
  }

  ghost predicate AllAccept(s: seq<Range>, amount: real, count: int) {
    forall i :: 0 <= i < |s| ==> Accepts(s[i], amount, count)
  }

  lemma AllAcceptByField(s: seq<Range>, amount: real, count: int)
    ensures AllAccept(s, amount, count)
            <==> MeetsAll(Column(s, MIN_AMOUNT), Minimum, amount) && MeetsAll(Column(s, MAX_AMOUNT), Maximum, amount)
                 && MeetsAll(Column(s, MIN_COUNT), Minimum, count as real) && MeetsAll(Column(s, MAX_COUNT), Maximum, count as real)
  {
    if !AllAccept(s, amount, count) {
      var i :| 0 <= i < |s| && !Accepts(s[i], amount, count);
      assert Column(s, MIN_AMOUNT)[i] == MIN_AMOUNT(s[i]) && Column(s, MAX_AMOUNT)[i] == MAX_AMOUNT(s[i]);
      assert Column(s, MIN_COUNT)[i] == MIN_COUNT(s[i]) && Column(s, MAX_COUNT)[i] == MAX_COUNT(s[i]);
    }
  }

  lemma FoldedAcceptsByField(s: seq<Range>, amount: real, count: int)
    ensures Accepts(FoldedRange(s), amount, count)
            <==> Meets(Minimum, Folded(Column(s, MIN_AMOUNT), Minimum), amount) && Meets(Maximum, Folded(Column(s, MAX_AMOUNT), Maximum), amount)
                 && Meets(Minimum, Folded(Column(s, MIN_COUNT), Minimum), count as real)
                 && Meets(Maximum, Folded(Column(s, MAX_COUNT), Maximum), count as real)
  {
    FoldedRangeByField(s);
  }

  // A fold never shuts out what meets every bound.
  lemma FoldIsWider(s: seq<Option<real>>, side: Side, x: real)
    ensures MeetsAll(s, side, x) ==> Meets(side, Folded(s, side), x)
  {
    FoldForgetsBeforeTheGap(s, side, x);
  }

  lemma FoldedAcceptsTheIntersection(s: seq<Range>, amount: real, count: int)
    ensures AllAccept(s, amount, count) ==> Accepts(FoldedRange(s), amount, count)
    ensures NothingForgotten(s) ==> (Accepts(FoldedRange(s), amount, count) <==> AllAccept(s, amount, count))
  {
    FoldedAcceptsByField(s, amount, count);
    AllAcceptByField(s, amount, count);
    FoldIsWider(Column(s, MIN_AMOUNT), Minimum, amount);
    FoldIsWider(Column(s, MAX_AMOUNT), Maximum, amount);
    FoldIsWider(Column(s, MIN_COUNT), Minimum, count as real);
    FoldIsWider(Column(s, MAX_COUNT), Maximum, count as real);
    if NothingForgotten(s) {
      FoldIsTheIntersectionIff(Column(s, MIN_AMOUNT), Minimum);
      FoldIsTheIntersectionIff(Column(s, MAX_AMOUNT), Maximum);
      FoldIsTheIntersectionIff(Column(s, MIN_COUNT), Minimum);
      FoldIsTheIntersectionIff(Column(s, MAX_COUNT), Maximum);
    }
  }

  function Opposite(side: Side): Side {
    if side.Minimum? then Maximum else Minimum
  }

  predicate Whole(x: real) {
    x == x.Floor as real
  }

  ghost predicate WholeBounds(s: seq<Option<real>>) {
    forall i :: 0 <= i < |s| && s[i].Some? ==> Whole(s[i].value)
  }

  // A number between the bounds, whole when they are.
  function Between(low: Option<real>, high: Option<real>): real {
    if low.Some? then low.value else if high.Some? then high.value else 0.0
  }

  // Where a fold forgets a bound that mattered, some number shows it and still meets the bound on the other side.
  lemma ForgottenNumber(s: seq<Option<real>>, side: Side, other: Option<real>) returns (x: real)
    requires !GapsForgetNothing(s, side)
    requires if side.Minimum? then Leaves(Folded(s, side), other) else Leaves(other, Folded(s, side))
    ensures Meets(side, Folded(s, side), x) && Meets(Opposite(side), other, x) && !MeetsAll(s, side, x)
    ensures WholeBounds(s) && (other.Some? ==> Whole(other.value)) ==> Whole(x)
  {
    var folded := Folded(s, side);
    FoldForgetsBeforeTheGap(s, side, 0.0);
    var i :| 0 <= i < AfterLastGap(s) && s[i].Some? && !exists j :: AfterLastGap(s) <= j < |s| && Implies(side, s[j], s[i].value);
    var past := if side.Minimum? then s[i].value - 1.0 else s[i].value + 1.0;
    WholeNeighbours(s[i].value);
    if folded.Some? {
      var j := FoldIsOneOfThem(s, side);
      x := folded.value;
      assert !Implies(side, s[j], s[i].value);
    } else {
      x := if other.Some? then Tighter(Opposite(side), other.value, past) else past;
    }
    assert !Meets(side, s[i], x);
  }

  lemma WholeNeighbours(x: real)
    ensures Whole(x) ==> Whole(x - 1.0) && Whole(x + 1.0)
  {
    if Whole(x) {
      assert x - 1.0 == (x.Floor - 1) as real && x + 1.0 == (x.Floor + 1) as real;
    }
  }

  // The folded request accepts exactly what every range accepts, for all amounts and counts, if and only if no gap
  // forgets a bound that mattered, or the request lets no bid through at all.
  lemma FoldedIsTheIntersectionIff(s: seq<Range>)
    ensures (forall amount: real, count: int :: Accepts(FoldedRange(s), amount, count) <==> AllAccept(s, amount, count))
            <==> NothingForgotten(s) || !AcceptsSome(FoldedRange(s))
  {
    var folded := FoldedRange(s);
    if NothingForgotten(s) || !AcceptsSome(folded) {
      forall amount: real, count: int ensures Accepts(folded, amount, count) <==> AllAccept(s, amount, count) {
        FoldedAcceptsTheIntersection(s, amount, count);
      }
    } else {
      var amount, count := ForgottenBid(s);
      assert Accepts(folded, amount, count) && !AllAccept(s, amount, count);
    }
  }

  lemma ForgottenBid(s: seq<Range>) returns (amount: real, count: int)
    requires !NothingForgotten(s) && AcceptsSome(FoldedRange(s))
    ensures Accepts(FoldedRange(s), amount, count) && !AllAccept(s, amount, count)
  {
    var a, b, c, d := Column(s, MIN_AMOUNT), Column(s, MAX_AMOUNT), Column(s, MIN_COUNT), Column(s, MAX_COUNT);
    FoldedRangeByField(s);
    CountsAreWhole(s);
    var number;
    if !GapsForgetNothing(a, Minimum) || !GapsForgetNothing(b, Maximum) {
      amount := ForgottenEither(a, b);
      number := Between(Folded(c, Minimum), Folded(d, Maximum));
      WholeZero();
    } else {
      amount := Between(Folded(a, Minimum), Folded(b, Maximum));
      number := ForgottenEither(c, d);
    }
    count := number.Floor;
    assert count as real == number;
    BidOf(s, amount, count);
  }

  lemma ForgottenEither(lows: seq<Option<real>>, highs: seq<Option<real>>) returns (x: real)
    requires !GapsForgetNothing(lows, Minimum) || !GapsForgetNothing(highs, Maximum)
    requires Leaves(Folded(lows, Minimum), Folded(highs, Maximum))
    ensures Meets(Minimum, Folded(lows, Minimum), x) && Meets(Maximum, Folded(highs, Maximum), x)
    ensures !MeetsAll(lows, Minimum, x) || !MeetsAll(highs, Maximum, x)
    ensures WholeBounds(lows) && WholeBounds(highs) && WholeFold(lows, Minimum) && WholeFold(highs, Maximum) ==> Whole(x)
  {
    if !GapsForgetNothing(lows, Minimum) {
      x := ForgottenNumber(lows, Minimum, Folded(highs, Maximum));
    } else {
      x := ForgottenNumber(highs, Maximum, Folded(lows, Minimum));
    }
  }

  ghost predicate WholeFold(s: seq<Option<real>>, side: Side) {
    Folded(s, side).Some? ==> Whole(Folded(s, side).value)
  }

  lemma WholeZero()
    ensures Whole(0.0)
  {
  }

  lemma BidOf(s: seq<Range>, amount: real, count: int)
    ensures var number := count as real;
            && Meets(Minimum, Folded(Column(s, MIN_AMOUNT), Minimum), amount) && Meets(Maximum, Folded(Column(s, MAX_AMOUNT), Maximum), amount)
            && Meets(Minimum, Folded(Column(s, MIN_COUNT), Minimum), number) && Meets(Maximum, Folded(Column(s, MAX_COUNT), Maximum), number)
            && !(MeetsAll(Column(s, MIN_AMOUNT), Minimum, amount) && MeetsAll(Column(s, MAX_AMOUNT), Maximum, amount)
                 && MeetsAll(Column(s, MIN_COUNT), Minimum, number) && MeetsAll(Column(s, MAX_COUNT), Maximum, number))
            ==> Accepts(FoldedRange(s), amount, count) && !AllAccept(s, amount, count)
  {
    FoldedAcceptsByField(s, amount, count);
    AllAcceptByField(s, amount, count);
  }

  lemma CountsAreWhole(s: seq<Range>)
    ensures WholeBounds(Column(s, MIN_COUNT)) && WholeBounds(Column(s, MAX_COUNT))
    ensures MIN_COUNT(FoldedRange(s)).Some? ==> Whole(MIN_COUNT(FoldedRange(s)).value)
    ensures MAX_COUNT(FoldedRange(s)).Some? ==> Whole(MAX_COUNT(FoldedRange(s)).value)
  {
  }

  // Combining two ranges is their intersection if and only if the second sets every bound the first sets, or the
  // result lets no bid through.
  lemma CombinedIsBothIff(r: Range, q: Range)
    ensures (forall amount: real, count: int :: Accepts(Combined(r, q), amount, count) <==> Accepts(r, amount, count) && Accepts(q, amount, count))
            <==> SetsAll(q, r) || !AcceptsSome(Combined(r, q))
  {
    FoldedPair(r, q);
    FoldedIsTheIntersectionIff([r, q]);
    forall amount: real, count: int ensures AllAccept([r, q], amount, count) <==> Accepts(r, amount, count) && Accepts(q, amount, count) {
      PairAccepts(r, q, amount, count);
    }
    PairForgetsNothing(r, q, MIN_AMOUNT, Minimum);
    PairForgetsNothing(r, q, MAX_AMOUNT, Maximum);
    PairForgetsNothing(r, q, MIN_COUNT, Minimum);
    PairForgetsNothing(r, q, MAX_COUNT, Maximum);
  }

  lemma PairAccepts(r: Range, q: Range, amount: real, count: int)
    ensures AllAccept([r, q], amount, count) <==> Accepts(r, amount, count) && Accepts(q, amount, count)
  {
    assert [r, q][0] == r && [r, q][1] == q;
  }

  lemma FoldedPair(r: Range, q: Range)
    ensures FoldedRange([r, q]) == Combined(r, q)
  {
    var s := [r, q];
    assert s[..1] == [r] && s[|s| - 1] == q && [r][..0] == [];
    assert FoldedRange([r]) == Combined(FoldedRange([]), r) == r;
  }

  predicate SetsAll(q: Range, r: Range) {
    && (MIN_AMOUNT(r).Some? ==> MIN_AMOUNT(q).Some?) && (MAX_AMOUNT(r).Some? ==> MAX_AMOUNT(q).Some?)
    && (MIN_COUNT(r).Some? ==> MIN_COUNT(q).Some?) && (MAX_COUNT(r).Some? ==> MAX_COUNT(q).Some?)
  }

  lemma PairForgetsNothing(r: Range, q: Range, field: Range -> Option<real>, side: Side)
    ensures GapsForgetNothing(Column([r, q], field), side) <==> (field(r).Some? ==> field(q).Some?)
  {
    var c := Column([r, q], field);
    assert c[0] == field(r) && c[1] == field(q);
    if field(q).None? {
      assert AfterLastGap(c) == 2;
    }
  }

  predicate SameFields(r: Range, q: Range) {
    && (r.minimumBidAmount.None? <==> q.minimumBidAmount.None?) && (r.maximumBidAmount.None? <==> q.maximumBidAmount.None?)
    && (r.minimumBidCount.None? <==> q.minimumBidCount.None?) && (r.maximumBidCount.None? <==> q.maximumBidCount.None?)
  }

  predicate Uniform(s: seq<Range>) {
    forall i, j :: 0 <= i < j < |s| ==> SameFields(s[i], s[j])
  }

  lemma UniformForgetsNothing(s: seq<Range>)
    requires Uniform(s)
    ensures NothingForgotten(s)
  {
    ColumnForgetsNothing(s, MIN_AMOUNT, Minimum);
    ColumnForgetsNothing(s, MAX_AMOUNT, Maximum);
    ColumnForgetsNothing(s, MIN_COUNT, Minimum);
    ColumnForgetsNothing(s, MAX_COUNT, Maximum);
  }

  lemma ColumnForgetsNothing(s: seq<Range>, field: Range -> Option<real>, side: Side)
    requires forall i, j :: 0 <= i < j < |s| ==> (field(s[i]).None? <==> field(s[j]).None?)
    ensures GapsForgetNothing(Column(s, field), side)
  {
    var column := Column(s, field);
    var start := AfterLastGap(column);
    if start > 0 {
      assert column[start - 1].None?;
      forall i | 0 <= i < start ensures column[i].None? {
        assert i < start - 1 ==> (field(s[i]).None? <==> field(s[start - 1]).None?);
      }
    }
  }

  lemma {:induction false} KnownMembers(placements: seq<string>, table: map<string, Range>)
    ensures forall r :: r in Known(placements, table) <==> exists p :: p in placements && p in table && table[p] == r
  {
    if placements != [] {
      var last := |placements| - 1;
      KnownMembers(placements[..last], table);
      assert placements == placements[..last] + [placements[last]];
    }
  }

  // For every campaign type and any list of placements, in any order and with repeats, a bid satisfies
  // the combined request exactly when it satisfies the range of each placement that has one.
  lemma RequestIsTheIntersection(campaignType: Option<CampaignType>, placements: seq<string>, amount: real, count: int)
    ensures Accepts(FoldedRange(Known(placements, TableOf(campaignType))), amount, count)
            <==> forall p :: p in placements && p in TableOf(campaignType) ==> Accepts(TableOf(campaignType)[p], amount, count)
  {
    var table := TableOf(campaignType);
    var known := Known(placements, table);
    KnownMembers(placements, table);
    forall i, j | 0 <= i < j < |known| ensures SameFields(known[i], known[j]) {
      assert known[i] in known && known[j] in known;
    }
    UniformForgetsNothing(known);
    FoldedAcceptsTheIntersection(known, amount, count);
    if AllAccept(known, amount, count) {
      forall p | p in placements && p in table ensures Accepts(table[p], amount, count) {
        assert table[p] in known;
      }
    } else {
      var i :| 0 <= i < |known| && !Accepts(known[i], amount, count);
      assert known[i] in known;
    }
  }

  // Why the ranges must set the same fields: a range without a minimum erases the minimum before it.
  lemma MissingBoundErases(low: real)
    ensures FoldedRange([Range(Some(low), None, None, None), Range(None, None, None, None)]).minimumBidAmount == None
    ensures FoldedRange([Range(None, None, None, None), Range(Some(low), None, None, None)]).minimumBidAmount == Some(low)
  {
    var none, some := Range(None, None, None, None), Range(Some(low), None, None, None);
    assert [some, none][..1] == [some] && [none, some][..1] == [none] && [some][..0] == [] && [none][..0] == [];
    assert FoldedRange([some]) == some && FoldedRange([none]) == none;
  }
}
