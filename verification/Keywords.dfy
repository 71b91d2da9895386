/** Keyword bid modifiers: merging updates into a list in place, and filtering a list while walking a copy of it. */
module Keywords {
  import opened Options
  import opened ListMerge

  // Two modifiers are the same when all three fields are.
  datatype Modifier = Modifier(keyword: string, modifier: real, deleted: Option<bool>)

  const KEYWORD: Modifier -> string := (m: Modifier) => m.keyword
  const LIVE: Modifier -> bool := (m: Modifier) => m.deleted != Some(true)

  // A Python list, edited in place.
  class ModifierList {
    var items: seq<Modifier>

    constructor (items: seq<Modifier>)
      ensures this.items == items
    {
      this.items := items;
    }

    // list.remove(x): the first equal entry goes.
    method Remove(x: Modifier)
      requires x in items
      modifies this
      ensures items == RemoveFirst(old(items), x)
    {
      var i := 0;
      while items[i] != x
        invariant i < |items| && x !in items[..i]
        decreases |items| - i
      {
        i := i + 1;
      }
      RemoveFirstCuts(items, x, i);
      items := items[..i] + items[i + 1..];
    }
  }

  function RemoveFirst(s: seq<Modifier>, x: Modifier): seq<Modifier> {
    if s == [] then [] else if s[0] == x then s[1..] else [s[0]] + RemoveFirst(s[1..], x)
  }

  lemma {:induction false} RemoveFirstCuts(s: seq<Modifier>, x: Modifier, i: nat)
    requires i < |s| && s[i] == x && x !in s[..i]
    ensures RemoveFirst(s, x) == Cut(s, i)
  {
    if i > 0 {
      assert s[0] == s[..i][0] && s[..i][1..] == s[1..][..i - 1];
      RemoveFirstCuts(s[1..], x, i - 1);
      assert Cut(s, i) == [s[0]] + Cut(s[1..], i - 1);
    }
  }

  lemma {:induction false} FirstIndex(s: seq<Modifier>, x: Modifier) returns (i: nat)
    requires x in s
    ensures i < |s| && s[i] == x && x !in s[..i] && RemoveFirst(s, x) == Cut(s, i)
  {
    if s[0] == x {
      i := 0;
    } else {
      i := FirstIndex(s[1..], x);
      i := i + 1;
      assert s[..i] == [s[0]] + s[1..][..i - 1];
    }
    RemoveFirstCuts(s, x, i);
  }

  // ---- Merging ----

  // The step of the merge: drop what the keyword maps to, if it is still there.
  function DropMentioned(s: seq<Modifier>, existing: Option<Modifier>): seq<Modifier> {
    if existing.Some? && existing.value in s then RemoveFirst(s, existing.value) else s
  }

  lemma DropTakesKeywordAway(prev: seq<Modifier>, gone: set<string>, keyword: string)
    requires DistinctKeys(prev, KEYWORD)
    ensures DropMentioned(Without(prev, KEYWORD, gone), LastWith(prev, KEYWORD, keyword)) == Without(prev, KEYWORD, gone + {keyword})
  {
    var s, existing := Without(prev, KEYWORD, gone), LastWith(prev, KEYWORD, keyword);
    LastWithIsTheEntry(prev, KEYWORD, keyword);
    WithoutMembers(prev, KEYWORD, gone);
    if existing.Some? && existing.value in s {
      var i := FirstIndex(s, existing.value);
      CutTakesKeyAway(prev, KEYWORD, gone, i);
    } else {
      forall i | 0 <= i < |s| ensures KEYWORD(s[i]) != keyword {
        var j :| 0 <= j < |prev| && prev[j] == s[i];
        assert s[i] in s;
      }
      WithoutAbsentKey(prev, KEYWORD, gone, keyword);
    }
  }

  lemma DropKeepsTheOthers(s: seq<Modifier>, prev: seq<Modifier>, keyword: string, mentioned: set<string>)
    requires keyword in mentioned
    ensures Without(DropMentioned(s, LastWith(prev, KEYWORD, keyword)), KEYWORD, mentioned) == Without(s, KEYWORD, mentioned)
  {
    var existing := LastWith(prev, KEYWORD, keyword);
    LastWithIsTheEntry(prev, KEYWORD, keyword);
    if existing.Some? && existing.value in s {
      var i := FirstIndex(s, existing.value);
      CutKeepsTheOthers(s, KEYWORD, mentioned, i);
    }
  }

  // For any lists, entries no update mentions stay in order and the live updates follow; when the old
  // list repeats no keyword, nothing else stays. The old list is left holding what stayed.
  method MergeKeywords(prev: ModifierList, next: seq<Modifier>) returns (merged: seq<Modifier>)
    modifies prev
    ensures merged == prev.items + Keeping(next, LIVE)
    ensures Without(prev.items, KEYWORD, Keys(next, KEYWORD)) == Without(old(prev.items), KEYWORD, Keys(next, KEYWORD))
    ensures DistinctKeys(old(prev.items), KEYWORD) ==>
              prev.items == Without(old(prev.items), KEYWORD, Keys(next, KEYWORD)) && merged == Merged(old(prev.items), next, KEYWORD, LIVE)
  {
    ghost var before := prev.items;
    var existing := prev.items;
    var added := [];
    WithoutNothing(before, KEYWORD);
    assert Keys(next[..0], KEYWORD) == {};
    for i := 0 to |next|
      invariant added == Keeping(next[..i], LIVE)
      invariant Without(prev.items, KEYWORD, Keys(next, KEYWORD)) == Without(before, KEYWORD, Keys(next, KEYWORD))
      invariant DistinctKeys(before, KEYWORD) ==> prev.items == Without(before, KEYWORD, Keys(next[..i], KEYWORD))
    {
      var modifier := next[i];
      MergeStep(prev.items, before, next, i);
      var mapped := LastWith(existing, KEYWORD, modifier.keyword);
      if mapped.Some? && mapped.value in prev.items {
        prev.Remove(mapped.value);
      }
      if modifier.deleted != Some(true) {
        added := added + [modifier];
      }
      KeepingStep(next, i);
    }
    assert next[..|next|] == next;
    merged := prev.items + added;
  }

  lemma MergeStep(s: seq<Modifier>, prev: seq<Modifier>, next: seq<Modifier>, i: nat)
    requires i < |next|
    ensures Without(DropMentioned(s, LastWith(prev, KEYWORD, next[i].keyword)), KEYWORD, Keys(next, KEYWORD))
            == Without(s, KEYWORD, Keys(next, KEYWORD))
    ensures DistinctKeys(prev, KEYWORD) && s == Without(prev, KEYWORD, Keys(next[..i], KEYWORD)) ==>
              DropMentioned(s, LastWith(prev, KEYWORD, next[i].keyword)) == Without(prev, KEYWORD, Keys(next[..i + 1], KEYWORD))
  {
    assert next[..i + 1] == next[..i] + [next[i]];
    assert KEYWORD(next[i]) in Keys(next, KEYWORD);
    KeysSnoc(next[..i], KEYWORD, next[i]);
    DropKeepsTheOthers(s, prev, next[i].keyword, Keys(next, KEYWORD));
    if DistinctKeys(prev, KEYWORD) {
      DropTakesKeywordAway(prev, Keys(next[..i], KEYWORD), next[i].keyword);
    }
  }

  lemma KeepingStep(next: seq<Modifier>, i: nat)
    requires i < |next|
    ensures Keeping(next[..i + 1], LIVE) == Keeping(next[..i], LIVE) + if LIVE(next[i]) then [next[i]] else []
  {
    assert next[..i + 1][..i] == next[..i];
  }

  // ---- Filtering while walking a copy ----

  datatype Detail = Duplicate(keyword: string) | NotAllowed(keyword: string) | NotPositive(keyword: string) | OverBudget(keyword: string)

  datatype Rejection = TooManyKeywords | NoUpcs

  predicate Seen(s: seq<Modifier>, keyword: string) {
    exists i :: 0 <= i < |s| && s[i].keyword == keyword
  }

  predicate Acceptable(m: Modifier, allowed: set<string>, budget: real) {
    m.keyword in allowed && 0.0 < m.modifier < budget
  }

  // The modifier is the first with its keyword, and acceptable.
  predicate FirstAcceptable(s: seq<Modifier>, m: Modifier, allowed: set<string>, budget: real) {
    Acceptable(m, allowed, budget) && exists i :: 0 <= i < |s| && s[i] == m && !Seen(s[..i], m.keyword)
  }

  // Entry i stays: its modifier is a first acceptable one, and no equal modifier comes later.
  predicate Stays(s: seq<Modifier>, i: nat, allowed: set<string>, budget: real)
    requires i < |s|
  {
    FirstAcceptable(s, s[i], allowed, budget) && s[i] !in s[i + 1..]
  }

  // The entries that stay, in the order of the list.
  function Survivors(s: seq<Modifier>, n: nat, allowed: set<string>, budget: real): seq<Modifier>
    requires n <= |s|
  {
    if n == 0 then []
    else Survivors(s, n - 1, allowed, budget) + if Stays(s, n - 1, allowed, budget) then [s[n - 1]] else []
  }

  function Filtered(s: seq<Modifier>, allowed: set<string>, budget: real): seq<Modifier> {
    Survivors(s, |s|, allowed, budget)
  }

  // Why entry m is dropped after the entries before it.
  function Verdict(before: seq<Modifier>, m: Modifier, allowed: set<string>, budget: real): Option<Detail> {
    Against(m, Seen(before, m.keyword), allowed, budget)
  }

  function Against(m: Modifier, seen: bool, allowed: set<string>, budget: real): Option<Detail> {
    if seen then Some(Duplicate(m.keyword))
    else if m.keyword !in allowed then Some(NotAllowed(m.keyword))
    else if m.modifier <= 0.0 then Some(NotPositive(m.keyword))
    else if m.modifier >= budget then Some(OverBudget(m.keyword))
    else None
  }

  function Details(s: seq<Modifier>, allowed: set<string>, budget: real): seq<Detail> {
    if s == [] then []
    else
      var last := |s| - 1;
      var verdict := Verdict(s[..last], s[last], allowed, budget);
      Details(s[..last], allowed, budget) + if verdict.Some? then [verdict.value] else []
  }

  // ---- What the details say, place by place ----

  ghost predicate Repeats(s: seq<Modifier>, i: nat)
    requires i < |s|
  {
    exists j :: 0 <= j < i && s[j].keyword == s[i].keyword
  }

  // The detail is about the modifier at place i, and gives the first reason it has to go.
  ghost predicate Objects(s: seq<Modifier>, i: nat, detail: Detail, allowed: set<string>, budget: real)
    requires i < |s|
  {
    var m := s[i];
    && detail.keyword == m.keyword
    && match detail {
         case Duplicate(_) => Repeats(s, i)
         case NotAllowed(_) => !Repeats(s, i) && m.keyword !in allowed
         case NotPositive(_) => !Repeats(s, i) && m.keyword in allowed && m.modifier <= 0.0
         case OverBudget(_) => !Repeats(s, i) && m.keyword in allowed && 0.0 < m.modifier && budget <= m.modifier
       }
  }

  // The details are about these places, in order, and the modifiers at all other places up to n are in order.
  ghost predicate TellsOf(s: seq<Modifier>, n: nat, places: seq<nat>, details: seq<Detail>, allowed: set<string>, budget: real)
    requires n <= |s|
  {
    && |places| == |details|
    && (forall a, b :: 0 <= a < b < |places| ==> places[a] < places[b])
    && (forall a :: 0 <= a < |places| ==> places[a] < n && Objects(s, places[a], details[a], allowed, budget))
    && (forall i: nat :: i < n && i !in places ==> !Repeats(s, i) && s[i].keyword in allowed && 0.0 < s[i].modifier < budget)
  }

  ghost predicate DetailsTell(s: seq<Modifier>, details: seq<Detail>, allowed: set<string>, budget: real) {
    exists places :: TellsOf(s, |s|, places, details, allowed, budget)
  }

  // One detail for every modifier that goes, in the order of the list.
  lemma DetailsByPlace(s: seq<Modifier>, allowed: set<string>, budget: real)
    ensures DetailsTell(s, Details(s, allowed, budget), allowed, budget)
  {
    assert s[..|s|] == s;
    var places := PlacesOfDetails(s, |s|, allowed, budget);
  }

  lemma {:induction false} PlacesOfDetails(s: seq<Modifier>, n: nat, allowed: set<string>, budget: real) returns (places: seq<nat>)
    requires n <= |s|
    ensures TellsOf(s, n, places, Details(s[..n], allowed, budget), allowed, budget)
  {
    places := [];
    if n > 0 {
      places := PlacesOfDetails(s, n - 1, allowed, budget);
      assert s[..n][..n - 1] == s[..n - 1];
      RepeatsIffSeen(s, n - 1);
      var verdict := Verdict(s[..n - 1], s[n - 1], allowed, budget);
      if verdict.Some? {
        PlaceAdded(s, n - 1, places, Details(s[..n - 1], allowed, budget), verdict.value, allowed, budget);
        places := places + [n - 1];
      } else {
        PlacePassed(s, n - 1, places, Details(s[..n - 1], allowed, budget), allowed, budget);
      }
    }
  }

  lemma PlaceAdded(s: seq<Modifier>, i: nat, places: seq<nat>, details: seq<Detail>, detail: Detail, allowed: set<string>, budget: real)
    requires i < |s| && TellsOf(s, i, places, details, allowed, budget) && Objects(s, i, detail, allowed, budget)
    ensures TellsOf(s, i + 1, places + [i], details + [detail], allowed, budget)
  {
    var all := places + [i];
    forall j: nat | j < i + 1 && j !in all ensures !Repeats(s, j) && s[j].keyword in allowed && 0.0 < s[j].modifier < budget {
      assert all[|places|] == i;
      assert j in places ==> j in all;
    }
  }

  lemma PlacePassed(s: seq<Modifier>, i: nat, places: seq<nat>, details: seq<Detail>, allowed: set<string>, budget: real)
    requires i < |s| && TellsOf(s, i, places, details, allowed, budget)
    requires !Repeats(s, i) && s[i].keyword in allowed && 0.0 < s[i].modifier < budget
    ensures TellsOf(s, i + 1, places, details + [], allowed, budget)
  {
    assert details + [] == details;
  }

  lemma RepeatsIffSeen(s: seq<Modifier>, i: nat)
    requires i < |s|
    ensures Repeats(s, i) <==> Seen(s[..i], s[i].keyword)
  {
    var front := s[..i];
    assert forall j :: 0 <= j < i ==> front[j] == s[j];
  }

  lemma {:induction false} SurvivorsStay(s: seq<Modifier>, n: nat, allowed: set<string>, budget: real)
    requires n <= |s|
    ensures forall m :: m in Survivors(s, n, allowed, budget) <==> exists i :: 0 <= i < n && s[i] == m && Stays(s, i, allowed, budget)
  {
    if n > 0 {
      SurvivorsStay(s, n - 1, allowed, budget);
    }
  }

  // Two survivors are never equal.
  lemma {:induction false} SurvivorsDiffer(s: seq<Modifier>, n: nat, allowed: set<string>, budget: real)
    requires n <= |s|
    ensures forall i, j {:trigger Survivors(s, n, allowed, budget)[i], Survivors(s, n, allowed, budget)[j]} ::
              0 <= i < j < |Survivors(s, n, allowed, budget)| ==> Survivors(s, n, allowed, budget)[i] != Survivors(s, n, allowed, budget)[j]
  {
    if n > 0 {
      SurvivorsDiffer(s, n - 1, allowed, budget);
      SurvivorsStay(s, n - 1, allowed, budget);
      var some := Survivors(s, n - 1, allowed, budget);
      forall i | 0 <= i < |some| ensures some[i] != s[n - 1] {
        assert some[i] in some;
        var j :| 0 <= j < n - 1 && s[j] == some[i] && Stays(s, j, allowed, budget);
        assert s[j + 1..][n - 2 - j] == s[n - 1];
      }
    }
  }

  lemma {:induction false} RemoveFirstOfDistinct(s: seq<Modifier>, m: Modifier)
    ensures m !in s ==> RemoveFirst(s, m) == s
    ensures m in s ==> multiset(RemoveFirst(s, m)) + multiset{m} == multiset(s) && |RemoveFirst(s, m)| == |s| - 1
  {
    if s != [] {
      assert s == [s[0]] + s[1..];
      RemoveFirstOfDistinct(s[1..], m);
    }
  }

  // The first n entries that a flag keeps.
  function Kept(s: seq<Modifier>, keeps: nat -> bool, n: nat): seq<Modifier>
    requires n <= |s|
  {
    if n == 0 then []
    else if keeps(n - 1) then Kept(s, keeps, n - 1) + [s[n - 1]]
    else Kept(s, keeps, n - 1)
  }

  lemma {:induction false} SurvivorsAreKept(s: seq<Modifier>, keeps: nat -> bool, n: nat, allowed: set<string>, budget: real)
    requires n <= |s| && forall i: nat :: i < n ==> keeps(i) == Stays(s, i, allowed, budget)
    ensures Survivors(s, n, allowed, budget) == Kept(s, keeps, n)
  {
    if n > 0 {
      SurvivorsAreKept(s, keeps, n - 1, allowed, budget);
    }
  }

  lemma {:induction false} KeptLessOne(s: seq<Modifier>, m: Modifier, keeps: nat -> bool, keeps': nat -> bool, n: nat)
    requires n <= |s| && forall i: nat :: i < n ==> keeps'(i) == (keeps(i) && s[i] != m)
    requires forall i: nat :: i < n && keeps(i) ==> s[i] !in Kept(s, keeps, i)
    ensures Kept(s + [m], keeps', n) == RemoveFirst(Kept(s, keeps, n), m)
  {
    if n > 0 {
      KeptLessOne(s, m, keeps, keeps', n - 1);
      if keeps(n - 1) {
        OneMoreStep(Kept(s, keeps, n - 1), s[n - 1], m);
      }
    }
  }

  // What a list keeps of its entries once one more entry m follows it: the same, less m.
  lemma OneMoreEntry(s: seq<Modifier>, m: Modifier, allowed: set<string>, budget: real)
    ensures Survivors(s + [m], |s|, allowed, budget) == RemoveFirst(Survivors(s, |s|, allowed, budget), m)
  {
    var keeps, keeps' := (i: nat) => i < |s| && Stays(s, i, allowed, budget), (i: nat) => i < |s| && Stays(s + [m], i, allowed, budget);
    SurvivorsAreKept(s, keeps, |s|, allowed, budget);
    SurvivorsAreKept(s + [m], keeps', |s|, allowed, budget);
    forall i: nat | i < |s| ensures keeps'(i) == (keeps(i) && s[i] != m) {
      StaysUnlessRepeated(s, m, i, allowed, budget);
    }
    forall i: nat | i < |s| && keeps(i) ensures s[i] !in Kept(s, keeps, i) {
      StayerComesOnce(s, i, allowed, budget);
      SurvivorsAreKept(s, keeps, i, allowed, budget);
    }
    KeptLessOne(s, m, keeps, keeps', |s|);
  }

  lemma OneMoreStep(some: seq<Modifier>, x: Modifier, m: Modifier)
    requires x !in some
    ensures RemoveFirst(some + [x], m) == RemoveFirst(some, m) + if x == m then [] else [x]
  {
    RemoveFromSnoc(some, x, m);
    RemoveFirstOfDistinct(some, m);
  }

  lemma StayerComesOnce(s: seq<Modifier>, i: nat, allowed: set<string>, budget: real)
    requires i < |s|
    ensures s[i] !in Survivors(s, i, allowed, budget)
  {
    SurvivorsStay(s, i, allowed, budget);
    forall j | 0 <= j < i && s[j] == s[i] ensures !Stays(s, j, allowed, budget) {
      assert s[j + 1..][i - j - 1] == s[i];
    }
  }

  lemma StaysUnlessRepeated(s: seq<Modifier>, m: Modifier, i: nat, allowed: set<string>, budget: real)
    requires i < |s|
    ensures Stays(s + [m], i, allowed, budget) <==> Stays(s, i, allowed, budget) && s[i] != m
  {
    var t := s + [m];
    assert t[i + 1..] == s[i + 1..] + [m];
    FirstAcceptableOneMore(s, m, s[i], allowed, budget);
    if exists j :: 0 <= j < |t| && t[j] == s[i] && !Seen(t[..j], s[i].keyword) {
      var j :| 0 <= j < |t| && t[j] == s[i] && !Seen(t[..j], s[i].keyword);
      if j == |s| {
        assert t[..j][i].keyword == s[i].keyword;
      }
    }
  }

  lemma FirstAcceptableOneMore(s: seq<Modifier>, m: Modifier, x: Modifier, allowed: set<string>, budget: real)
    ensures FirstAcceptable(s + [m], x, allowed, budget)
            <==> FirstAcceptable(s, x, allowed, budget) || (x == m && Acceptable(m, allowed, budget) && !Seen(s, m.keyword))
  {
    var t := s + [m];
    assert t[..|s|] == s;
    if FirstAcceptable(s, x, allowed, budget) {
      var i :| 0 <= i < |s| && s[i] == x && !Seen(s[..i], x.keyword);
      assert t[i] == x && t[..i] == s[..i];
    }
    if FirstAcceptable(t, x, allowed, budget) {
      var i :| 0 <= i < |t| && t[i] == x && !Seen(t[..i], x.keyword);
      assert i < |s| ==> t[..i] == s[..i] && s[i] == x;
    }
  }

  lemma {:induction false} RemoveFromSnoc(s: seq<Modifier>, x: Modifier, m: Modifier)
    ensures RemoveFirst(s + [x], m) == if m in s then RemoveFirst(s, m) + [x] else if x == m then s else s + [x]
  {
    if s == [] {
      assert RemoveFirst([x], m) == if x == m then [] else [x];
    } else {
      RemoveFromSnoc(s[1..], x, m);
      assert (s + [x])[1..] == s[1..] + [x];
    }
  }

  // A modifier survives exactly when it is the first with its keyword and acceptable.
  lemma SurvivesIffFirstAcceptable(s: seq<Modifier>, m: Modifier, allowed: set<string>, budget: real)
    ensures m in Filtered(s, allowed, budget) <==> FirstAcceptable(s, m, allowed, budget)
  {
    SurvivorsStay(s, |s|, allowed, budget);
    if FirstAcceptable(s, m, allowed, budget) {
      var i :| 0 <= i < |s| && s[i] == m;
      var j := LastOccurrence(s, m);
      assert Stays(s, j, allowed, budget);
    }
  }

  lemma {:induction false} LastOccurrence(s: seq<Modifier>, m: Modifier) returns (i: nat)
    requires m in s
    ensures i < |s| && s[i] == m && m !in s[i + 1..]
  {
    var last := |s| - 1;
    if s[last] == m {
      i := last;
    } else {
      i := LastOccurrence(s[..last], m);
      assert s[i + 1..] == s[..last][i + 1..] + [s[last]];
    }
  }

  lemma FilteredSnoc(s: seq<Modifier>, m: Modifier, allowed: set<string>, budget: real)
    ensures Filtered(s + [m], allowed, budget)
            == RemoveFirst(Filtered(s, allowed, budget), m) + if FirstAcceptable(s + [m], m, allowed, budget) then [m] else []
  {
    var t := s + [m];
    OneMoreEntry(s, m, allowed, budget);
    assert t[|t|..] == [] && t[|s|] == m;
  }

  // One step of the walk: dropping the visited modifier by value moves an equal survivor to the end.
  lemma FilterStep(s: seq<Modifier>, m: Modifier, allowed: set<string>, budget: real)
    ensures var kept := Filtered(s, allowed, budget);
            Filtered(s + [m], allowed, budget)
            == if Verdict(s, m, allowed, budget).None? then kept + [m]
               else if m in kept then RemoveFirst(kept, m) + [m]
               else kept
  {
    FilteredSnoc(s, m, allowed, budget);
    FirstAcceptableOneMore(s, m, m, allowed, budget);
    SurvivesIffFirstAcceptable(s, m, allowed, budget);
    RemoveFirstOfDistinct(Filtered(s, allowed, budget), m);
    FirstIsSeen(s, m, allowed, budget);
  }

  lemma FirstIsSeen(s: seq<Modifier>, m: Modifier, allowed: set<string>, budget: real)
    ensures FirstAcceptable(s, m, allowed, budget) ==> m in s && Seen(s, m.keyword)
    ensures Verdict(s, m, allowed, budget).None? <==> !Seen(s, m.keyword) && Acceptable(m, allowed, budget)
  {
  }

  // The entries the filter should leave: the first of each keyword, where acceptable.
  function FirstOccurrences(s: seq<Modifier>, allowed: set<string>, budget: real): seq<Modifier> {
    if s == [] then []
    else
      var last := |s| - 1;
      FirstOccurrences(s[..last], allowed, budget)
      + if !Seen(s[..last], s[last].keyword) && Acceptable(s[last], allowed, budget) then [s[last]] else []
  }

  // As a multiset the filter leaves exactly the first acceptable occurrences, and every entry it
  // drops has one detail.
  lemma {:induction false} FilterLeavesFirstOccurrences(s: seq<Modifier>, allowed: set<string>, budget: real)
    ensures multiset(Filtered(s, allowed, budget)) == multiset(FirstOccurrences(s, allowed, budget))
    ensures |Filtered(s, allowed, budget)| + |Details(s, allowed, budget)| == |s|
  {
    if s != [] {
      var last := |s| - 1;
      FilterLeavesFirstOccurrences(s[..last], allowed, budget);
      assert s == s[..last] + [s[last]];
      FilterStepCounts(s[..last], s[last], allowed, budget);
    }
  }

  lemma FilterStepCounts(s: seq<Modifier>, m: Modifier, allowed: set<string>, budget: real)
    ensures var after, kept := Filtered(s + [m], allowed, budget), Filtered(s, allowed, budget);
            && |after| == |kept| + (if Verdict(s, m, allowed, budget).None? then 1 else 0)
            && multiset(after) == multiset(kept + if !Seen(s, m.keyword) && Acceptable(m, allowed, budget) then [m] else [])
  {
    var kept := Filtered(s, allowed, budget);
    FilterStep(s, m, allowed, budget);
    RemoveFirstOfDistinct(kept, m);
    assert kept + [] == kept;
  }

  // No two modifiers left share a keyword, and each is allowed, positive and below the budget.
  lemma FilteredKeywordsAreDistinct(s: seq<Modifier>, allowed: set<string>, budget: real)
    ensures DistinctKeys(Filtered(s, allowed, budget), KEYWORD)
    ensures forall m :: m in Filtered(s, allowed, budget) ==> Acceptable(m, allowed, budget)
  {
    var kept := Filtered(s, allowed, budget);
    SurvivorsDiffer(s, |s|, allowed, budget);
    forall m | m in kept ensures FirstAcceptable(s, m, allowed, budget) {
      SurvivesIffFirstAcceptable(s, m, allowed, budget);
    }
    forall i, j | 0 <= i < j < |kept| ensures kept[i].keyword != kept[j].keyword {
      assert kept[i] in kept && kept[j] in kept;
      FirstIsUnique(s, kept[i], kept[j], allowed, budget);
    }
  }

  lemma FirstIsUnique(s: seq<Modifier>, m: Modifier, n: Modifier, allowed: set<string>, budget: real)
    requires FirstAcceptable(s, m, allowed, budget) && FirstAcceptable(s, n, allowed, budget)
    ensures m.keyword == n.keyword ==> m == n
  {
    var a :| 0 <= a < |s| && s[a] == m && !Seen(s[..a], m.keyword);
    var b :| 0 <= b < |s| && s[b] == n && !Seen(s[..b], n.keyword);
    if a < b {
      SeenAfter(s, a, b);
    } else if b < a {
      SeenAfter(s, b, a);
    }
  }

  lemma SeenAfter(s: seq<Modifier>, a: nat, b: nat)
    requires a < b <= |s|
    ensures Seen(s[..b], s[a].keyword)
  {
    assert s[..b][a] == s[a];
  }

  // The order of the list is not kept when equal modifiers repeat: of "a", "b", "a" the filter leaves "b", "a".
  lemma RemovingByValueReorders(a: Modifier, b: Modifier, allowed: set<string>, budget: real)
    requires a.keyword != b.keyword && Acceptable(a, allowed, budget) && Acceptable(b, allowed, budget)
    ensures Filtered([a, b, a], allowed, budget) == [b, a]
    ensures FirstOccurrences([a, b, a], allowed, budget) == [a, b]
  {
    FilterTwo(a, b, allowed, budget);
    assert [a, b] + [a] == [a, b, a] && [a, b][0] == a;
    FilterStep([a, b], a, allowed, budget);
    assert RemoveFirst([a, b], a) == [b];
    FirstOccurrencesOfThree(a, b, allowed, budget);
  }

  lemma FilterTwo(a: Modifier, b: Modifier, allowed: set<string>, budget: real)
    requires a.keyword != b.keyword && Acceptable(a, allowed, budget) && Acceptable(b, allowed, budget)
    ensures Filtered([a, b], allowed, budget) == [a, b]
  {
    FilterOne(a, allowed, budget);
    FilterStep([a], b, allowed, budget);
    assert [a] + [b] == [a, b];
  }

  lemma FilterOne(a: Modifier, allowed: set<string>, budget: real)
    requires Acceptable(a, allowed, budget)
    ensures Filtered([a], allowed, budget) == [a]
  {
    FilterStep([], a, allowed, budget);
    assert [] + [a] == [a];
  }

  lemma FirstOccurrencesOfThree(a: Modifier, b: Modifier, allowed: set<string>, budget: real)
    requires a.keyword != b.keyword && Acceptable(a, allowed, budget) && Acceptable(b, allowed, budget)
    ensures FirstOccurrences([a, b, a], allowed, budget) == [a, b]
  {
    assert [a, b][0] == a;
    assert Seen([a, b], a.keyword);
    assert [a, b, a][..2] == [a, b] && [a, b][..1] == [a] && [a][..0] == [];
    assert FirstOccurrences([a], allowed, budget) == [a];
    assert FirstOccurrences([a, b], allowed, budget) == [a, b];
  }

  // Without repeated modifiers the order is kept too.
  lemma {:induction false} DistinctModifiersKeepTheirOrder(s: seq<Modifier>, allowed: set<string>, budget: real)
    requires forall i, j :: 0 <= i < j < |s| ==> s[i] != s[j]
    ensures Filtered(s, allowed, budget) == FirstOccurrences(s, allowed, budget)
  {
    if s != [] {
      var last := |s| - 1;
      DistinctModifiersKeepTheirOrder(s[..last], allowed, budget);
      assert s == s[..last] + [s[last]];
      NewModifierStep(s[..last], s[last], allowed, budget);
    }
  }

  lemma NewModifierStep(s: seq<Modifier>, m: Modifier, allowed: set<string>, budget: real)
    requires m !in s
    ensures Filtered(s + [m], allowed, budget)
            == Filtered(s, allowed, budget) + if !Seen(s, m.keyword) && Acceptable(m, allowed, budget) then [m] else []
  {
    FilterStep(s, m, allowed, budget);
    SurvivesIffFirstAcceptable(s, m, allowed, budget);
    FirstIsSeen(s, m, allowed, budget);
  }

  // ---- When the order is kept ----

  function FirstPlace(s: seq<Modifier>, m: Modifier): (i: nat)
    requires m in s
    ensures i < |s| && s[i] == m
  {
    if s[0] == m then 0 else FirstPlace(s[1..], m) + 1
  }

  function LastPlace(s: seq<Modifier>, m: Modifier): (i: nat)
    requires m in s
    ensures i < |s| && s[i] == m
  {
    if s[|s| - 1] == m then |s| - 1 else LastPlace(s[..|s| - 1], m)
  }

  lemma {:induction false} FirstPlaceIsFirst(s: seq<Modifier>, i: nat)
    requires i < |s|
    ensures FirstPlace(s, s[i]) <= i
    ensures s[i] !in s[..i] ==> FirstPlace(s, s[i]) == i
  {
    if s[0] != s[i] {
      FirstPlaceIsFirst(s[1..], i - 1);
      assert s[i] in s[1..][..i - 1] ==> s[i] in s[..i];
    } else if i > 0 {
      assert s[..i][0] == s[i];
    }
  }

  lemma {:induction false} LastPlaceIsLast(s: seq<Modifier>, i: nat)
    requires i < |s| && s[i] !in s[i + 1..]
    ensures LastPlace(s, s[i]) == i
  {
    var last := |s| - 1;
    if i < last {
      assert s[i + 1..][last - i - 1] == s[last];
      assert s[..last][i + 1..] == s[i + 1..][..last - i - 1];
      LastPlaceIsLast(s[..last], i);
    }
  }

  ghost predicate AscendsBy(s: seq<Modifier>, place: Modifier -> int) {
    forall i, j :: 0 <= i < j < |s| ==> place(s[i]) < place(s[j])
  }

  // Two lists of the same modifiers, both ascending by their places, are the same list.
  lemma {:induction false} AscendingListsAgree(s: seq<Modifier>, t: seq<Modifier>, place: Modifier -> int)
    requires AscendsBy(s, place) && AscendsBy(t, place) && forall m :: m in s <==> m in t
    ensures s == t
  {
    assert s != [] ==> s[0] in s && s[0] in t;
    assert t != [] ==> t[0] in t && t[0] in s;
    if s != [] {
      var x := s[|s| - 1];
      assert x in t && t[|t| - 1] in s;
      LastIsGreatest(s, place, t[|t| - 1]);
      LastIsGreatest(t, place, x);
      FrontMembers(s, place);
      FrontMembers(t, place);
      var front, back := s[..|s| - 1], t[..|t| - 1];
      forall m ensures m in front <==> m in back {
        assert m in front <==> m in s && m != x;
        assert m in back <==> m in t && m != x;
      }
      AscendingListsAgree(front, back, place);
    }
  }

  lemma LastIsGreatest(s: seq<Modifier>, place: Modifier -> int, m: Modifier)
    requires AscendsBy(s, place) && m in s
    ensures m == s[|s| - 1] || place(m) < place(s[|s| - 1])
  {
  }

  lemma FrontMembers(s: seq<Modifier>, place: Modifier -> int)
    requires AscendsBy(s, place) && s != []
    ensures AscendsBy(s[..|s| - 1], place)
    ensures forall m :: m in s[..|s| - 1] <==> m in s && m != s[|s| - 1]
  {
    assert s == s[..|s| - 1] + [s[|s| - 1]];
    forall i | 0 <= i < |s| - 1 ensures s[i] != s[|s| - 1] {
      assert place(s[i]) < place(s[|s| - 1]);
    }
  }

  // The filtered list is in the order of last places, the first occurrences in that of first places.
  lemma {:induction false} SurvivorsByLastPlace(s: seq<Modifier>, n: nat, allowed: set<string>, budget: real, place: Modifier -> int)
    requires n <= |s| && forall m :: m in s ==> place(m) == LastPlace(s, m)
    ensures AscendsBy(Survivors(s, n, allowed, budget), place)
    ensures forall m :: m in Survivors(s, n, allowed, budget) ==> place(m) < n
  {
    if n > 0 {
      SurvivorsByLastPlace(s, n - 1, allowed, budget, place);
      if Stays(s, n - 1, allowed, budget) {
        LastPlaceIsLast(s, n - 1);
      }
    }
  }

  lemma {:induction false} FirstsByFirstPlace(s: seq<Modifier>, n: nat, allowed: set<string>, budget: real, place: Modifier -> int)
    requires n <= |s| && forall m :: m in s ==> place(m) == FirstPlace(s, m)
    ensures AscendsBy(FirstOccurrences(s[..n], allowed, budget), place)
    ensures forall m :: m in FirstOccurrences(s[..n], allowed, budget) ==> place(m) < n
  {
    if n > 0 {
      FirstsByFirstPlace(s, n - 1, allowed, budget, place);
      assert s[..n][..n - 1] == s[..n - 1];
      if !Seen(s[..n - 1], s[n - 1].keyword) {
        var front := s[..n - 1];
        assert forall i :: 0 <= i < |front| ==> front[i] != s[n - 1];
        FirstPlaceIsFirst(s, n - 1);
      }
    }
  }

  // Modifiers that count keep the order of their first places in their last places.
  ghost predicate PlacesAgree(s: seq<Modifier>, allowed: set<string>, budget: real) {
    forall m, n {:trigger FirstPlace(s, m), FirstPlace(s, n)} | FirstAcceptable(s, m, allowed, budget) && FirstAcceptable(s, n, allowed, budget) ::
      m in s && n in s && (FirstPlace(s, m) < FirstPlace(s, n) ==> LastPlace(s, m) < LastPlace(s, n))
  }

  // The filter leaves the first occurrences in their order if and only if, for any two of them, the one that
  // comes first also has its last equal entry first.
  lemma OrderKeptIffPlacesAgree(s: seq<Modifier>, allowed: set<string>, budget: real)
    ensures Filtered(s, allowed, budget) == FirstOccurrences(s, allowed, budget) <==> PlacesAgree(s, allowed, budget)
  {
    var kept, firsts := Filtered(s, allowed, budget), FirstOccurrences(s, allowed, budget);
    var first, last := (m: Modifier) => if m in s then FirstPlace(s, m) else 0, (m: Modifier) => if m in s then LastPlace(s, m) else 0;
    SurvivorsByLastPlace(s, |s|, allowed, budget, last);
    assert s[..|s|] == s;
    FirstsByFirstPlace(s, |s|, allowed, budget, first);
    KeptAreTheFirsts(s, allowed, budget);
    if PlacesAgree(s, allowed, budget) {
      forall i, j | 0 <= i < j < |firsts| ensures last(firsts[i]) < last(firsts[j]) {
        assert firsts[i] in firsts && firsts[j] in firsts;
        assert FirstPlace(s, firsts[i]) < FirstPlace(s, firsts[j]);
      }
      AscendingListsAgree(kept, firsts, last);
    }
    if kept == firsts {
      forall m, n | FirstAcceptable(s, m, allowed, budget) && FirstAcceptable(s, n, allowed, budget)
        ensures m in s && n in s && (FirstPlace(s, m) < FirstPlace(s, n) ==> LastPlace(s, m) < LastPlace(s, n))
      {
        assert m in kept && n in kept;
        InOrder(kept, m, n, first, last);
      }
    }
  }

  lemma InOrder(s: seq<Modifier>, m: Modifier, n: Modifier, first: Modifier -> int, last: Modifier -> int)
    requires AscendsBy(s, first) && AscendsBy(s, last) && m in s && n in s
    ensures first(m) < first(n) ==> last(m) < last(n)
  {
    var i :| 0 <= i < |s| && s[i] == m;
    var j :| 0 <= j < |s| && s[j] == n;
  }

  lemma KeptAreTheFirsts(s: seq<Modifier>, allowed: set<string>, budget: real)
    ensures forall m :: m in Filtered(s, allowed, budget) <==> FirstAcceptable(s, m, allowed, budget)
    ensures forall m :: m in FirstOccurrences(s, allowed, budget) <==> FirstAcceptable(s, m, allowed, budget)
    ensures forall m :: FirstAcceptable(s, m, allowed, budget) ==> m in s
  {
    forall m ensures m in Filtered(s, allowed, budget) <==> FirstAcceptable(s, m, allowed, budget) {
      SurvivesIffFirstAcceptable(s, m, allowed, budget);
    }
    FilterLeavesFirstOccurrences(s, allowed, budget);
    forall m ensures m in FirstOccurrences(s, allowed, budget) <==> m in Filtered(s, allowed, budget) {
      assert m in multiset(FirstOccurrences(s, allowed, budget)) <==> m in multiset(Filtered(s, allowed, budget));
    }
  }

  lemma {:induction false} FirstOccurrencesOfDistinct(s: seq<Modifier>, allowed: set<string>, budget: real)
    requires DistinctKeys(s, KEYWORD)
    ensures FirstOccurrences(s, allowed, budget) == Keeping(s, m => Acceptable(m, allowed, budget))
  {
    if s != [] {
      var last := |s| - 1;
      FirstOccurrencesOfDistinct(s[..last], allowed, budget);
      forall i | 0 <= i < last ensures s[..last][i].keyword != s[last].keyword {
        assert KEYWORD(s[i]) != KEYWORD(s[last]);
      }
    }
  }

  // An update of the keywords, merged and then filtered: of the merged modifiers the acceptable ones remain, in their order.
  lemma UpdatedKeywords(prev: seq<Modifier>, next: seq<Modifier>, allowed: set<string>, budget: real)
    requires DistinctKeys(prev, KEYWORD) && DistinctKeys(next, KEYWORD)
    ensures var merged := Merged(prev, next, KEYWORD, LIVE);
            Filtered(merged, allowed, budget) == Keeping(merged, m => Acceptable(m, allowed, budget))
  {
    var merged := Merged(prev, next, KEYWORD, LIVE);
    MergedDistinct(prev, next, KEYWORD, LIVE);
    forall i, j | 0 <= i < j < |merged| ensures merged[i] != merged[j] {
      assert KEYWORD(merged[i]) != KEYWORD(merged[j]);
    }
    DistinctModifiersKeepTheirOrder(merged, allowed, budget);
    FirstOccurrencesOfDistinct(merged, allowed, budget);
  }

  // eligible is the gateway's answer for the UPCs.
  method ValidateKeywordTargeting(upcs: seq<string>, modifiers: ModifierList, budget: real, eligible: set<string>)
    returns (result: Result<seq<Detail>, Rejection>)
    modifies modifiers
    ensures result.Err? <==> |old(modifiers.items)| > 100 || upcs == []
    ensures result.Err? ==> modifiers.items == old(modifiers.items)
    ensures result == Err(TooManyKeywords) <==> |old(modifiers.items)| > 100
    ensures result.Ok? ==> modifiers.items == Filtered(old(modifiers.items), eligible, budget)
                           && result.value == Details(old(modifiers.items), eligible, budget)
    ensures result.Ok? ==> DetailsTell(old(modifiers.items), result.value, eligible, budget)
  {
    DetailsByPlace(modifiers.items, eligible, budget);
    if |modifiers.items| > 100 {
      return Err(TooManyKeywords);
    }
    if upcs == [] {
      return Err(NoUpcs);
    }
    var details := FilterInPlace(modifiers, budget, eligible);
    result := Ok(details);
  }

  // The walk over a copy of the list.
  method FilterInPlace(modifiers: ModifierList, budget: real, eligible: set<string>) returns (details: seq<Detail>)
    modifies modifiers
    ensures modifiers.items == Filtered(old(modifiers.items), eligible, budget)
    ensures details == Details(old(modifiers.items), eligible, budget)
  {
    var copy := modifiers.items;
    var seen: set<string> := {};
    details := [];
    WalkBegins(copy, eligible, budget);
    for i := 0 to |copy|
      invariant SeenUpTo(seen, copy, i)
      invariant Walked(modifiers.items, details, copy, i, eligible, budget)
    {
      seen, details := VisitNext(modifiers, copy, i, seen, details, budget, eligible);
    }
    WalkEnds(modifiers.items, details, copy, eligible, budget);
  }

  method VisitNext(modifiers: ModifierList, copy: seq<Modifier>, i: nat, seen: set<string>, details: seq<Detail>, budget: real, eligible: set<string>)
    returns (seen': set<string>, details': seq<Detail>)
    requires i < |copy| && SeenUpTo(seen, copy, i) && Walked(modifiers.items, details, copy, i, eligible, budget)
    modifies modifiers
    ensures SeenUpTo(seen', copy, i + 1) && Walked(modifiers.items, details', copy, i + 1, eligible, budget)
  {
    WalkStep(modifiers.items, details, copy, i, eligible, budget);
    SeenStep(seen, copy, i);
    var detail := Visit(modifiers, copy[i], seen, budget, eligible);
    seen' := seen + {copy[i].keyword};
    details' := if detail.Some? then details + [detail.value] else details;
  }

  // One visit: the modifier is dropped by value when there is something to say against it.
  method Visit(modifiers: ModifierList, modifier: Modifier, seen: set<string>, budget: real, eligible: set<string>) returns (detail: Option<Detail>)
    requires modifier in modifiers.items
    modifies modifiers
    ensures detail == Against(modifier, modifier.keyword in seen, eligible, budget)
    ensures modifiers.items == if detail.Some? then RemoveFirst(old(modifiers.items), modifier) else old(modifiers.items)
  {
    var keyword := modifier.keyword;
    detail := None;
    if keyword in seen {
      detail := Some(Duplicate(keyword));
    } else if keyword !in eligible {
      detail := Some(NotAllowed(keyword));
    } else if modifier.modifier <= 0.0 {
      detail := Some(NotPositive(keyword));
    } else if modifier.modifier >= budget {
      detail := Some(OverBudget(keyword));
    }
    if detail.Some? {
      modifiers.Remove(modifier);
    }
  }

  ghost predicate SeenUpTo(seen: set<string>, copy: seq<Modifier>, i: nat)
    requires i <= |copy|
  {
    forall k :: k in seen <==> Seen(copy[..i], k)
  }

  lemma SeenStep(seen: set<string>, copy: seq<Modifier>, i: nat)
    requires i < |copy| && SeenUpTo(seen, copy, i)
    ensures SeenUpTo(seen + {copy[i].keyword}, copy, i + 1)
    ensures copy[i].keyword in seen <==> Seen(copy[..i], copy[i].keyword)
    ensures copy[i].keyword in seen ==> seen + {copy[i].keyword} == seen
  {
    forall k ensures Seen(copy[..i + 1], k) <==> Seen(copy[..i], k) || k == copy[i].keyword {
      if Seen(copy[..i], k) {
        var j :| 0 <= j < i && copy[..i][j].keyword == k;
        assert copy[..i + 1][j].keyword == k;
      }
      assert copy[..i + 1][i] == copy[i];
      if Seen(copy[..i + 1], k) {
        var j :| 0 <= j < i + 1 && copy[..i + 1][j].keyword == k;
        assert j < i ==> copy[..i][j].keyword == k;
      }
    }
  }

  // After i visits: the edited list, and the details of what was dropped.
  ghost predicate Walked(items: seq<Modifier>, details: seq<Detail>, copy: seq<Modifier>, i: nat, allowed: set<string>, budget: real)
    requires i <= |copy|
  {
    items == Filtered(copy[..i], allowed, budget) + copy[i..] && details == Details(copy[..i], allowed, budget)
  }

  lemma WalkBegins(copy: seq<Modifier>, allowed: set<string>, budget: real)
    ensures SeenUpTo({}, copy, 0) && Walked(copy, [], copy, 0, allowed, budget)
  {
  }

  lemma WalkEnds(items: seq<Modifier>, details: seq<Detail>, copy: seq<Modifier>, allowed: set<string>, budget: real)
    requires Walked(items, details, copy, |copy|, allowed, budget)
    ensures items == Filtered(copy, allowed, budget) && details == Details(copy, allowed, budget)
  {
    assert copy[..|copy|] == copy;
  }

  // What visiting entry i does to the edited list and to the details.
  lemma WalkStep(items: seq<Modifier>, details: seq<Detail>, copy: seq<Modifier>, i: nat, allowed: set<string>, budget: real)
    requires i < |copy| && Walked(items, details, copy, i, allowed, budget)
    ensures copy[i] in items
    ensures var verdict := Verdict(copy[..i], copy[i], allowed, budget);
            if verdict.None? then Walked(items, details, copy, i + 1, allowed, budget)
            else Walked(RemoveFirst(items, copy[i]), details + [verdict.value], copy, i + 1, allowed, budget)
  {
    var m, rest := copy[i], copy[i + 1..];
    assert copy[..i + 1] == copy[..i] + [m] && copy[i..] == [m] + rest;
    FilterStep(copy[..i], m, allowed, budget);
    VisitStep(Filtered(copy[..i], allowed, budget), m, rest);
    assert Details(copy[..i] + [m], allowed, budget)
           == Details(copy[..i], allowed, budget) + var verdict := Verdict(copy[..i], m, allowed, budget); if verdict.Some? then [verdict.value] else [] by {
      assert (copy[..i] + [m])[..i] == copy[..i];
    }
  }

  lemma VisitStep(kept: seq<Modifier>, m: Modifier, rest: seq<Modifier>)
    ensures m in kept + ([m] + rest)
    ensures kept + ([m] + rest) == kept + [m] + rest
    ensures RemoveFirst(kept + ([m] + rest), m) == if m in kept then RemoveFirst(kept, m) + [m] + rest else kept + rest
  {
    assert ([m] + rest)[0] == m && ([m] + rest)[1..] == rest;
    assert (kept + ([m] + rest))[|kept|] == m;
    RemoveFirstOfConcat(kept, [m] + rest, m);
  }

  lemma {:induction false} RemoveFirstOfConcat(s: seq<Modifier>, t: seq<Modifier>, m: Modifier)
    ensures RemoveFirst(s + t, m) == if m in s then RemoveFirst(s, m) + t else s + RemoveFirst(t, m)
  {
    if s == [] {
      assert s + t == t;
    } else {
      assert (s + t)[1..] == s[1..] + t;
      RemoveFirstOfConcat(s[1..], t, m);
    }
  }
}
