/**
The shared counter short ids are drawn from, with any number of calls in flight: a batch
reserves its range in two Redis commands, and other calls may fall between the two.
 */
module IdCounter {
  import opened PyDict

  // Where a call stands: a batch has done INCR and owes INCRBY, or the whole range is claimed.
  datatype Stage = Reserved | Claimed | Returned

  datatype Call = Call(first: int, keys: seq<string>, stage: Stage)

  // calls lists every call ever begun, oldest first; requested adds up their list lengths.
  datatype State = State(counter: int, requested: nat, calls: seq<Call>)

  datatype Step =
    | BeginSingle(key: string)         // INCR of assign_numeric_id
    | BeginBatch(keys: seq<string>)    // INCR of assign_numeric_id_batch, whose empty list returns before it
    | Extend(i: nat)                   // INCRBY len(keys) - 1
    | Return(i: nat)                   // SET or MSET, then the ids go to the caller

  const Init := State(0, 0, [])

  predicate Enabled(s: State, step: Step) {
    match step
    case BeginSingle(_) => true
    case BeginBatch(keys) => keys != []
    case Extend(i) => i < |s.calls| && s.calls[i].stage.Reserved?
    case Return(i) => i < |s.calls| && s.calls[i].stage.Claimed?
  }

  function Apply(s: State, step: Step): State
    requires Enabled(s, step)
  {
    match step
    case BeginSingle(key) =>
      State(s.counter + 1, s.requested + 1, s.calls + [Call(s.counter + 1, [key], Claimed)])
    case BeginBatch(keys) =>
      State(s.counter + 1, s.requested + |keys|, s.calls + [Call(s.counter + 1, keys, Reserved)])
    case Extend(i) =>
      s.(counter := s.counter + |s.calls[i].keys| - 1, calls := s.calls[i := s.calls[i].(stage := Claimed)])
    case Return(i) => s.(calls := s.calls[i := s.calls[i].(stage := Returned)])
  }

  ghost predicate IsRun(states: seq<State>, steps: seq<Step>) {
    && |states| == |steps| + 1 && states[0] == Init
    && forall i :: 0 <= i < |steps| ==> Enabled(states[i], steps[i]) && states[i + 1] == Apply(states[i], steps[i])
  }

  // ---- What the counter still owes ----

  function Owes(call: Call): int {
    if call.stage.Reserved? then |call.keys| - 1 else 0
  }

  function Owed(calls: seq<Call>): int {
    if calls == [] then 0 else Owed(calls[..|calls| - 1]) + Owes(calls[|calls| - 1])
  }

  lemma {:induction false} OwedUpdate(calls: seq<Call>, i: nat, call: Call)
    requires i < |calls|
    ensures Owed(calls[i := call]) == Owed(calls) - Owes(calls[i]) + Owes(call)
  {
    var last := |calls| - 1;
    if i == last {
      assert calls[i := call][..last] == calls[..last];
    } else {
      assert calls[i := call][..last] == calls[..last][i := call];
      OwedUpdate(calls[..last], i, call);
    }
  }

  ghost predicate Accounted(s: State) {
    && s.counter + Owed(s.calls) == s.requested
    && forall i :: 0 <= i < |s.calls| ==> s.calls[i].keys != []
  }

  lemma StepAccounted(s: State, step: Step)
    requires Accounted(s) && Enabled(s, step)
    ensures Accounted(Apply(s, step))
  {
    if step.Extend? || step.Return? {
      OwedUpdate(s.calls, step.i, Apply(s, step).calls[step.i]);
    } else {
      assert Apply(s, step).calls[..|s.calls|] == s.calls;
    }
  }

  // In every interleaving the counter plus the increments still owed is the number of ids asked for.
  lemma {:induction false} CounterPlusOwedIsRequested(states: seq<State>, steps: seq<Step>, i: nat)
    requires IsRun(states, steps) && i <= |steps|
    ensures Accounted(states[i])
  {
    if i > 0 {
      CounterPlusOwedIsRequested(states, steps, i - 1);
      StepAccounted(states[i - 1], steps[i - 1]);
    }
  }

  // ---- The ids a call hands out ----

  function LastIndex(keys: seq<string>, key: string): (i: nat)
    requires key in keys
    ensures i < |keys| && keys[i] == key && key !in keys[i + 1..]
  {
    var last := |keys| - 1;
    if keys[last] == key then last else
      assert key in keys[..last];
      var i := LastIndex(keys[..last], key);
      assert keys[i + 1..] == keys[..last][i + 1..] + [keys[last]];
      i
  }

  // The dict of the batch gives a repeated key the id of its last place.
  function IdOf(call: Call, key: string): int
    requires key in call.keys
  {
    call.first + LastIndex(call.keys, key)
  }

  // No id is handed out to two different keys or by two different calls.
  ghost predicate IdsDistinct(calls: seq<Call>) {
    forall i, j, k, l ::
      0 <= i < |calls| && 0 <= j < |calls| && k in calls[i].keys && l in calls[j].keys && (i != j || k != l) ==>
        IdOf(calls[i], k) != IdOf(calls[j], l)
  }

  // Every id from 1 to the number requested is handed out.
  ghost predicate GapFree(s: State) {
    forall id :: 1 <= id <= s.requested ==> HandedOut(s.calls, id)
  }

  ghost predicate HandedOut(calls: seq<Call>, id: int) {
    exists i, k :: 0 <= i < |calls| && k in calls[i].keys && IdOf(calls[i], k) == id
  }

  // ---- Exactly when ids collide ----

  predicate Begins(step: Step) {
    step.BeginSingle? || step.BeginBatch?
  }

  // No call does its INCR while another batch still owes increments.
  ghost predicate Undisturbed(states: seq<State>, steps: seq<Step>, n: nat)
    requires IsRun(states, steps) && n <= |steps|
  {
    forall i :: 0 <= i < n && Begins(steps[i]) ==> Owed(states[i].calls) == 0
  }

  // The first id after the ranges of the first i calls, when these follow each other.
  function RangeStart(calls: seq<Call>, i: nat): int
    requires i <= |calls|
  {
    if i == 0 then 1 else calls[i - 1].first + |calls[i - 1].keys|
  }

  // The ranges follow each other without gap, and only the newest call may still owe increments.
  ghost predicate Consecutive(s: State) {
    && (forall i :: 0 <= i < |s.calls| ==> s.calls[i].first == RangeStart(s.calls, i))
    && (forall i :: 0 <= i < |s.calls| - 1 ==> Owes(s.calls[i]) == 0)
    && s.requested == RangeStart(s.calls, |s.calls|) - 1
  }

  lemma {:induction false} OwedAtLeast(calls: seq<Call>, i: nat)
    requires forall j :: 0 <= j < |calls| ==> calls[j].keys != []
    requires i < |calls|
    ensures 0 <= Owes(calls[i]) <= Owed(calls)
  {
    var last := |calls| - 1;
    if last > 0 {
      OwedAtLeast(calls[..last], if i < last then i else last - 1);
    }
  }

  lemma BeginConsecutive(s: State, step: Step)
    requires Accounted(s) && Consecutive(s) && Enabled(s, step) && Begins(step) && Owed(s.calls) == 0
    ensures Consecutive(Apply(s, step))
  {
    var t := Apply(s, step);
    forall i | 0 <= i < |s.calls| ensures Owes(s.calls[i]) == 0 {
      OwedAtLeast(s.calls, i);
    }
    assert s.counter == RangeStart(s.calls, |s.calls|) - 1;
    forall i | 0 <= i < |t.calls| ensures t.calls[i].first == RangeStart(t.calls, i) {
      assert RangeStart(t.calls, i) == RangeStart(s.calls, i);
      assert i < |s.calls| ==> t.calls[i] == s.calls[i];
    }
  }

  lemma StageConsecutive(s: State, step: Step)
    requires Consecutive(s) && Enabled(s, step) && !Begins(step)
    ensures Consecutive(Apply(s, step))
  {
    var t := Apply(s, step);
    assert |t.calls| == |s.calls| && t.requested == s.requested;
    forall i | 0 <= i < |t.calls|
      ensures t.calls[i].first == s.calls[i].first && t.calls[i].keys == s.calls[i].keys
      ensures Owes(t.calls[i]) == Owes(s.calls[i]) || Owes(t.calls[i]) == 0
    {
    }
    SameRanges(s, t);
  }

  lemma SameRanges(s: State, t: State)
    requires Consecutive(s) && |t.calls| == |s.calls| && t.requested == s.requested
    requires forall i :: 0 <= i < |s.calls| ==> t.calls[i].first == s.calls[i].first && t.calls[i].keys == s.calls[i].keys
    requires forall i :: 0 <= i < |s.calls| ==> Owes(t.calls[i]) == Owes(s.calls[i]) || Owes(t.calls[i]) == 0
    ensures Consecutive(t)
  {
    forall i | 0 <= i <= |t.calls| ensures RangeStart(t.calls, i) == RangeStart(s.calls, i) {
    }
  }

  lemma StepConsecutive(s: State, step: Step)
    requires Accounted(s) && Consecutive(s) && Enabled(s, step)
    requires Begins(step) ==> Owed(s.calls) == 0
    ensures Consecutive(Apply(s, step))
  {
    if Begins(step) {
      BeginConsecutive(s, step);
    } else {
      StageConsecutive(s, step);
    }
  }

  lemma {:induction false} UndisturbedIsConsecutive(states: seq<State>, steps: seq<Step>, n: nat)
    requires IsRun(states, steps) && n <= |steps| && Undisturbed(states, steps, n)
    ensures Consecutive(states[n])
  {
    if n > 0 {
      UndisturbedIsConsecutive(states, steps, n - 1);
      CounterPlusOwedIsRequested(states, steps, n - 1);
      StepConsecutive(states[n - 1], steps[n - 1]);
    }
  }

  lemma {:induction false} LaterRange(s: State, i: nat, j: nat)
    requires Accounted(s) && Consecutive(s) && i < j < |s.calls|
    ensures s.calls[i].first + |s.calls[i].keys| <= s.calls[j].first
  {
    if i + 1 < j {
      LaterRange(s, i, j - 1);
    }
  }

  lemma ConsecutiveIsDistinct(s: State)
    requires Accounted(s) && Consecutive(s)
    ensures IdsDistinct(s.calls)
  {
    forall i, j, k, l |
      0 <= i < |s.calls| && 0 <= j < |s.calls| && k in s.calls[i].keys && l in s.calls[j].keys && (i != j || k != l)
      ensures IdOf(s.calls[i], k) != IdOf(s.calls[j], l)
    {
      if i < j {
        LaterRange(s, i, j);
      } else if j < i {
        LaterRange(s, j, i);
      }
    }
  }

  lemma {:induction false} IdIsInARange(s: State, n: nat, id: int)
    requires Accounted(s) && Consecutive(s) && 0 < n <= |s.calls|
    requires 1 <= id < s.calls[n - 1].first + |s.calls[n - 1].keys|
    ensures exists i :: 0 <= i < n && s.calls[i].first <= id < s.calls[i].first + |s.calls[i].keys|
  {
    if id < s.calls[n - 1].first {
      assert s.calls[n - 1].first == RangeStart(s.calls, n - 1);
      IdIsInARange(s, n - 1, id);
    }
  }

  lemma ConsecutiveIsGapFree(s: State)
    requires Accounted(s) && Consecutive(s)
    requires forall i :: 0 <= i < |s.calls| ==> Unrepeated(s.calls[i].keys)
    ensures GapFree(s)
  {
    forall id | 1 <= id <= s.requested ensures HandedOut(s.calls, id) {
      IdIsInARange(s, |s.calls|, id);
      var i :| 0 <= i < |s.calls| && s.calls[i].first <= id < s.calls[i].first + |s.calls[i].keys|;
      var k := s.calls[i].keys[id - s.calls[i].first];
      assert IdOf(s.calls[i], k) == id;
    }
  }

  // With nothing between the two commands of a batch, no two keys ever share an id;
  // when no list repeats a key, no id is skipped either.
  lemma UndisturbedIdsAreDistinct(states: seq<State>, steps: seq<Step>)
    requires IsRun(states, steps) && Undisturbed(states, steps, |steps|)
    ensures IdsDistinct(states[|steps|].calls)
    ensures (forall i :: 0 <= i < |states[|steps|].calls| ==> Unrepeated(states[|steps|].calls[i].keys)) ==> GapFree(states[|steps|])
  {
    var s := states[|steps|];
    CounterPlusOwedIsRequested(states, steps, |steps|);
    UndisturbedIsConsecutive(states, steps, |steps|);
    ConsecutiveIsDistinct(s);
    if forall i :: 0 <= i < |s.calls| ==> Unrepeated(s.calls[i].keys) {
      ConsecutiveIsGapFree(s);
    }
  }

  // A call's range never changes once begun.
  lemma {:induction false} CallsKeepTheirRange(states: seq<State>, steps: seq<Step>, m: nat, n: nat, i: nat)
    requires IsRun(states, steps) && m <= n <= |steps| && i < |states[m].calls|
    ensures i < |states[n].calls|
    ensures states[n].calls[i].first == states[m].calls[i].first && states[n].calls[i].keys == states[m].calls[i].keys
  {
    if m < n {
      CallsKeepTheirRange(states, steps, m, n - 1, i);
    }
  }

  // The first INCR to fall on an owing batch takes the second id of that batch.
  lemma DisturbedRangesMeet(s: State, step: Step)
    requires Accounted(s) && Consecutive(s) && Enabled(s, step) && Begins(step) && Owed(s.calls) != 0
    ensures var t, last := Apply(s, step), |s.calls| - 1;
            last >= 0 && |t.calls[last].keys| >= 2 && t.calls[last + 1].first == t.calls[last].first + 1
  {
    var last := |s.calls| - 1;
    if last >= 0 {
      NobodyOwes(s.calls[..last]);
      assert Owed(s.calls) == Owes(s.calls[last]);
    }
    assert s.counter == RangeStart(s.calls, |s.calls|) - 1 - Owed(s.calls);
  }

  lemma {:induction false} NobodyOwes(calls: seq<Call>)
    requires forall i :: 0 <= i < |calls| ==> Owes(calls[i]) == 0
    ensures Owed(calls) == 0
  {
    if calls != [] {
      NobodyOwes(calls[..|calls| - 1]);
    }
  }

  lemma DisturbedIdsCollide(states: seq<State>, steps: seq<Step>, n: nat)
    requires IsRun(states, steps) && n < |steps| && Undisturbed(states, steps, n)
    requires Begins(steps[n]) && Owed(states[n].calls) != 0
    requires forall i :: 0 <= i < |states[|steps|].calls| ==> Unrepeated(states[|steps|].calls[i].keys)
    ensures !IdsDistinct(states[|steps|].calls)
  {
    CounterPlusOwedIsRequested(states, steps, n);
    CounterPlusOwedIsRequested(states, steps, n + 1);
    UndisturbedIsConsecutive(states, steps, n);
    DisturbedRangesMeet(states[n], steps[n]);
    var i, calls := |states[n].calls| - 1, states[|steps|].calls;
    CallsKeepTheirRange(states, steps, n + 1, |steps|, i);
    CallsKeepTheirRange(states, steps, n + 1, |steps|, i + 1);
    var k, l := calls[i].keys[1], calls[i + 1].keys[0];
    assert IdOf(calls[i], k) == IdOf(calls[i + 1], l);
  }

  // For lists that repeat no key, over every run: the ids are distinct exactly when no INCR
  // fell between the two commands of a batch of two or more.
  lemma IdsDistinctIffUndisturbed(states: seq<State>, steps: seq<Step>)
    requires IsRun(states, steps)
    requires forall i :: 0 <= i < |states[|steps|].calls| ==> Unrepeated(states[|steps|].calls[i].keys)
    ensures IdsDistinct(states[|steps|].calls) <==> Undisturbed(states, steps, |steps|)
  {
    if Undisturbed(states, steps, |steps|) {
      UndisturbedIdsAreDistinct(states, steps);
    } else {
      var n := FirstDisturbance(states, steps, |steps|);
      DisturbedIdsCollide(states, steps, n);
    }
  }

  lemma {:induction false} FirstDisturbance(states: seq<State>, steps: seq<Step>, m: nat) returns (n: nat)
    requires IsRun(states, steps) && m <= |steps| && !Undisturbed(states, steps, m)
    ensures n < m && Undisturbed(states, steps, n) && Begins(steps[n]) && Owed(states[n].calls) != 0
  {
    if Undisturbed(states, steps, m - 1) {
      n := m - 1;
    } else {
      n := FirstDisturbance(states, steps, m - 1);
    }
  }

  // No two calls reserve a number in common.
  ghost predicate RangesDisjoint(calls: seq<Call>) {
    forall i, j :: 0 <= i < j < |calls| ==>
      calls[i].first + |calls[i].keys| <= calls[j].first || calls[j].first + |calls[j].keys| <= calls[i].first
  }

  // For any lists, over every run: the reserved ranges are disjoint exactly when no INCR fell between the two
  // commands of a batch of two or more.
  lemma RangesDisjointIffUndisturbed(states: seq<State>, steps: seq<Step>)
    requires IsRun(states, steps)
    ensures RangesDisjoint(states[|steps|].calls) <==> Undisturbed(states, steps, |steps|)
  {
    var s := states[|steps|];
    if Undisturbed(states, steps, |steps|) {
      CounterPlusOwedIsRequested(states, steps, |steps|);
      UndisturbedIsConsecutive(states, steps, |steps|);
      forall i, j | 0 <= i < j < |s.calls| ensures s.calls[i].first + |s.calls[i].keys| <= s.calls[j].first {
        LaterRange(s, i, j);
      }
    } else {
      var n := FirstDisturbance(states, steps, |steps|);
      DisturbedRangesOverlap(states, steps, n);
    }
  }

  lemma DisturbedRangesOverlap(states: seq<State>, steps: seq<Step>, n: nat)
    requires IsRun(states, steps) && n < |steps| && Undisturbed(states, steps, n)
    requires Begins(steps[n]) && Owed(states[n].calls) != 0
    ensures !RangesDisjoint(states[|steps|].calls)
  {
    CounterPlusOwedIsRequested(states, steps, n);
    CounterPlusOwedIsRequested(states, steps, n + 1);
    UndisturbedIsConsecutive(states, steps, n);
    DisturbedRangesMeet(states[n], steps[n]);
    var i, calls := |states[n].calls| - 1, states[|steps|].calls;
    CallsKeepTheirRange(states, steps, n + 1, |steps|, i);
    CallsKeepTheirRange(states, steps, n + 1, |steps|, i + 1);
    assert calls[i + 1].keys != [];
  }

  // Two clients, two keys each, one INCR between the other's two commands: both calls return and share an id.
  lemma TwoClientsCollide()
    ensures exists states: seq<State>, steps: seq<Step> ::
              && IsRun(states, steps)
              && states[|steps|].calls == [Call(1, ["a", "b"], Returned), Call(2, ["c", "d"], Returned)]
              && !IdsDistinct(states[|steps|].calls)
  {
    var ab, cd := ["a", "b"], ["c", "d"];
    var states, steps := [Init], [];
    states, steps := Then(states, steps, BeginBatch(ab), State(1, 2, [Call(1, ab, Reserved)]));
    states, steps := Then(states, steps, BeginBatch(cd), State(2, 4, [Call(1, ab, Reserved), Call(2, cd, Reserved)]));
    states, steps := Then(states, steps, Extend(0), State(3, 4, [Call(1, ab, Claimed), Call(2, cd, Reserved)]));
    states, steps := Then(states, steps, Extend(1), State(4, 4, [Call(1, ab, Claimed), Call(2, cd, Claimed)]));
    states, steps := Then(states, steps, Return(0), State(4, 4, [Call(1, ab, Returned), Call(2, cd, Claimed)]));
    states, steps := Then(states, steps, Return(1), State(4, 4, [Call(1, ab, Returned), Call(2, cd, Returned)]));
    var calls := states[|steps|].calls;
    assert ab[0][0] == 'a' && ab[1][0] == 'b' && cd[0][0] == 'c' && cd[1][0] == 'd';
    assert IdOf(calls[0], ab[1]) == IdOf(calls[1], cd[0]);
  }

  // A list that repeats a key leaves numbers unused, so overlapping ranges need not give two keys one id.
  lemma OverlapWithoutCollision()
    ensures exists states: seq<State>, steps: seq<Step> ::
              && IsRun(states, steps) && !Undisturbed(states, steps, |steps|)
              && states[|steps|].calls == [Call(1, ["a", "b"], Reserved), Call(2, ["c", "c"], Reserved)]
              && IdsDistinct(states[|steps|].calls)
  {
    var ab, cc := ["a", "b"], ["c", "c"];
    assert ab[0][0] != ab[1][0];
    OverlappingRun(ab, cc);
    IdsOfOverlap(ab[0], ab[1], cc[0]);
  }

  lemma OverlappingRun(ab: seq<string>, cc: seq<string>)
    requires |ab| == 2 && |cc| == 2
    ensures exists states: seq<State>, steps: seq<Step> ::
              && IsRun(states, steps) && !Undisturbed(states, steps, |steps|)
              && states[|steps|].calls == [Call(1, ab, Reserved), Call(2, cc, Reserved)]
  {
    var first, second := Call(1, ab, Reserved), Call(2, cc, Reserved);
    var states, steps := [Init, State(1, 2, [first]), State(2, 4, [first, second])], [BeginBatch(ab), BeginBatch(cc)];
    assert IsRun(states, steps) by {
      assert [first] + [second] == [first, second];
    }
    assert states[1].calls[..0] == [] && Owed(states[1].calls) == Owes(first);
    assert Begins(steps[1]) && Owed(states[1].calls) != 0;
  }

  lemma IdsOfOverlap(a: string, b: string, c: string)
    requires a != b
    ensures IdsDistinct([Call(1, [a, b], Reserved), Call(2, [c, c], Reserved)])
  {
    var calls := [Call(1, [a, b], Reserved), Call(2, [c, c], Reserved)];
    assert LastIndex([a, b], a) == 0 by {
      assert [a, b][0] == a && [a, b][1] == b;
    }
    assert LastIndex([a, b], b) == 1 && LastIndex([c, c], c) == 1;
  }

  lemma Then(states: seq<State>, steps: seq<Step>, step: Step, next: State) returns (states': seq<State>, steps': seq<Step>)
    requires IsRun(states, steps) && Enabled(states[|steps|], step) && next == Apply(states[|steps|], step)
    ensures IsRun(states', steps') && states'[|steps'|] == next
  {
    states', steps' := states + [next], steps + [step];
  }
}
