/**
Bindings by several clients at once: each reads the cache, numbers what it found missing,
and writes the numbers, with other bindings between any two of these. The numbers themselves
are taken from the counter in one go; IdCounter tells what becomes of that.
 */
module BindingRace {
  import opened PyDict

  datatype Stage = HasRead | HasNumbered | HasWritten

  // A binding that finds everything takes no number and writes nothing: its last two steps then change nothing.
  // found is what the read had; missing what it had not, numbered from first on.
  datatype Call = Call(found: map<string, nat>, missing: seq<string>, first: nat, stage: Stage)

  // calls lists every binding ever begun, oldest first.
  datatype State = State(cache: map<string, nat>, counter: nat, calls: seq<Call>)

  datatype Step =
    | Read(upcs: seq<string>)   // MGET of the different UPCs of a list of bids
    | Number(i: nat)            // INCR and INCRBY
    | Write(i: nat)             // MSET

  ghost predicate Enabled(s: State, step: Step) {
    match step
    case Read(upcs) => Unrepeated(upcs)
    case Number(i) => i < |s.calls| && s.calls[i].stage.HasRead?
    case Write(i) => i < |s.calls| && s.calls[i].stage.HasNumbered?
  }

  // The id a binding hands out for a UPC.
  function IdOf(call: Call, upc: string): nat {
    if upc in call.found then call.found[upc] else call.first + Place(call.missing, upc)
  }

  function Numbers(call: Call): map<string, nat> {
    map upc | upc in call.missing :: IdOf(call, upc)
  }

  function Reading(cache: map<string, nat>, upcs: seq<string>): Call {
    Call(map upc | upc in upcs && upc in cache :: cache[upc], Filter(upcs, upc => upc !in cache), 0, HasRead)
  }

  function Apply(s: State, step: Step): State
    requires step.Read? || step.i < |s.calls|
  {
    match step
    case Read(upcs) => s.(calls := s.calls + [Reading(s.cache, upcs)])
    case Number(i) =>
      State(s.cache, s.counter + |s.calls[i].missing|, s.calls[i := s.calls[i].(first := s.counter + 1, stage := HasNumbered)])
    case Write(i) =>
      State(s.cache + Numbers(s.calls[i]), s.counter, s.calls[i := s.calls[i].(stage := HasWritten)])
  }

  ghost predicate IsRun(states: seq<State>, steps: seq<Step>) {
    && |states| == |steps| + 1 && states[0].calls == []
    && forall i :: 0 <= i < |steps| ==> Enabled(states[i], steps[i]) && states[i + 1] == Apply(states[i], steps[i])
  }

  // ---- In any run ----

  // What is asked for is found or missing, and the ranges of numbers are apart and within the counter.
  ghost predicate Ranged(s: State) {
    && (forall i :: 0 <= i < |s.calls| ==> RangeFits(s.calls[i], s.counter))
    && (forall i, j :: 0 <= i < |s.calls| && 0 <= j < |s.calls| && i != j && !s.calls[i].stage.HasRead? && !s.calls[j].stage.HasRead? ==>
          RangesApart(s.calls[i], s.calls[j]))
  }

  ghost predicate RangeFits(call: Call, counter: nat) {
    && (forall upc :: upc in call.missing ==> upc !in call.found)
    && (!call.stage.HasRead? ==> call.first + |call.missing| <= counter + 1)
  }

  ghost predicate RangesApart(c: Call, d: Call) {
    c.first + |c.missing| <= d.first || d.first + |d.missing| <= c.first
  }

  lemma ReadingFits(cache: map<string, nat>, upcs: seq<string>)
    ensures forall upc :: upc in Reading(cache, upcs).missing <==> upc in upcs && upc !in cache
    ensures Unrepeated(upcs) ==> Unrepeated(Reading(cache, upcs).missing)
  {
    FilterKeeps(upcs, upc => upc !in cache);
  }

  lemma StepRanged(s: State, step: Step)
    requires Ranged(s) && Enabled(s, step)
    ensures Ranged(Apply(s, step))
  {
    if step.Read? {
      ReadingFits(s.cache, step.upcs);
    }
  }

  lemma {:induction false} RunRanged(states: seq<State>, steps: seq<Step>, n: nat)
    requires IsRun(states, steps) && n <= |steps|
    ensures Ranged(states[n])
  {
    if n > 0 {
      RunRanged(states, steps, n - 1);
      StepRanged(states[n - 1], steps[n - 1]);
    }
  }

  // A binding's lists stay as they were read, and its number as it was given.
  lemma {:induction false} CallsStay(states: seq<State>, steps: seq<Step>, m: nat, n: nat, i: nat)
    requires IsRun(states, steps) && m <= n <= |steps| && i < |states[m].calls|
    ensures i < |states[n].calls|
    ensures states[n].calls[i].found == states[m].calls[i].found && states[n].calls[i].missing == states[m].calls[i].missing
  {
    if m < n {
      CallsStay(states, steps, m, n - 1, i);
    }
  }

  // ---- When no read falls on another binding's missing UPC ----

  // No UPC is read while another binding that found it missing has not written it yet.
  predicate Alone(s: State, upcs: seq<string>) {
    forall i :: 0 <= i < |s.calls| && !s.calls[i].stage.HasWritten? ==> forall upc :: upc in s.calls[i].missing ==> upc !in upcs
  }

  ghost predicate Unraced(states: seq<State>, steps: seq<Step>, n: nat)
    requires |states| == |steps| + 1 && n <= |steps|
  {
    forall i :: 0 <= i < n && steps[i].Read? ==> Alone(states[i], steps[i].upcs)
  }

  // What a binding found is still cached, and so is what it wrote; what it has yet to write is not, and no other
  // binding is about to write it.
  ghost predicate Consistent(s: State) {
    && (forall i :: 0 <= i < |s.calls| ==> HoldsFor(s.cache, s.calls[i]))
    && (forall i, j :: 0 <= i < |s.calls| && 0 <= j < |s.calls| && i != j && !s.calls[i].stage.HasWritten? && !s.calls[j].stage.HasWritten? ==>
          Disjoint(s.calls[i].missing, s.calls[j].missing))
  }

  ghost predicate Disjoint(keys: seq<string>, others: seq<string>) {
    forall k :: k in keys ==> k !in others
  }

  ghost predicate HoldsFor(cache: map<string, nat>, call: Call) {
    && (forall upc :: upc in call.found ==> upc in cache && cache[upc] == call.found[upc])
    && (forall upc :: upc in call.missing && call.stage.HasWritten? ==> upc in cache && cache[upc] == IdOf(call, upc))
    && (forall upc :: upc in call.missing && !call.stage.HasWritten? ==> upc !in cache)
  }

  lemma StepConsistent(s: State, step: Step)
    requires Consistent(s) && Ranged(s) && Enabled(s, step) && (step.Read? ==> Alone(s, step.upcs))
    ensures Consistent(Apply(s, step))
  {
    match step
    case Read(upcs) => ReadConsistent(s, upcs);
    case Number(_) =>
    case Write(i) => WriteConsistent(s, i);
  }

  lemma ReadConsistent(s: State, upcs: seq<string>)
    requires Consistent(s) && Alone(s, upcs)
    ensures Consistent(Apply(s, Read(upcs)))
  {
    ReadingFits(s.cache, upcs);
    var t, last := Apply(s, Read(upcs)), |s.calls|;
    forall i | 0 <= i < last && !s.calls[i].stage.HasWritten?
      ensures Disjoint(t.calls[i].missing, t.calls[last].missing) && Disjoint(t.calls[last].missing, t.calls[i].missing)
    {
      assert t.calls[i] == s.calls[i];
    }
  }

  lemma WriteConsistent(s: State, i: nat)
    requires Consistent(s) && Enabled(s, Write(i)) && Ranged(s)
    ensures Consistent(Apply(s, Write(i)))
  {
    var t := Apply(s, Write(i));
    forall j | 0 <= j < |t.calls| ensures HoldsFor(t.cache, t.calls[j]) {
      if j == i {
        assert HoldsFor(s.cache, s.calls[i]) && RangeFits(s.calls[i], s.counter);
      } else {
        assert HoldsFor(s.cache, s.calls[j]) && HoldsFor(s.cache, s.calls[i]);
      }
    }
  }

  lemma {:induction false} UnracedConsistent(states: seq<State>, steps: seq<Step>, n: nat)
    requires IsRun(states, steps) && n <= |steps| && Unraced(states, steps, n)
    ensures Consistent(states[n])
  {
    if n > 0 {
      UnracedConsistent(states, steps, n - 1);
      RunRanged(states, steps, n - 1);
      StepConsistent(states[n - 1], steps[n - 1]);
    }
  }

  // ---- One id for every UPC ----

  predicate AllWritten(s: State) {
    forall i :: 0 <= i < |s.calls| ==> s.calls[i].stage.HasWritten?
  }

  // Every binding handed out the id the cache has.
  ghost predicate Agreed(s: State) {
    forall i :: 0 <= i < |s.calls| ==> HandedOut(s.cache, s.calls[i])
  }

  ghost predicate HandedOut(cache: map<string, nat>, call: Call) {
    forall upc :: upc in call.found || upc in call.missing ==> upc in cache && cache[upc] == IdOf(call, upc)
  }

  // Over any run, once all bindings are done: each handed out the id the cache has, so that all handed out the same, if
  // and only if no UPC was read between another binding's finding it missing and writing it.
  lemma AgreedIffUnraced(states: seq<State>, steps: seq<Step>)
    requires IsRun(states, steps) && AllWritten(states[|steps|])
    ensures Agreed(states[|steps|]) <==> Unraced(states, steps, |steps|)
  {
    var s := states[|steps|];
    if Unraced(states, steps, |steps|) {
      UnracedConsistent(states, steps, |steps|);
      forall i | 0 <= i < |s.calls| ensures HandedOut(s.cache, s.calls[i]) {
        assert HoldsFor(s.cache, s.calls[i]);
      }
    } else {
      var n := FirstRace(states, steps, |steps|);
      RacedDisagree(states, steps, n);
    }
  }

  lemma {:induction false} FirstRace(states: seq<State>, steps: seq<Step>, m: nat) returns (n: nat)
    requires IsRun(states, steps) && m <= |steps| && !Unraced(states, steps, m)
    ensures n < m && Unraced(states, steps, n) && steps[n].Read? && !Alone(states[n], steps[n].upcs)
  {
    if Unraced(states, steps, m - 1) {
      n := m - 1;
    } else {
      n := FirstRace(states, steps, m - 1);
    }
  }

  // The two bindings of a race both number the UPC, and differently.
  lemma RacedDisagree(states: seq<State>, steps: seq<Step>, n: nat)
    requires IsRun(states, steps) && AllWritten(states[|steps|])
    requires n < |steps| && Unraced(states, steps, n) && steps[n].Read? && !Alone(states[n], steps[n].upcs)
    ensures !Agreed(states[|steps|])
  {
    var s, upcs, t := states[n], steps[n].upcs, states[|steps|];
    UnracedConsistent(states, steps, n);
    var i :| 0 <= i < |s.calls| && !s.calls[i].stage.HasWritten? && exists upc :: upc in s.calls[i].missing && upc in upcs;
    var upc :| upc in s.calls[i].missing && upc in upcs;
    var j := |s.calls|;
    assert HoldsFor(s.cache, s.calls[i]);
    ReadingFits(s.cache, upcs);
    assert states[n + 1].calls[j] == Reading(s.cache, upcs);
    CallsStay(states, steps, n, |steps|, i);
    CallsStay(states, steps, n + 1, |steps|, j);
    RunRanged(states, steps, |steps|);
    NumberedTwice(t, i, j, upc);
  }

  lemma NumberedTwice(t: State, i: nat, j: nat, upc: string)
    requires Ranged(t) && AllWritten(t) && i < |t.calls| && j < |t.calls| && i != j
    requires upc in t.calls[i].missing && upc in t.calls[j].missing
    ensures !Agreed(t)
  {
    assert RangeFits(t.calls[i], t.counter) && RangeFits(t.calls[j], t.counter) && RangesApart(t.calls[i], t.calls[j]);
    PlaceIsIn(t.calls[i].missing, upc);
    PlaceIsIn(t.calls[j].missing, upc);
    assert IdOf(t.calls[i], upc) != IdOf(t.calls[j], upc);
    assert !HandedOut(t.cache, t.calls[i]) || !HandedOut(t.cache, t.calls[j]);
  }
}
