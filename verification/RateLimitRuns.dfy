/** What holds over whole runs of the interleaved rate limiter, and which runs are the worst. */
module RateLimitRuns {
  import opened Options
  import opened RateLimitKey
  import opened RateLimitProtocol

  lemma {:induction false} RunInvariant(limit: nat, workers: nat, states: seq<State>, steps: seq<Step>, i: nat)
    requires IsRun(limit, states, steps) && states[0] == Init(workers, states[0].now)
    requires i <= |steps|
    ensures Invariant(limit, states[i]) && |states[i].workers| == workers
  {
    if i == 0 {
      InitInvariant(limit, workers, states[0].now);
    } else {
      RunInvariant(limit, workers, states, steps, i - 1);
      StepInvariant(limit, states[i - 1], steps[i - 1]);
    }
  }

  // However the workers interleave and whenever the key goes away, the stored count plus the requests
  // already bound to be counted stays within the capacity.
  lemma LoadNeverExceedsCapacity(limit: nat, workers: nat, states: seq<State>, steps: seq<Step>)
    requires IsRun(limit, states, steps) && states[0] == Init(workers, states[0].now)
    ensures forall i :: 0 <= i < |states| ==> Stored(states[i].key) + Pending(limit, states[i].workers) <= Capacity(limit, workers)
    ensures Capacity(limit, workers) <= limit + 2 * workers
  {
    forall i | 0 <= i < |states|
      ensures Stored(states[i].key) + Pending(limit, states[i].workers) <= Capacity(limit, workers)
    {
      RunInvariant(limit, workers, states, steps, i);
    }
  }

  // ---- What it is to be bound ----

  // Worker w's request is turned away at step n, without an INCR before that.
  ghost predicate TurnedAway(steps: seq<Step>, w: nat, n: nat) {
    n < |steps| && steps[n] == Reject(w) && forall i :: 0 <= i < n ==> steps[i] != Admit(w)
  }

  ghost predicate StandsAs(states: seq<State>, w: nat, worker: Worker) {
    |states| > 0 && w < |states[0].workers| && states[0].workers[w] == worker
  }

  // A request under way is bound exactly when no run at all turns it away, whatever the key holds, the clock does and
  // the others do.
  lemma BoundIff(limit: nat, worker: Worker)
    requires !worker.Idle?
    ensures Bound(limit, worker)
            <==> forall states, steps, w: nat, n: nat :: IsRun(limit, states, steps) && StandsAs(states, w, worker) ==> !TurnedAway(steps, w, n)
  {
    if Bound(limit, worker) {
      forall states, steps, w: nat, n: nat | IsRun(limit, states, steps) && StandsAs(states, w, worker) ensures !TurnedAway(steps, w, n) {
        if TurnedAway(steps, w, n) {
          StaysBound(limit, states, steps, w, n);
        }
      }
    } else {
      var states, steps := TurnAway(limit, State(0, Present(0, Some(0)), [worker]));
    }
  }

  lemma {:induction false} StaysBound(limit: nat, states: seq<State>, steps: seq<Step>, w: nat, n: nat)
    requires IsRun(limit, states, steps) && n <= |steps| && w < |states[0].workers| && Bound(limit, states[0].workers[w])
    requires forall i :: 0 <= i < n ==> steps[i] != Admit(w)
    ensures w < |states[n].workers| && Bound(limit, states[n].workers[w])
    ensures n < |steps| ==> steps[n] != Reject(w)
  {
    assert n < |steps| ==> Enabled(limit, states[n], steps[n]);
    if n > 0 {
      StaysBound(limit, states, steps, w, n - 1);
      assert Enabled(limit, states[n - 1], steps[n - 1]) && states[n] == Apply(limit, states[n - 1], steps[n - 1]);
    }
  }

  // Alone, and with the key about to lapse, a request that is not bound is turned away.
  lemma {:induction false} TurnAway(limit: nat, s: State) returns (states: seq<State>, steps: seq<Step>)
    requires |s.workers| == 1 && !s.workers[0].Idle? && !Bound(limit, s.workers[0])
    requires s.key.Present? && s.key.expiry.Some? && s.now <= s.key.expiry.value <= s.now + 60 * SECOND
    ensures IsRun(limit, states, steps) && states[0] == s && steps != [] && TurnedAway(steps, 0, |steps| - 1)
    decreases match s.workers[0] case Missed => 3 case Read(_) => 2 case Decided(_, _) => 0 case _ => 1
  {
    TtlOfLiveKey(s.key, s.now);
    var step := match s.workers[0]
      case Missed => InitSet(0)
      case Read(_) => ReadTtl(0)
      case LostTtl(_) => Repair(0, 2, 5)
      case LongTtl(_) => Shorten(0, 15)
      case Decided(_, _) => Reject(0);
    var next := Apply(limit, s, step);
    if step.Reject? {
      states, steps := [s, next], [step];
    } else {
      states, steps := TurnAway(limit, next);
      states, steps := [s] + states, [step] + steps;
    }
  }

  // No expiry is ever more than 60 seconds ahead, so no TTL answer above 60 is ever acted on.
  lemma ExpiryStaysWithinAMinute(limit: nat, workers: nat, states: seq<State>, steps: seq<Step>)
    requires IsRun(limit, states, steps) && states[0] == Init(workers, states[0].now)
    ensures forall i :: 0 <= i < |states| && states[i].key.Present? && states[i].key.expiry.Some? ==>
              states[i].now <= states[i].key.expiry.value <= states[i].now + 60 * SECOND
    ensures forall i :: 0 <= i < |steps| ==> !steps[i].Shorten?
  {
    forall i | 0 <= i < |states| ensures Invariant(limit, states[i]) {
      RunInvariant(limit, workers, states, steps, i);
    }
    forall i | 0 <= i < |steps| ensures !steps[i].Shorten? {
      assert Invariant(limit, states[i]) && Enabled(limit, states[i], steps[i]);
    }
  }

  // ---- A rejected request saw a key with an expiry ----

  predicate Moves(step: Step, w: nat) {
    ByWorker(step) && step.w == w
  }

  // Step j is the TTL read that worker w stands on before step i.
  ghost predicate TtlReadBefore(states: seq<State>, steps: seq<Step>, w: nat, j: nat, i: nat)
    requires |states| == |steps| + 1 && i <= |steps|
  {
    && j < i && steps[j] == ReadTtl(w)
    && states[j].key.Present? && states[j].key.expiry.Some?
    && forall k :: j < k < i ==> !Moves(steps[k], w)
  }

  lemma {:induction false} DecidedUnderExpiry(limit: nat, workers: nat, states: seq<State>, steps: seq<Step>, w: nat, i: nat) returns (j: nat)
    requires IsRun(limit, states, steps) && states[0] == Init(workers, states[0].now)
    requires i <= |steps| && w < workers && |states[i].workers| == workers
    requires states[i].workers[w].Decided? && 0 <= states[i].workers[w].ttl
    ensures TtlReadBefore(states, steps, w, j, i)
  {
    assert i > 0;
    RunInvariant(limit, workers, states, steps, i - 1);
    assert Enabled(limit, states[i - 1], steps[i - 1]) && states[i] == Apply(limit, states[i - 1], steps[i - 1]);
    DecidedByTtlRead(limit, states[i - 1], steps[i - 1], w);
    if Moves(steps[i - 1], w) {
      j := i - 1;
    } else {
      j := DecidedUnderExpiry(limit, workers, states, steps, w, i - 1);
    }
  }

  // Only a TTL read of a key with an expiry decides under a TTL of 0 or more.
  lemma DecidedByTtlRead(limit: nat, s: State, step: Step, w: nat)
    requires Invariant(limit, s) && Enabled(limit, s, step) && w < |s.workers|
    requires Apply(limit, s, step).workers[w].Decided? && 0 <= Apply(limit, s, step).workers[w].ttl
    ensures if Moves(step, w) then step == ReadTtl(w) && s.key.Present? && s.key.expiry.Some?
            else Apply(limit, s, step).workers[w] == s.workers[w]
  {
    TtlOfLiveKey(s.key, s.now);
  }

  // A request is turned away only if its own TTL read found the key with an expiry ahead: a key
  // that lost its TTL, or went missing, never locks a client out.
  lemma RejectedOnlyUnderExpiry(limit: nat, workers: nat, states: seq<State>, steps: seq<Step>, w: nat, i: nat)
    requires IsRun(limit, states, steps) && states[0] == Init(workers, states[0].now)
    requires 0 < limit && i < |steps| && steps[i] == Reject(w)
    ensures exists j :: TtlReadBefore(states, steps, w, j, i)
  {
    RunInvariant(limit, workers, states, steps, i);
    assert Enabled(limit, states[i], steps[i]);
    var j := DecidedUnderExpiry(limit, workers, states, steps, w, i);
  }

  // ---- The capacity is reached ----

  ghost predicate Reachable(limit: nat, workers: nat, s: State) {
    exists states: seq<State>, steps: seq<Step> ::
      IsRun(limit, states, steps) && states[0] == Init(workers, states[0].now) && states[|steps|] == s
  }

  lemma Extend(limit: nat, workers: nat, s: State, step: Step)
    requires Reachable(limit, workers, s) && Enabled(limit, s, step)
    ensures Reachable(limit, workers, Apply(limit, s, step))
  {
    var states: seq<State>, steps: seq<Step> :|
      IsRun(limit, states, steps) && states[0] == Init(workers, states[0].now) && states[|steps|] == s;
    ExtendedRun(limit, states, steps, step);
    var states', steps' := states + [Apply(limit, s, step)], steps + [step];
    assert states'[0] == states[0] && states'[|steps'|] == Apply(limit, s, step);
  }

  lemma ExtendedRun(limit: nat, states: seq<State>, steps: seq<Step>, step: Step)
    requires IsRun(limit, states, steps) && Enabled(limit, states[|steps|], step)
    ensures IsRun(limit, states + [Apply(limit, states[|steps|], step)], steps + [step])
  {
    var states', steps' := states + [Apply(limit, states[|steps|], step)], steps + [step];
    forall i | 0 <= i < |steps'| ensures Enabled(limit, states'[i], steps'[i]) && states'[i + 1] == Apply(limit, states'[i], steps'[i]) {
      assert i < |steps| ==> Enabled(limit, states[i], steps[i]);
    }
  }

  lemma Start(limit: nat, workers: nat)
    ensures Reachable(limit, workers, Init(workers, 0))
  {
    var states: seq<State>, steps: seq<Step> := [Init(workers, 0)], [];
    assert IsRun(limit, states, steps);
    assert states[|steps|] == Init(workers, 0);
  }

  // The first k workers stand at a, the others at b.
  function Front(workers: nat, k: nat, a: Worker, b: Worker): (r: seq<Worker>)
    ensures |r| == workers
    ensures forall i :: 0 <= i < workers ==> r[i] == if i < k then a else b
  {
    seq(workers, i => if i < k then a else b)
  }

  // Moving worker k from b to a advances the front.
  lemma Advance(limit: nat, workers: nat, s: State, k: nat, key: Key, a: Worker, b: Worker, step: Step)
    requires k < workers && s.workers == Front(workers, k, a, b)
    requires Reachable(limit, workers, s) && Enabled(limit, s, step)
    requires Apply(limit, s, step) == Move(s, key, k, a)
    ensures Reachable(limit, workers, s.(key := key, workers := Front(workers, k + 1, a, b)))
  {
    Extend(limit, workers, s, step);
    assert s.workers[k := a] == Front(workers, k + 1, a, b);
  }

  lemma {:induction false} EveryoneBound(limit: nat, workers: seq<Worker>)
    requires forall i :: 0 <= i < |workers| ==> Bound(limit, workers[i])
    ensures Pending(limit, workers) == |workers|
  {
    if workers != [] {
      EveryoneBound(limit, workers[1..]);
    }
  }

  const MINUTE: Option<int> := Some(60 * SECOND)

  // Worker after worker reads the fresh count and its TTL.
  lemma {:induction false} AllDecide(limit: nat, workers: nat, k: nat)
    requires 0 < limit && k <= workers
    ensures Reachable(limit, workers, State(0, if k == 0 then Absent else Present(0, MINUTE), Front(workers, k, Decided(0, 60), Idle)))
  {
    if k == 0 {
      Start(limit, workers);
      assert Front(workers, 0, Decided(0, 60), Idle) == Init(workers, 0).workers;
    } else {
      AllDecide(limit, workers, k - 1);
      OneMoreDecides(limit, workers, k);
    }
  }

  lemma OneMoreDecides(limit: nat, workers: nat, k: nat)
    requires 0 < limit && 0 < k <= workers
    requires Reachable(limit, workers, State(0, if k == 1 then Absent else Present(0, MINUTE), Front(workers, k - 1, Decided(0, 60), Idle)))
    ensures Reachable(limit, workers, State(0, Present(0, MINUTE), Front(workers, k, Decided(0, 60), Idle)))
  {
    OneMoreReads(limit, workers, k);
    var read := State(0, Present(0, MINUTE), Front(workers, k - 1, Decided(0, 60), Idle)[k - 1 := Read(0)]);
    Extend(limit, workers, read, ReadTtl(k - 1));
    assert Apply(limit, read, ReadTtl(k - 1)).workers == Front(workers, k, Decided(0, 60), Idle);
  }

  lemma OneMoreReads(limit: nat, workers: nat, k: nat)
    requires 0 < limit && 0 < k <= workers
    requires Reachable(limit, workers, State(0, if k == 1 then Absent else Present(0, MINUTE), Front(workers, k - 1, Decided(0, 60), Idle)))
    ensures Reachable(limit, workers, State(0, Present(0, MINUTE), Front(workers, k - 1, Decided(0, 60), Idle)[k - 1 := Read(0)]))
  {
    var s := State(0, if k == 1 then Absent else Present(0, MINUTE), Front(workers, k - 1, Decided(0, 60), Idle));
    Extend(limit, workers, s, Get(k - 1));
    if k == 1 {
      var missed := Apply(limit, s, Get(0));
      Extend(limit, workers, missed, InitSet(0));
      assert missed.workers[0 := Read(0)] == s.workers[0 := Read(0)];
    }
  }

  // With the key gone, each INCR lands on a key that never expires.
  lemma {:induction false} AllCountOnLostKey(limit: nat, workers: nat, k: nat)
    requires 0 < limit && k <= workers
    ensures Reachable(limit, workers, State(0, if k == 0 then Absent else Present(k, None), Front(workers, k, Idle, Decided(0, 60))))
  {
    if k == 0 {
      AllDecide(limit, workers, workers);
      var s := State(0, if workers == 0 then Absent else Present(0, MINUTE), Front(workers, workers, Decided(0, 60), Idle));
      Extend(limit, workers, s, Evict);
      assert Front(workers, 0, Idle, Decided(0, 60)) == s.workers;
    } else {
      AllCountOnLostKey(limit, workers, k - 1);
      var s := State(0, if k == 1 then Absent else Present(k - 1, None), Front(workers, k - 1, Idle, Decided(0, 60)));
      Advance(limit, workers, s, k - 1, Present(k, None), Idle, Decided(0, 60), Admit(k - 1));
    }
  }

  lemma {:induction false} AllRead(limit: nat, workers: nat, key: Key, k: nat)
    requires key.Present? && k <= workers
    requires Reachable(limit, workers, State(0, key, Front(workers, 0, Read(key.count), Idle)))
    ensures Reachable(limit, workers, State(0, key, Front(workers, k, Read(key.count), Idle)))
  {
    if k != 0 {
      AllRead(limit, workers, key, k - 1);
      var s := State(0, key, Front(workers, k - 1, Read(key.count), Idle));
      Advance(limit, workers, s, k - 1, key, Read(key.count), Idle, Get(k - 1));
    }
  }

  lemma {:induction false} AllLoseTtl(limit: nat, workers: nat, k: nat)
    requires 0 < limit <= workers && k <= workers
    ensures Reachable(limit, workers, State(0, Present(workers, None), Front(workers, k, LostTtl(workers), Read(workers))))
  {
    if k == 0 {
      AllCountOnLostKey(limit, workers, workers);
      assert Front(workers, workers, Idle, Decided(0, 60)) == Front(workers, 0, Read(workers), Idle);
      AllRead(limit, workers, Present(workers, None), workers);
      assert Front(workers, workers, Read(workers), Idle) == Front(workers, 0, LostTtl(workers), Read(workers));
    } else {
      AllLoseTtl(limit, workers, k - 1);
      var s := State(0, Present(workers, None), Front(workers, k - 1, LostTtl(workers), Read(workers)));
      Advance(limit, workers, s, k - 1, s.key, LostTtl(workers), Read(workers), ReadTtl(k - 1));
    }
  }

  // One worker at a time brings the count to m.
  lemma {:induction false} CountUp(limit: nat, workers: nat, m: nat)
    requires 0 < workers && 0 < m <= limit
    ensures Reachable(limit, workers, State(0, Present(m, MINUTE), Front(workers, 0, Read(m), Idle)))
  {
    var idle := Front(workers, 0, Read(m), Idle);
    var decided: State;
    if m == 1 {
      AllDecide(limit, workers, 1);
      decided := State(0, Present(0, MINUTE), Front(workers, 1, Decided(0, 60), Idle));
    } else {
      CountUp(limit, workers, m - 1);
      assert idle == Front(workers, 0, Read(m - 1), Idle);
      var s := State(0, Present(m - 1, MINUTE), idle);
      Extend(limit, workers, s, Get(0));
      Extend(limit, workers, Apply(limit, s, Get(0)), ReadTtl(0));
      decided := Apply(limit, Apply(limit, s, Get(0)), ReadTtl(0));
    }
    Extend(limit, workers, decided, Admit(0));
    assert Apply(limit, decided, Admit(0)).workers == idle;
  }

  // The capacity is not slack: for every limit and every number of workers some run reaches it.
  lemma CapacityIsReached(limit: nat, workers: nat)
    requires 0 < limit && 0 < workers
    ensures exists s :: Reachable(limit, workers, s) && Load(limit, s) == Capacity(limit, workers)
  {
    var s: State;
    if limit <= workers {
      AllLoseTtl(limit, workers, workers);
      s := State(0, Present(workers, None), Front(workers, workers, LostTtl(workers), Read(workers)));
    } else {
      CountUp(limit, workers, limit - 1);
      AllRead(limit, workers, Present(limit - 1, MINUTE), workers);
      s := State(0, Present(limit - 1, MINUTE), Front(workers, workers, Read(limit - 1), Idle));
    }
    EveryoneBound(limit, s.workers);
  }
}
