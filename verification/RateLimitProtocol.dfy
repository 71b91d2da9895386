/**
The rate limiter as a step machine: any number of workers run the wrapper, one
Redis command per step, in any order, and the key may expire or be evicted between
any two steps.
 */
module RateLimitProtocol {
  import opened Options
  import opened RateLimitKey

  // Where a worker stands between two Redis commands, with the count it holds.
  datatype Worker =
    | Idle
    | Missed                         // GET answered nothing: SET 0 EX 60 is next
    | Read(held: nat)                // TTL is next
    | LostTtl(held: nat)             // TTL answered below zero: the repair SET is next
    | LongTtl(held: nat)             // TTL answered above 60: the shortening SET is next
    | Decided(held: nat, ttl: int)   // INCR is next when held < limit, otherwise the rejection

  datatype State = State(now: int, key: Key, workers: seq<Worker>)

  datatype Step =
    | Tick(ms: nat)
    | Evict
    | Get(w: nat)
    | InitSet(w: nat)
    | ReadTtl(w: nat)
    | Repair(w: nat, divisor: nat, seconds: nat)
    | Shorten(w: nat, seconds: nat)
    | Admit(w: nat)
    | Reject(w: nat)

  function Init(workers: nat, now: int): State {
    State(now, Absent, seq(workers, i => Idle))
  }

  predicate ByWorker(step: Step) {
    !step.Tick? && !step.Evict?
  }

  predicate Enabled(limit: nat, s: State, step: Step) {
    match step
    case Tick(_) => true
    case Evict => true
    case Get(w) => w < |s.workers| && s.workers[w].Idle?
    case InitSet(w) => w < |s.workers| && s.workers[w].Missed?
    case ReadTtl(w) => w < |s.workers| && s.workers[w].Read?
    case Repair(w, divisor, seconds) =>
      && w < |s.workers| && s.workers[w].LostTtl?
      && (if s.workers[w].held < limit then 35 <= seconds <= 57 else 2 <= divisor <= 10 && 5 <= seconds <= 23)
    case Shorten(w, seconds) => w < |s.workers| && s.workers[w].LongTtl? && 15 <= seconds <= 45
    case Admit(w) => w < |s.workers| && s.workers[w].Decided? && s.workers[w].held < limit
    case Reject(w) => w < |s.workers| && s.workers[w].Decided? && !(s.workers[w].held < limit)
  }

  function Apply(limit: nat, s: State, step: Step): State
    requires Enabled(limit, s, step)
  {
    match step
    case Tick(ms) => s.(now := s.now + ms, key := Purge(s.key, s.now + ms))
    case Evict => s.(key := Absent)
    case Get(w) => Move(s, s.key, w, if s.key.Absent? then Missed else Read(s.key.count))
    case InitSet(w) => Move(s, SetEx(s.now, 0, 60), w, Read(0))
    case ReadTtl(w) =>
      var held, ttl := s.workers[w].held, Ttl(s.key, s.now);
      Move(s, s.key, w, if ttl < 0 then LostTtl(held) else if ttl > 60 then LongTtl(held) else Decided(held, ttl))
    case Repair(w, divisor, seconds) =>
      var held := s.workers[w].held;
      if held < limit
      then Move(s, SetEx(s.now, held, seconds), w, Decided(held, -1))
      else Move(s, SetEx(s.now, held / divisor, seconds), w, Decided(0, -1))
    case Shorten(w, seconds) =>
      Move(s, SetEx(s.now, s.workers[w].held, seconds), w, Decided(s.workers[w].held, 61))
    case Admit(w) => Move(s, Incr(s.key), w, Idle)
    case Reject(w) => Move(s, s.key, w, Idle)
  }

  function Move(s: State, key: Key, w: nat, worker: Worker): State
    requires w < |s.workers|
  {
    s.(key := key, workers := s.workers[w := worker])
  }

  // A run: the states passed through, and the step taken between each two.
  ghost predicate IsRun(limit: nat, states: seq<State>, steps: seq<Step>) {
    && |states| == |steps| + 1
    && forall i :: 0 <= i < |steps| ==> Enabled(limit, states[i], steps[i]) && states[i + 1] == Apply(limit, states[i], steps[i])
  }

  // ---- How many requests are on their way in ----

  // The worker will reach INCR whatever the others do.
  predicate Bound(limit: nat, worker: Worker) {
    match worker
    case Idle => false
    case Missed => 0 < limit
    case Read(held) => held < limit
    case LostTtl(held) => 0 < limit
    case LongTtl(held) => held < limit
    case Decided(held, _) => held < limit
  }

  // The worker's next command is INCR.
  predicate AtIncr(limit: nat, worker: Worker) {
    worker.Decided? && worker.held < limit
  }

  function Pending(limit: nat, workers: seq<Worker>): (n: nat)
    ensures n <= |workers|
  {
    if workers == [] then 0 else (if Bound(limit, workers[0]) then 1 else 0) + Pending(limit, workers[1..])
  }

  function Incrementing(limit: nat, workers: seq<Worker>): (n: nat)
    ensures n <= Pending(limit, workers)
  {
    if workers == [] then 0 else (if AtIncr(limit, workers[0]) then 1 else 0) + Incrementing(limit, workers[1..])
  }

  // The stored count plus the requests bound to be added to it.
  function Load(limit: nat, s: State): nat {
    Stored(s.key) + Pending(limit, s.workers)
  }

  function Capacity(limit: nat, workers: nat): nat {
    workers + if limit > workers then limit - 1 else workers
  }

  lemma {:induction false} PendingUpdate(limit: nat, workers: seq<Worker>, w: nat, worker: Worker)
    requires w < |workers|
    ensures Pending(limit, workers[w := worker]) + (if Bound(limit, workers[w]) then 1 else 0)
            == Pending(limit, workers) + if Bound(limit, worker) then 1 else 0
    ensures Incrementing(limit, workers[w := worker]) + (if AtIncr(limit, workers[w]) then 1 else 0)
            == Incrementing(limit, workers) + if AtIncr(limit, worker) then 1 else 0
  {
    if w == 0 {
      assert workers[w := worker][1..] == workers[1..];
    } else {
      PendingUpdate(limit, workers[1..], w - 1, worker);
      assert workers[w := worker][1..] == workers[1..][w - 1 := worker];
    }
  }

  lemma {:induction false} NobodyPending(limit: nat, workers: seq<Worker>)
    requires forall i :: 0 <= i < |workers| ==> workers[i].Idle?
    ensures Pending(limit, workers) == 0
  {
    if workers != [] {
      NobodyPending(limit, workers[1..]);
    }
  }

  // ---- What every step keeps ----

  predicate HeldInvariant(limit: nat, bound: nat, worker: Worker) {
    && !worker.LongTtl?
    && (worker.Read? || worker.LostTtl? || worker.Decided? ==> worker.held <= bound)
    && (worker.Decided? && 0 < limit && limit <= worker.held ==> 0 <= worker.ttl <= 60)
    && (worker.Decided? ==> worker.ttl <= 60)
  }

  ghost predicate Invariant(limit: nat, s: State) {
    && Alive(s.key, s.now)
    && (s.key.Present? && s.key.expiry.Some? ==> s.key.expiry.value <= s.now + 60 * SECOND)
    && (forall i :: 0 <= i < |s.workers| ==> HeldInvariant(limit, Capacity(limit, |s.workers|), s.workers[i]))
    && Load(limit, s) <= Capacity(limit, |s.workers|)
    // A count that no SET has touched since the key came into being is made of single increments.
    && (!(s.key.Present? && s.key.expiry.Some?) ==> Stored(s.key) + Incrementing(limit, s.workers) <= |s.workers|)
  }

  lemma InitInvariant(limit: nat, workers: nat, now: int)
    ensures Invariant(limit, Init(workers, now))
  {
    NobodyPending(limit, Init(workers, now).workers);
  }

  lemma DivideAtLeastTwice(held: nat, divisor: nat)
    requires 2 <= divisor
    ensures 2 * (held / divisor) <= held
  {
    var quotient := held / divisor;
    assert held == quotient * divisor + held % divisor;
    assert quotient * 2 <= quotient * divisor;
  }

  lemma ClockStepInvariant(limit: nat, s: State, step: Step)
    requires Invariant(limit, s) && !ByWorker(step)
    ensures Invariant(limit, Apply(limit, s, step))
  {
  }

  lemma GetStepInvariant(limit: nat, s: State, w: nat)
    requires Invariant(limit, s) && Enabled(limit, s, Get(w))
    ensures Invariant(limit, Apply(limit, s, Get(w)))
  {
    PendingUpdate(limit, s.workers, w, Apply(limit, s, Get(w)).workers[w]);
  }

  lemma ReadTtlStepInvariant(limit: nat, s: State, w: nat)
    requires Invariant(limit, s) && Enabled(limit, s, ReadTtl(w))
    ensures Invariant(limit, Apply(limit, s, ReadTtl(w)))
  {
    TtlOfLiveKey(s.key, s.now);
    PendingUpdate(limit, s.workers, w, Apply(limit, s, ReadTtl(w)).workers[w]);
  }

  lemma SetStepInvariant(limit: nat, s: State, step: Step)
    requires Invariant(limit, s) && Enabled(limit, s, step) && (step.InitSet? || step.Repair?)
    ensures Invariant(limit, Apply(limit, s, step))
  {
    PendingUpdate(limit, s.workers, step.w, Apply(limit, s, step).workers[step.w]);
    if step.Repair? && limit <= s.workers[step.w].held {
      DivideAtLeastTwice(s.workers[step.w].held, step.divisor);
    }
  }

  lemma FinishStepInvariant(limit: nat, s: State, step: Step)
    requires Invariant(limit, s) && Enabled(limit, s, step) && (step.Admit? || step.Reject?)
    ensures Invariant(limit, Apply(limit, s, step))
  {
    PendingUpdate(limit, s.workers, step.w, Idle);
  }

  lemma StepInvariant(limit: nat, s: State, step: Step)
    requires Invariant(limit, s) && Enabled(limit, s, step)
    ensures Invariant(limit, Apply(limit, s, step))
  {
    match step
    case Tick(_) => ClockStepInvariant(limit, s, step);
    case Evict => ClockStepInvariant(limit, s, step);
    case Get(w) => GetStepInvariant(limit, s, w);
    case ReadTtl(w) => ReadTtlStepInvariant(limit, s, w);
    case InitSet(_) => SetStepInvariant(limit, s, step);
    case Repair(_, _, _) => SetStepInvariant(limit, s, step);
    case Shorten(_, _) => assert false;
    case Admit(_) => FinishStepInvariant(limit, s, step);
    case Reject(_) => FinishStepInvariant(limit, s, step);
  }
}
