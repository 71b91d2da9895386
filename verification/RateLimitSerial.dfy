/**
The rate limiter when requests do not overlap: what one request does, how it is a schedule
of the step machine, and how many requests it lets through over a whole run. Time passes
between the commands of a request as it does between requests.
 */
module RateLimitSerial {
  import opened Options
  import opened RateLimitKey
  import opened RateLimitProtocol
  import opened RateLimitRuns

  // The random draws of one request.
  datatype Draws = Draws(lowSeconds: nat, divisor: nat, highSeconds: nat, longSeconds: nat)

  predicate InRange(d: Draws) {
    35 <= d.lowSeconds <= 57 && 2 <= d.divisor <= 10 && 5 <= d.highSeconds <= 23 && 15 <= d.longSeconds <= 45
  }

  // The milliseconds that pass after each command of one request.
  datatype Pauses = Pauses(afterGet: nat, afterInit: nat, afterTtl: nat, afterRepair: nat)

  datatype Moment = Moment(now: int, key: Key)

  function Wait(m: Moment, ms: nat): Moment {
    Moment(m.now + ms, Purge(m.key, m.now + ms))
  }

  // The key at the TTL read, and the count held.
  function Found(m: Moment, p: Pauses): (Moment, nat) {
    if m.key.Absent? then
      var w := Wait(m, p.afterGet);
      (Wait(w.(key := SetEx(w.now, 0, 60)), p.afterInit), 0)
    else (Wait(m, p.afterGet), m.key.count)
  }

  // The key and the held count once the TTL of the key has been looked at and repaired where it had to be.
  function Repaired(limit: nat, found: Moment, held: nat, d: Draws, p: Pauses): (Moment, nat)
    requires InRange(d)
  {
    var ttl, w := Ttl(found.key, found.now), Wait(found, p.afterTtl);
    if ttl < 0 then
      if held < limit then (Wait(w.(key := SetEx(w.now, held, d.lowSeconds)), p.afterRepair), held)
      else (Wait(w.(key := SetEx(w.now, held / d.divisor, d.highSeconds)), p.afterRepair), 0)
    else if ttl > 60 then (Wait(w.(key := SetEx(w.now, held, d.longSeconds)), p.afterRepair), held)
    else (w, held)
  }

  function BeforeIncr(limit: nat, m: Moment, d: Draws, p: Pauses): (Moment, nat)
    requires InRange(d)
  {
    var (found, held) := Found(m, p);
    Repaired(limit, found, held, d, p)
  }

  // What one undisturbed request leaves behind, and whether it is admitted.
  function Serve(limit: nat, m: Moment, d: Draws, p: Pauses): (Moment, bool)
    requires InRange(d)
  {
    var (kept, held) := BeforeIncr(limit, m, d, p);
    if held < limit then (kept.(key := Incr(kept.key)), true) else (kept, false)
  }

  class RateLimitedClient {
    var now: int
    var key: Key

    constructor (start: int)
      ensures now == start && key == Absent
    {
      now, key := start, Absent;
    }

    function At(): Moment
      reads this
    {
      Moment(now, key)
    }

    method Advance(ms: nat)
      modifies this
      ensures At() == Wait(old(At()), ms)
    {
      now := now + ms;
      key := if Alive(key, now) then key else Absent;
    }

    method GetCount() returns (count: Option<nat>)
      ensures count == if key.Absent? then None else Some(key.count)
    {
      count := if key.Absent? then None else Some(key.count);
    }

    method SetCount(count: nat, seconds: nat)
      modifies this`key
      ensures key == SetEx(now, count, seconds)
    {
      key := Present(count, Some(now + seconds * SECOND));
    }

    method Increment()
      modifies this`key
      ensures key == Incr(old(key))
    {
      key := if key.Absent? then Present(1, None) else key.(count := key.count + 1);
    }

    // The decorated call: admitted means the wrapped function runs, otherwise the limit error is raised.
    method Request(enabled: bool, limit: nat, d: Draws, p: Pauses) returns (admitted: bool)
      requires InRange(d)
      modifies this
      ensures enabled ==> (At(), admitted) == Serve(limit, old(At()), d, p)
      ensures !enabled ==> admitted && At() == old(At())
    {
      if !enabled {
        return true;
      }
      var current := 0;
      var stored := GetCount();
      Advance(p.afterGet);
      if stored.None? {
        SetCount(0, 60);
        Advance(p.afterInit);
      } else {
        current := stored.value;
      }
      var ttl := Ttl(key, now);
      Advance(p.afterTtl);
      if ttl < 0 {
        if current < limit {
          SetCount(current, d.lowSeconds);
        } else {
          SetCount(current / d.divisor, d.highSeconds);
          current := 0;
        }
        Advance(p.afterRepair);
      } else if ttl > 60 {
        SetCount(current, d.longSeconds);
        Advance(p.afterRepair);
      }
      if current < limit {
        Increment();
        return true;
      }
      return false;
    }
  }

  // However the key was found, an admitted request leaves it with an expiry if and only if the key had not lapsed
  // when its INCR came; and that expiry is not past.
  lemma RequestRestoresExpiryIff(limit: nat, m: Moment, d: Draws, p: Pauses)
    requires InRange(d) && Alive(m.key, m.now)
    ensures var (after, admitted) := Serve(limit, m, d, p);
            admitted ==> after.key.Present? && (after.key.expiry.Some? <==> BeforeIncr(limit, m, d, p).0.key.Present?)
    ensures var after := Serve(limit, m, d, p).0;
            after.key.Present? && after.key.expiry.Some? ==> after.now <= after.key.expiry.value
  {
    var (found, held) := Found(m, p);
    TtlOfLiveKey(found.key, found.now);
  }

  // ---- What each request leaves ----

  // The key has no expiry, or one that runs out before the TTL is read.
  predicate LosesExpiry(m: Moment, expiry: Option<int>, p: Pauses) {
    expiry.Some? ==> expiry.value < m.now + p.afterGet
  }

  // A key that lost its expiry, below the limit: the request is admitted, counts on from what was there, and the key
  // expires the drawn seconds after the repair.
  lemma LostExpiryBelowTheLimit(limit: nat, m: Moment, count: nat, expiry: Option<int>, d: Draws, p: Pauses)
    requires InRange(d) && m.key == Present(count, expiry) && LosesExpiry(m, expiry, p) && count < limit && p.afterRepair <= d.lowSeconds * 1000
    ensures var repair := m.now + p.afterGet + p.afterTtl;
            Serve(limit, m, d, p) == (Moment(repair + p.afterRepair, Present(count + 1, Some(repair + d.lowSeconds * 1000))), true)
  {
  }

  // At the limit or above: the count is divided, and the request let in all the same, unless the limit is 0.
  lemma LostExpiryAtTheLimit(limit: nat, m: Moment, count: nat, expiry: Option<int>, d: Draws, p: Pauses)
    requires InRange(d) && m.key == Present(count, expiry) && LosesExpiry(m, expiry, p) && limit <= count && p.afterRepair <= d.highSeconds * 1000
    ensures var repair := m.now + p.afterGet + p.afterTtl;
            var left := if limit > 0 then count / d.divisor + 1 else count / d.divisor;
            Serve(limit, m, d, p) == (Moment(repair + p.afterRepair, Present(left, Some(repair + d.highSeconds * 1000))), limit > 0)
  {
  }

  // A key with an expiry at most a minute ahead, which does not lapse during the request: one more is counted below the
  // limit, nothing changes at it, and the expiry stays.
  lemma UnderExpiry(limit: nat, m: Moment, count: nat, expiry: int, d: Draws, p: Pauses)
    requires InRange(d) && m.key == Present(count, Some(expiry))
    requires m.now + p.afterGet + p.afterTtl <= expiry <= m.now + 60 * 1000
    ensures Serve(limit, m, d, p)
            == (Moment(m.now + p.afterGet + p.afterTtl, Present(if count < limit then count + 1 else count, Some(expiry))), count < limit)
  {
    TtlOfLiveKey(m.key, m.now + p.afterGet);
  }

  // Where it lapses after its TTL was read, the INCR of an admitted request creates a key that never expires.
  lemma LapsedBeforeIncr(limit: nat, m: Moment, count: nat, expiry: int, d: Draws, p: Pauses)
    requires InRange(d) && m.key == Present(count, Some(expiry)) && expiry <= m.now + 60 * 1000
    requires m.now + p.afterGet <= expiry < m.now + p.afterGet + p.afterTtl
    ensures Serve(limit, m, d, p)
            == (Moment(m.now + p.afterGet + p.afterTtl, if count < limit then Present(1, None) else Absent), count < limit)
  {
    TtlOfLiveKey(m.key, m.now + p.afterGet);
  }

  // An expiry of more than 60 seconds, as Redis rounds it, is cut to the drawn seconds, and the count goes on.
  lemma LongExpiryIsCut(limit: nat, m: Moment, count: nat, expiry: int, d: Draws, p: Pauses)
    requires InRange(d) && m.key == Present(count, Some(expiry)) && p.afterRepair <= d.longSeconds * 1000
    requires expiry >= m.now + p.afterGet + 60 * 1000 + 500
    ensures var repair := m.now + p.afterGet + p.afterTtl;
            Serve(limit, m, d, p)
            == (Moment(repair + p.afterRepair, Present(if count < limit then count + 1 else count, Some(repair + d.longSeconds * 1000))),
                count < limit)
  {
    var found := m.now + p.afterGet;
    assert Alive(m.key, found);
    assert (expiry - found + 500) / 1000 >= 61;
  }

  // No key: it is created, expires a minute after that, and counts the request, unless the limit is 0.
  lemma FirstRequest(limit: nat, m: Moment, d: Draws, p: Pauses)
    requires InRange(d) && m.key == Absent && p.afterInit + p.afterTtl <= 60 * 1000
    ensures var creation := m.now + p.afterGet;
            Serve(limit, m, d, p)
            == (Moment(creation + p.afterInit + p.afterTtl, Present(if limit > 0 then 1 else 0, Some(creation + 60 * 1000))), limit > 0)
  {
    var created := m.now + p.afterGet;
    TtlOfLiveKey(Present(0, Some(created + 60 * 1000)), created + p.afterInit);
  }

  // Amid other workers too: repairing and then counting leaves what the worker held, whole or divided, and one more.
  lemma RepairThenAdmit(limit: nat, s: State, w: nat, divisor: nat, seconds: nat)
    requires Enabled(limit, s, Repair(w, divisor, seconds)) && 0 < limit
    ensures var repaired := Apply(limit, s, Repair(w, divisor, seconds));
            var held := s.workers[w].held;
            && Enabled(limit, repaired, Admit(w))
            && Apply(limit, repaired, Admit(w)).key
               == Present((if held < limit then held else held / divisor) + 1, Some(s.now + seconds * 1000))
  {
  }

  // ---- The undisturbed request is one schedule of the step machine ----

  ghost predicate Steps(limit: nat, s: State, steps: seq<Step>, t: State)
    decreases |steps|
  {
    if steps == [] then s == t
    else Enabled(limit, s, steps[0]) && Steps(limit, Apply(limit, s, steps[0]), steps[1..], t)
  }

  // A nonempty run of worker w alone, and the clock, from s to t, ending in INCR iff admitted.
  ghost predicate RunsAlone(limit: nat, s: State, w: nat, steps: seq<Step>, t: State, admitted: bool) {
    && steps != [] && (forall i :: 0 <= i < |steps| ==> Moves(steps[i], w) || steps[i].Tick?)
    && Steps(limit, s, steps, t)
    && (steps[|steps| - 1].Admit? <==> admitted)
  }

  lemma Before(limit: nat, s: State, w: nat, step: Step, rest: seq<Step>, t: State, admitted: bool) returns (steps: seq<Step>)
    requires (Moves(step, w) || step.Tick?) && Enabled(limit, s, step) && RunsAlone(limit, Apply(limit, s, step), w, rest, t, admitted)
    ensures RunsAlone(limit, s, w, steps, t, admitted)
  {
    steps := [step] + rest;
    assert steps[1..] == rest;
  }

  // Worker w stands at a moment.
  function Stand(s: State, m: Moment, w: nat, worker: Worker): State
    requires w < |s.workers|
  {
    State(m.now, m.key, s.workers[w := worker])
  }

  lemma FromDecided(limit: nat, s: State, m: Moment, w: nat, held: nat, ttl: int) returns (steps: seq<Step>)
    requires w < |s.workers|
    ensures RunsAlone(limit, Stand(s, m, w, Decided(held, ttl)), w, steps,
                      Stand(s, if held < limit then m.(key := Incr(m.key)) else m, w, Idle), held < limit)
  {
    var last := if held < limit then Admit(w) else Reject(w);
    var from := Stand(s, m, w, Decided(held, ttl));
    steps := [last];
    assert steps[1..] == [];
    assert from.workers[w := Idle] == s.workers[w := Idle];
    assert Steps(limit, Apply(limit, from, last), steps[1..], Apply(limit, from, last));
  }

  // Some time passes, then worker w does one command.
  lemma WaitThen(limit: nat, s: State, m: Moment, w: nat, ms: nat, worker: Worker, step: Step, key: Key, next: Worker, rest: seq<Step>,
                 t: State, admitted: bool) returns (steps: seq<Step>)
    requires w < |s.workers| && Moves(step, w)
    requires var from := Stand(s, Wait(m, ms), w, worker);
             Enabled(limit, from, step) && Apply(limit, from, step) == Move(from, key, w, next)
    requires RunsAlone(limit, Stand(s, Wait(m, ms).(key := key), w, next), w, rest, t, admitted)
    ensures RunsAlone(limit, Stand(s, m, w, worker), w, steps, t, admitted)
  {
    var from := Stand(s, Wait(m, ms), w, worker);
    assert from.workers[w := next] == s.workers[w := next];
    steps := Before(limit, from, w, step, rest, t, admitted);
    assert Apply(limit, Stand(s, m, w, worker), Tick(ms)) == from;
    steps := Before(limit, Stand(s, m, w, worker), w, Tick(ms), steps, t, admitted);
  }

  lemma WaitToDecide(limit: nat, s: State, m: Moment, w: nat, ms: nat, held: nat, ttl: int) returns (steps: seq<Step>)
    requires w < |s.workers|
    ensures var kept := Wait(m, ms);
            RunsAlone(limit, Stand(s, m, w, Decided(held, ttl)), w, steps,
                      Stand(s, if held < limit then kept.(key := Incr(kept.key)) else kept, w, Idle), held < limit)
  {
    var kept := Wait(m, ms);
    steps := FromDecided(limit, s, kept, w, held, ttl);
    assert Apply(limit, Stand(s, m, w, Decided(held, ttl)), Tick(ms)) == Stand(s, kept, w, Decided(held, ttl));
    steps := Before(limit, Stand(s, m, w, Decided(held, ttl)), w, Tick(ms), steps,
                    Stand(s, if held < limit then kept.(key := Incr(kept.key)) else kept, w, Idle), held < limit);
  }

  function Left(limit: nat, kept: Moment, held: nat): Moment {
    if held < limit then kept.(key := Incr(kept.key)) else kept
  }

  lemma FromRead(limit: nat, s: State, found: Moment, w: nat, held: nat, d: Draws, p: Pauses) returns (steps: seq<Step>)
    requires InRange(d) && w < |s.workers|
    ensures var (kept, h) := Repaired(limit, found, held, d, p);
            RunsAlone(limit, Stand(s, found, w, Read(held)), w, steps, Stand(s, Left(limit, kept, h), w, Idle), h < limit)
  {
    var ttl, later := Ttl(found.key, found.now), Wait(found, p.afterTtl);
    var (kept, h) := Repaired(limit, found, held, d, p);
    var read := Stand(s, found, w, Read(held));
    var t := Stand(s, Left(limit, kept, h), w, Idle);
    var next := if ttl < 0 then LostTtl(held) else if ttl > 60 then LongTtl(held) else Decided(held, ttl);
    if 0 <= ttl <= 60 {
      steps := WaitToDecide(limit, s, found, w, p.afterTtl, held, ttl);
    } else {
      var (fix, key) := RepairStep(limit, later, w, held, ttl, d);
      var answer := if ttl < 0 then -1 else 61;
      steps := WaitToDecide(limit, s, later.(key := key), w, p.afterRepair, h, answer);
      steps := WaitThen(limit, s, found, w, p.afterTtl, next, fix, key, Decided(h, answer), steps, t, h < limit);
    }
    assert Apply(limit, read, ReadTtl(w)) == Stand(s, found, w, next) by {
      assert read.workers[w := next] == s.workers[w := next];
    }
    steps := Before(limit, read, w, ReadTtl(w), steps, t, h < limit);
  }

  // The repairing command of a request and the key it leaves.
  function RepairStep(limit: nat, later: Moment, w: nat, held: nat, ttl: int, d: Draws): (Step, Key)
    requires InRange(d)
  {
    if ttl > 60 then (Shorten(w, d.longSeconds), SetEx(later.now, held, d.longSeconds))
    else if held < limit then (Repair(w, d.divisor, d.lowSeconds), SetEx(later.now, held, d.lowSeconds))
    else (Repair(w, d.divisor, d.highSeconds), SetEx(later.now, held / d.divisor, d.highSeconds))
  }

  // Alone with the clock, a worker's own commands reach exactly what Serve says, ending in INCR iff it is admitted.
  lemma ServeIsASchedule(limit: nat, s: State, w: nat, d: Draws, p: Pauses) returns (steps: seq<Step>)
    requires InRange(d) && w < |s.workers| && s.workers[w].Idle?
    ensures var (after, admitted) := Serve(limit, Moment(s.now, s.key), d, p);
            RunsAlone(limit, s, w, steps, Stand(s, after, w, Idle), admitted)
  {
    var m := Moment(s.now, s.key);
    var (found, held) := Found(m, p);
    var (kept, h) := Repaired(limit, found, held, d, p);
    var t := Stand(s, Left(limit, kept, h), w, Idle);
    steps := FromRead(limit, s, found, w, held, d, p);
    var next := if s.key.Absent? then Missed else Read(held);
    if s.key.Absent? {
      var created := Wait(m, p.afterGet).(key := SetEx(Wait(m, p.afterGet).now, 0, 60));
      assert Apply(limit, Stand(s, created, w, Read(0)), Tick(p.afterInit)) == Stand(s, found, w, Read(0));
      steps := Before(limit, Stand(s, created, w, Read(0)), w, Tick(p.afterInit), steps, t, h < limit);
      steps := WaitThen(limit, s, m, w, p.afterGet, Missed, InitSet(w), created.key, Read(0), steps, t, h < limit);
    } else {
      assert Apply(limit, Stand(s, m, w, next), Tick(p.afterGet)) == Stand(s, found, w, next);
      steps := Before(limit, Stand(s, m, w, next), w, Tick(p.afterGet), steps, t, h < limit);
    }
    assert Apply(limit, s, Get(w)) == Stand(s, m, w, next);
    steps := Before(limit, s, w, Get(w), steps, t, h < limit);
  }

  // ---- Runs in which requests do not overlap ----

  predicate AllIdle(workers: seq<Worker>) {
    forall i :: 0 <= i < |workers| ==> workers[i].Idle?
  }

  // A request starts only when none is under way, and the key neither lapses during a request nor is evicted.
  predicate Undisturbed(s: State, step: Step) {
    && !step.Evict?
    && (step.Get? ==> AllIdle(s.workers))
    && (step.Tick? && !AllIdle(s.workers) ==> Purge(s.key, s.now + step.ms) == s.key)
  }

  ghost predicate Serial(limit: nat, states: seq<State>, steps: seq<Step>) {
    && IsRun(limit, states, steps) && states[0] == Init(|states[0].workers|, states[0].now)
    && forall i :: 0 <= i < |steps| ==> Undisturbed(states[i], steps[i])
  }

  // The latest life of the key: when it was created, and the admissions since.
  datatype Life = Life(born: Option<int>, admitted: nat)

  function Lived(life: Life, now: int, step: Step): Life {
    if step.InitSet? then Life(Some(now), 0)
    else if step.Admit? then life.(admitted := life.admitted + 1)
    else life
  }

  ghost function LifeAt(states: seq<State>, steps: seq<Step>, n: nat): Life
    requires |states| == |steps| + 1 && n <= |steps|
  {
    if n == 0 then Life(None, 0) else Lived(LifeAt(states, steps, n - 1), states[n - 1].now, steps[n - 1])
  }

  predicate Fits(key: Key, worker: Worker) {
    match worker
    case Idle => true
    case Missed => key.Absent?
    case Read(held) => key.Present? && held == key.count
    case Decided(held, ttl) => key.Present? && held == key.count && 0 <= ttl <= 60
    case _ => false
  }

  const MINUTE_MS := 60 * SECOND

  ghost predicate SerialInvariant(limit: nat, s: State, life: Life) {
    && (forall i, j :: 0 <= i < j < |s.workers| ==> s.workers[i].Idle? || s.workers[j].Idle?)
    && (forall i :: 0 <= i < |s.workers| ==> Fits(s.key, s.workers[i]))
    && (s.key.Present? ==> life.born.Some? && s.key == Present(life.admitted, Some(life.born.value + MINUTE_MS))
                           && s.now <= life.born.value + MINUTE_MS)
    && (s.key.Absent? && life.born.Some? ==> life.born.value + MINUTE_MS < s.now)
    && (life.born.Some? ==> life.born.value <= s.now)
    && life.admitted <= limit
  }

  lemma SerialStep(limit: nat, s: State, step: Step, life: Life)
    requires SerialInvariant(limit, s, life) && Enabled(limit, s, step) && Undisturbed(s, step)
    ensures SerialInvariant(limit, Apply(limit, s, step), Lived(life, s.now, step))
  {
    match step
    case Tick(_) =>
    case Get(_) =>
    case InitSet(w) => OthersIdle(s, w);
    case ReadTtl(w) =>
      TtlOfLiveKey(s.key, s.now);
      OthersIdle(s, w);
    case Repair(_, _, _) => assert false;
    case Shorten(_, _) => assert false;
    case Admit(w) => OthersIdle(s, w);
    case Reject(w) => OthersIdle(s, w);
  }

  lemma OthersIdle(s: State, w: nat)
    requires w < |s.workers| && !s.workers[w].Idle?
    requires forall i, j :: 0 <= i < j < |s.workers| ==> s.workers[i].Idle? || s.workers[j].Idle?
    ensures forall i :: 0 <= i < |s.workers| && i != w ==> s.workers[i].Idle?
  {
  }

  lemma {:induction false} SerialRun(limit: nat, states: seq<State>, steps: seq<Step>, n: nat)
    requires Serial(limit, states, steps) && n <= |steps|
    ensures SerialInvariant(limit, states[n], LifeAt(states, steps, n))
  {
    if n > 0 {
      SerialRun(limit, states, steps, n - 1);
      SerialStep(limit, states[n - 1], steps[n - 1], LifeAt(states, steps, n - 1));
    }
  }

  // Whenever the key is there, its count is the number of admissions since it was created, at most the limit, and it
  // expires a minute after its creation.
  lemma CountIsAdmissionsOfThisLife(limit: nat, states: seq<State>, steps: seq<Step>, n: nat)
    requires Serial(limit, states, steps) && n <= |steps| && states[n].key.Present?
    ensures var life := LifeAt(states, steps, n);
            life.born.Some? && states[n].key == Present(life.admitted, Some(life.born.value + 60 * SECOND)) && life.admitted <= limit
  {
    SerialRun(limit, states, steps, n);
  }

  // ---- Any minute ----

  // Admissions among the first n steps from time t to a minute later, both ends included.
  ghost function AdmissionsInMinute(states: seq<State>, steps: seq<Step>, t: int, n: nat): nat
    requires |states| == |steps| + 1 && n <= |steps|
  {
    if n == 0 then 0
    else AdmissionsInMinute(states, steps, t, n - 1) + if InMinute(states[n - 1], steps[n - 1], t) then 1 else 0
  }

  predicate InMinute(s: State, step: Step, t: int) {
    step.Admit? && t <= s.now <= t + MINUTE_MS
  }

  // How many of the admissions of a minute there can be by the life the key is in.
  ghost predicate MinuteInvariant(limit: nat, life: Life, t: int, inMinute: nat) {
    && inMinute <= 2 * limit
    && (life.born.None? ==> inMinute == 0)
    && (life.born.Some? && life.born.value + MINUTE_MS < t ==> inMinute == 0)
    && (life.born.Some? && life.born.value <= t ==> inMinute <= life.admitted)
    && (life.born.Some? && t < life.born.value <= t + MINUTE_MS ==> inMinute <= limit + life.admitted)
  }

  lemma MinuteStep(limit: nat, s: State, step: Step, life: Life, t: int, inMinute: nat)
    requires SerialInvariant(limit, s, life) && Enabled(limit, s, step) && Undisturbed(s, step) && MinuteInvariant(limit, life, t, inMinute)
    ensures MinuteInvariant(limit, Lived(life, s.now, step), t, inMinute + if InMinute(s, step, t) then 1 else 0)
  {
    SerialStep(limit, s, step, life);
  }

  lemma {:induction false} MinuteOfRun(limit: nat, states: seq<State>, steps: seq<Step>, t: int, n: nat)
    requires Serial(limit, states, steps) && n <= |steps|
    ensures MinuteInvariant(limit, LifeAt(states, steps, n), t, AdmissionsInMinute(states, steps, t, n))
  {
    if n > 0 {
      MinuteOfRun(limit, states, steps, t, n - 1);
      SerialRun(limit, states, steps, n - 1);
      MinuteStep(limit, states[n - 1], steps[n - 1], LifeAt(states, steps, n - 1), t, AdmissionsInMinute(states, steps, t, n - 1));
    }
  }

  // Any minute, wherever it starts, sees at most twice the limit of admissions.
  lemma AdmissionsInAnyMinute(limit: nat, states: seq<State>, steps: seq<Step>, t: int)
    requires Serial(limit, states, steps)
    ensures AdmissionsInMinute(states, steps, t, |steps|) <= 2 * limit
  {
    MinuteOfRun(limit, states, steps, t, |steps|);
  }

  // ---- The worst minute ----

  // Some run without overlap leads to s with so many admissions in the minute from t on.
  ghost predicate Leads(limit: nat, s: State, t: int, inMinute: nat) {
    exists states: seq<State>, steps: seq<Step> ::
      Serial(limit, states, steps) && states[|steps|] == s && AdmissionsInMinute(states, steps, t, |steps|) == inMinute
  }

  lemma {:induction false} SameAdmissions(states: seq<State>, steps: seq<Step>, s: State, step: Step, t: int, n: nat)
    requires |states| == |steps| + 1 && n <= |steps|
    ensures AdmissionsInMinute(states + [s], steps + [step], t, n) == AdmissionsInMinute(states, steps, t, n)
  {
    if n > 0 {
      SameAdmissions(states, steps, s, step, t, n - 1);
    }
  }

  lemma LeadsOn(limit: nat, s: State, t: int, inMinute: nat, step: Step)
    requires Leads(limit, s, t, inMinute) && Enabled(limit, s, step) && Undisturbed(s, step)
    ensures Leads(limit, Apply(limit, s, step), t, inMinute + if InMinute(s, step, t) then 1 else 0)
  {
    var states: seq<State>, steps: seq<Step> :|
      Serial(limit, states, steps) && states[|steps|] == s && AdmissionsInMinute(states, steps, t, |steps|) == inMinute;
    var states', steps' := states + [Apply(limit, s, step)], steps + [step];
    SameAdmissions(states, steps, Apply(limit, s, step), step, t, |steps|);
    SerialSnoc(limit, states, steps, step);
    assert states'[|steps'|] == Apply(limit, s, step);
    assert states'[|steps|] == s && steps'[|steps|] == step;
  }

  lemma SerialSnoc(limit: nat, states: seq<State>, steps: seq<Step>, step: Step)
    requires Serial(limit, states, steps) && Enabled(limit, states[|steps|], step) && Undisturbed(states[|steps|], step)
    ensures Serial(limit, states + [Apply(limit, states[|steps|], step)], steps + [step])
  {
    var states', steps' := states + [Apply(limit, states[|steps|], step)], steps + [step];
    forall i | 0 <= i < |steps'|
      ensures Enabled(limit, states'[i], steps'[i]) && states'[i + 1] == Apply(limit, states'[i], steps'[i]) && Undisturbed(states'[i], steps'[i])
    {
      assert states'[i] == states[i];
    }
  }

  lemma Begin(limit: nat, t: int)
    ensures Leads(limit, State(0, Absent, [Idle]), t, 0)
  {
    var states, steps: seq<Step> := [Init(1, 0)], [];
    assert Serial(limit, states, steps) && states[|steps|] == State(0, Absent, [Idle]);
    assert AdmissionsInMinute(states, steps, t, |steps|) == 0;
  }

  // The commands of the one worker.
  lemma LeadsToRead(limit: nat, now: int, key: Key, t: int, inMinute: nat)
    requires Leads(limit, State(now, key, [Idle]), t, inMinute)
    ensures Leads(limit, State(now, key, [if key.Absent? then Missed else Read(key.count)]), t, inMinute)
  {
    LeadsOn(limit, State(now, key, [Idle]), t, inMinute, Get(0));
    assert [Idle][0 := if key.Absent? then Missed else Read(key.count)] == [if key.Absent? then Missed else Read(key.count)];
  }

  lemma LeadsToAdmission(limit: nat, now: int, count: nat, expiry: int, t: int, inMinute: nat)
    requires count < limit && now <= expiry <= now + MINUTE_MS && t <= now <= t + MINUTE_MS
    requires Leads(limit, State(now, Present(count, Some(expiry)), [Read(count)]), t, inMinute)
    ensures Leads(limit, State(now, Present(count + 1, Some(expiry)), [Idle]), t, inMinute + 1)
  {
    var key := Present(count, Some(expiry));
    var ttl := Ttl(key, now);
    TtlOfLiveKey(key, now);
    LeadsOn(limit, State(now, key, [Read(count)]), t, inMinute, ReadTtl(0));
    assert [Read(count)][0 := Decided(count, ttl)] == [Decided(count, ttl)];
    LeadsAdmitted(limit, now, key, ttl, t, inMinute);
  }

  lemma LeadsAdmitted(limit: nat, now: int, key: Key, ttl: int, t: int, inMinute: nat)
    requires key.Present? && key.count < limit && t <= now <= t + MINUTE_MS
    requires Leads(limit, State(now, key, [Decided(key.count, ttl)]), t, inMinute)
    ensures Leads(limit, State(now, Incr(key), [Idle]), t, inMinute + 1)
  {
    LeadsOn(limit, State(now, key, [Decided(key.count, ttl)]), t, inMinute, Admit(0));
    assert [Decided(key.count, ttl)][0 := Idle] == [Idle];
  }

  // One more request of the one worker at a present key.
  lemma OneMore(limit: nat, now: int, count: nat, expiry: int, t: int, inMinute: nat)
    requires count < limit && now <= expiry <= now + MINUTE_MS && t <= now <= t + MINUTE_MS
    requires Leads(limit, State(now, Present(count, Some(expiry)), [Idle]), t, inMinute)
    ensures Leads(limit, State(now, Present(count + 1, Some(expiry)), [Idle]), t, inMinute + 1)
  {
    LeadsToRead(limit, now, Present(count, Some(expiry)), t, inMinute);
    LeadsToAdmission(limit, now, count, expiry, t, inMinute);
  }

  // A first request that creates the key, waits and is admitted.
  lemma Opening(limit: nat, now: int, wait: nat, t: int, inMinute: nat)
    requires 0 < limit && wait <= MINUTE_MS && t <= now + wait <= t + MINUTE_MS
    requires Leads(limit, State(now, Absent, [Idle]), t, inMinute)
    ensures Leads(limit, State(now + wait, Present(1, Some(now + MINUTE_MS)), [Idle]), t, inMinute + 1)
  {
    LeadsToRead(limit, now, Absent, t, inMinute);
    LeadsToCreated(limit, now, t, inMinute);
    LeadsLater(limit, now, Present(0, Some(now + MINUTE_MS)), wait, t, inMinute);
    LeadsToAdmission(limit, now + wait, 0, now + MINUTE_MS, t, inMinute);
  }

  lemma LeadsToCreated(limit: nat, now: int, t: int, inMinute: nat)
    requires Leads(limit, State(now, Absent, [Missed]), t, inMinute)
    ensures Leads(limit, State(now, Present(0, Some(now + MINUTE_MS)), [Read(0)]), t, inMinute)
  {
    LeadsOn(limit, State(now, Absent, [Missed]), t, inMinute, InitSet(0));
    assert [Missed][0 := Read(0)] == [Read(0)];
  }

  lemma LeadsLater(limit: nat, now: int, key: Key, wait: nat, t: int, inMinute: nat)
    requires Alive(key, now + wait) && Leads(limit, State(now, key, [Read(0)]), t, inMinute)
    ensures Leads(limit, State(now + wait, key, [Read(0)]), t, inMinute)
  {
    LeadsOn(limit, State(now, key, [Read(0)]), t, inMinute, Tick(wait));
  }

  // The key is created, and the whole limit is admitted as it is about to expire.
  lemma {:induction false} FirstBurst(limit: nat, m: nat)
    requires 0 < m <= limit
    ensures Leads(limit, State(MINUTE_MS, Present(m, Some(MINUTE_MS)), [Idle]), MINUTE_MS, m)
  {
    if m == 1 {
      Begin(limit, MINUTE_MS);
      Opening(limit, 0, MINUTE_MS, MINUTE_MS, 0);
    } else {
      FirstBurst(limit, m - 1);
      OneMore(limit, MINUTE_MS, m - 1, MINUTE_MS, MINUTE_MS, m - 1);
    }
  }

  // A millisecond later the whole limit is admitted again.
  lemma {:induction false} SecondBurst(limit: nat, m: nat)
    requires 0 < m <= limit
    ensures Leads(limit, State(MINUTE_MS + 1, Present(m, Some(2 * MINUTE_MS + 1)), [Idle]), MINUTE_MS, limit + m)
  {
    if m == 1 {
      FirstBurst(limit, limit);
      LeadsOn(limit, State(MINUTE_MS, Present(limit, Some(MINUTE_MS)), [Idle]), MINUTE_MS, limit, Tick(1));
      Opening(limit, MINUTE_MS + 1, 0, MINUTE_MS, limit);
    } else {
      SecondBurst(limit, m - 1);
      OneMore(limit, MINUTE_MS + 1, m - 1, 2 * MINUTE_MS + 1, MINUTE_MS, limit + m - 1);
    }
  }

  // The bound of AdmissionsInAnyMinute is met: two milliseconds can see twice the limit.
  lemma WorstMinute(limit: nat)
    requires 0 < limit
    ensures exists states: seq<State>, steps: seq<Step>, t ::
              Serial(limit, states, steps) && AdmissionsInMinute(states, steps, t, |steps|) == 2 * limit
  {
    SecondBurst(limit, limit);
  }
}
