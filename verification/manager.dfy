/** The test manager: a job counter protected by one mutex and one condition
    variable.  Each critical section of a job's goroutine is one atomic step. */
module TestManager {
  import opened Arithmetic
  import opened Wrappers

  /** Where a job's goroutine stands: about to lock, inside Wait, signalled but
      not yet running again, running its test, or blocked handing over its result. */
  datatype Phase = Spawned | Sleeping | Woken | Running | Sending

  datatype Stats = Stats(running: int, highRunning: int, queued: int, highQueued: int, finished: int)

  datatype WaitStats = WaitStats(maxWait: int, avgWait: int, total: int)

  /** The jobs, the counters, and the waits recorded so far. */
  datatype Manager = Manager(jobs: map<string, Phase>, stats: Stats, waits: seq<nat>)

  const IDLE := Manager(map[], Stats(0, 0, 0, 0, 0), [])

  function Max(a: int, b: int): int {
    if a < b then b else a
  }

  /** Capacity 0 means unlimited. */
  predicate Full(s: Stats, capacity: nat) {
    capacity > 0 && s.running >= capacity
  }

  function RecordWait(s: WaitStats, wait: int): WaitStats
    requires s.total >= 0
  {
    WaitStats(Max(s.maxWait, wait), (s.total * s.avgWait + wait) / (s.total + 1), s.total + 1)
  }

  function Enqueue(s: Stats): Stats {
    s.(queued := s.queued + 1, highQueued := Max(s.highQueued, s.queued + 1))
  }

  function Launch(s: Stats): Stats {
    s.(running := s.running + 1, highRunning := Max(s.highRunning, s.running + 1))
  }

  function Retire(s: Stats): Stats {
    s.(running := s.running - 1, finished := s.finished + 1)
  }

  /** From taking the lock (or waking inside Wait) to releasing it: go back to
      sleep when full, otherwise leave the queue and run. */
  function TryStart(s: Stats, capacity: nat, queued: bool): Stats {
    if Full(s, capacity) then
      if queued then s else Enqueue(s)
    else
      Launch(if queued then s.(queued := s.queued - 1) else s)
  }

  // ----- The implementation under the lock -----

  class ManagerState {
    var Capacity: nat
    var Running: int
    var HighRunning: int
    var Queued: int
    var HighQueued: int
    var Finished: int
    var MaxWait: int
    var AvgWait: int
    var total: int

    function View(): Stats
      reads this
    {
      Stats(Running, HighRunning, Queued, HighQueued, Finished)
    }

    function Waits(): WaitStats
      reads this
    {
      WaitStats(MaxWait, AvgWait, total)
    }

    /** The counters are those of the step system. */
    ghost predicate Shows(m: Manager)
      reads this
    {
      View() == m.stats && Waits() == Recorded(m.waits)
    }

    constructor (capacity: nat)
      ensures Capacity == capacity && View() == IDLE.stats && Waits() == Recorded(IDLE.waits)
    {
      Capacity := capacity;
      Running, HighRunning, Queued, HighQueued, Finished := 0, 0, 0, 0, 0;
      MaxWait, AvgWait, total := 0, 0, 0;
    }

    /** One pass of the wait loop.  Returns whether the job got the green light,
        and whether it is now counted as queued. */
    method Attempt(queued: bool, curWait: int) returns (started: bool, stillQueued: bool)
      requires total >= 0
      modifies this
      ensures Capacity == old(Capacity)
      ensures View() == TryStart(old(View()), Capacity, queued)
      ensures Waits() == if started && queued then RecordWait(old(Waits()), curWait) else old(Waits())
      ensures started == !Full(old(View()), Capacity) && stillQueued == !started
    {
      stillQueued := queued;
      if Capacity > 0 && Running >= Capacity {
        if !stillQueued {
          stillQueued := true;
          Queued := Queued + 1;
          if Queued > HighQueued {
            HighQueued := Queued;
          }
        }
        return false, stillQueued;
      }
      if stillQueued {
        Queued := Queued - 1;
        stillQueued := false;
        if MaxWait < curWait {
          MaxWait := curWait;
        }
        AvgWait := (total * AvgWait + curWait) / (total + 1);
        total := total + 1;
      }
      Running := Running + 1;
      if Running > HighRunning {
        HighRunning := Running;
      }
      started := true;
    }

    method Complete()
      modifies this
      ensures Capacity == old(Capacity) && View() == Retire(old(View())) && Waits() == old(Waits())
    {
      Running := Running - 1;
      Finished := Finished + 1;
    }
  }

  // ----- The step system -----

  datatype Event =
    | Arrive(job: string)
    | Try(job: string, wait: nat)
    | Finish(job: string, signalled: Option<string>)
    | Deliver(job: string)

  function InPhase(m: Manager, p: Phase): set<string> {
    set j | j in m.jobs && m.jobs[j] == p
  }

  predicate Enabled(m: Manager, e: Event) {
    match e
    case Arrive(j) => j !in m.jobs
    case Try(j, wait) => j in m.jobs && (m.jobs[j] == Spawned || m.jobs[j] == Woken)
    case Finish(j, signalled) =>
      && j in m.jobs && m.jobs[j] == Running
      && (match signalled
          case None => InPhase(m, Sleeping) == {}
          case Some(w) => w in m.jobs && m.jobs[w] == Sleeping)
    case Deliver(j) => j in m.jobs && m.jobs[j] == Sending
  }

  /** Signal wakes one sleeper if there is one. */
  function Signal(jobs: map<string, Phase>, signalled: Option<string>): map<string, Phase> {
    match signalled
    case None => jobs
    case Some(w) => jobs[w := Woken]
  }

  function Next(m: Manager, capacity: nat, e: Event): Manager
    requires Enabled(m, e)
  {
    match e
    case Arrive(j) => m.(jobs := m.jobs[j := Spawned])
    case Try(j, wait) =>
      Manager(m.jobs[j := if Full(m.stats, capacity) then Sleeping else Running],
              TryStart(m.stats, capacity, m.jobs[j] == Woken),
              if m.jobs[j] == Woken && !Full(m.stats, capacity) then m.waits + [wait] else m.waits)
    case Finish(j, signalled) => Manager(Signal(m.jobs[j := Sending], signalled), Retire(m.stats), m.waits)
    case Deliver(j) => m.(jobs := m.jobs - {j})
  }

  /** How many jobs are in a phase. */
  ghost function Count(m: Manager, p: Phase): int {
    |InPhase(m, p)|
  }

  /** What holds at every moment of every run with a fixed capacity. */
  ghost predicate Sound(m: Manager, capacity: nat) {
    && m.stats.finished >= 0
    && m.stats.running == Count(m, Running)
    && m.stats.queued == Count(m, Sleeping) + Count(m, Woken)
    && m.stats.running <= m.stats.highRunning && m.stats.queued <= m.stats.highQueued
    && (capacity > 0 ==> m.stats.highRunning <= capacity)
    && NoLostWakeup(m, capacity)
  }

  /** While a job sleeps, enough others run or are on their way to run. */
  ghost predicate NoLostWakeup(m: Manager, capacity: nat) {
    Count(m, Sleeping) > 0 ==> capacity > 0 && m.stats.running + Count(m, Woken) >= capacity
  }

  lemma StartsSound(capacity: nat)
    ensures Sound(IDLE, capacity) && forall p :: Count(IDLE, p) == 0
  {
    assert forall p :: InPhase(IDLE, p) == {};
  }

  function Unit(b: bool): int {
    if b then 1 else 0
  }

  /** Moving one job between phases moves one unit between the phase counts. */
  lemma MoveCount(m: Manager, m': Manager, j: string, to: Phase, p: Phase)
    requires j in m.jobs && m'.jobs == m.jobs[j := to] && m.jobs[j] != to
    ensures Count(m', p) == Count(m, p) + Unit(p == to) - Unit(p == m.jobs[j])
  {
    assert InPhase(m', p) == InPhase(m, p) - {j} + if p == to then {j} else {};
  }

  lemma MoveCounts(m: Manager, m': Manager, j: string, to: Phase)
    requires j in m.jobs && m'.jobs == m.jobs[j := to] && m.jobs[j] != to
    ensures Count(m', Spawned) == Count(m, Spawned) + Unit(to == Spawned) - Unit(m.jobs[j] == Spawned)
    ensures Count(m', Sleeping) == Count(m, Sleeping) + Unit(to == Sleeping) - Unit(m.jobs[j] == Sleeping)
    ensures Count(m', Woken) == Count(m, Woken) + Unit(to == Woken) - Unit(m.jobs[j] == Woken)
    ensures Count(m', Running) == Count(m, Running) + Unit(to == Running) - Unit(m.jobs[j] == Running)
    ensures Count(m', Sending) == Count(m, Sending) + Unit(to == Sending) - Unit(m.jobs[j] == Sending)
  {
    MoveCount(m, m', j, to, Spawned);
    MoveCount(m, m', j, to, Sleeping);
    MoveCount(m, m', j, to, Woken);
    MoveCount(m, m', j, to, Running);
    MoveCount(m, m', j, to, Sending);
  }

  lemma ComeOrGo(m: Manager, m': Manager, j: string, p: Phase, q: Phase)
    requires j !in m.jobs && m'.jobs == m.jobs[j := p]
    ensures Count(m', q) == Count(m, q) + Unit(q == p)
  {
    assert InPhase(m', q) == InPhase(m, q) + if q == p then {j} else {};
  }

  lemma TryKeepsSound(m: Manager, capacity: nat, j: string, wait: nat)
    requires Sound(m, capacity) && Enabled(m, Try(j, wait))
    ensures Sound(Next(m, capacity, Try(j, wait)), capacity)
  {
    var m' := Next(m, capacity, Try(j, wait));
    MoveCounts(m, m', j, m'.jobs[j]);
  }

  lemma FinishKeepsSound(m: Manager, capacity: nat, j: string, signalled: Option<string>)
    requires Sound(m, capacity) && Enabled(m, Finish(j, signalled))
    ensures Sound(Next(m, capacity, Finish(j, signalled)), capacity)
  {
    var m' := Next(m, capacity, Finish(j, signalled));
    var mid := m.(jobs := m.jobs[j := Sending]);
    MoveCounts(m, mid, j, Sending);
    if signalled.Some? {
      MoveCounts(mid, m', signalled.value, Woken);
    }
  }

  lemma StepKeepsSound(m: Manager, capacity: nat, e: Event)
    requires Sound(m, capacity) && Enabled(m, e)
    ensures Sound(Next(m, capacity, e), capacity)
  {
    var m' := Next(m, capacity, e);
    match e
    case Arrive(j) =>
      ComeOrGo(m, m', j, Spawned, Running);
      ComeOrGo(m, m', j, Spawned, Sleeping);
      ComeOrGo(m, m', j, Spawned, Woken);
    case Try(j, wait) => TryKeepsSound(m, capacity, j, wait);
    case Finish(j, signalled) => FinishKeepsSound(m, capacity, j, signalled);
    case Deliver(j) =>
      assert m.jobs == m'.jobs[j := Sending];
      ComeOrGo(m', m, j, Sending, Running);
      ComeOrGo(m', m, j, Sending, Sleeping);
      ComeOrGo(m', m, j, Sending, Woken);
  }

  // ----- Whole runs -----

  /** The state after a history of events, if every event was possible in turn. */
  ghost function After(events: seq<Event>, capacity: nat): (r: Option<Manager>)
    ensures r.Some? ==> Sound(r.value, capacity)
  {
    StartsSound(capacity);
    if events == [] then Some(IDLE)
    else
      var last := |events| - 1;
      match After(events[..last], capacity)
      case None => None
      case Some(m) =>
        if Enabled(m, events[last]) then
          StepKeepsSound(m, capacity, events[last]);
          Some(Next(m, capacity, events[last]))
        else None
  }

  /** The counters before event i. */
  ghost function StatsAt(events: seq<Event>, capacity: nat, i: nat): Stats
    requires i <= |events| && After(events, capacity).Some?
  {
    AfterPrefix(events, capacity, i);
    After(events[..i], capacity).value.stats
  }

  /** A high-water mark of what f counts. */
  ghost predicate IsHigh(events: seq<Event>, capacity: nat, f: Stats -> int, high: int)
    requires After(events, capacity).Some?
  {
    && (forall i :: 0 <= i <= |events| ==> f(StatsAt(events, capacity, i)) <= high)
    && exists i :: 0 <= i <= |events| && f(StatsAt(events, capacity, i)) == high
  }

  lemma HighGrows(events: seq<Event>, capacity: nat, f: Stats -> int, high: int)
    requires events != [] && After(events, capacity).Some? && After(events[..|events| - 1], capacity).Some?
    requires IsHigh(events[..|events| - 1], capacity, f, high)
    ensures IsHigh(events, capacity, f, Max(high, f(After(events, capacity).value.stats)))
  {
    hide After;
    var n, before := |events|, events[..|events| - 1];
    assert events[..n] == events;
    var now := f(After(events, capacity).value.stats);
    assert f(StatsAt(events, capacity, n)) == now;
    forall i | 0 <= i < n ensures StatsAt(events, capacity, i) == StatsAt(before, capacity, i) {
      assert events[..i] == before[..i];
    }
    var k :| 0 <= k < n && f(StatsAt(before, capacity, k)) == high;
    assert f(StatsAt(events, capacity, k)) == high;
  }

  /** The high-water marks are the largest numbers of running and of queued jobs there have
      been. */
  lemma {:induction false} HighMarksAreMaxima(events: seq<Event>, capacity: nat)
    requires After(events, capacity).Some?
    ensures var now := After(events, capacity).value.stats;
      && IsHigh(events, capacity, (s: Stats) => s.running, now.highRunning)
      && IsHigh(events, capacity, (s: Stats) => s.queued, now.highQueued)
  {
    hide IsHigh, Enabled, Next, Sound;
    if events == [] {
      HighAtFirst(capacity);
    } else {
      var before := events[..|events| - 1];
      HighMarksAreMaxima(before, capacity);
      var was := After(before, capacity).value;
      MarksGrow(was, capacity, events[|events| - 1]);
      HighGrows(events, capacity, (s: Stats) => s.running, was.stats.highRunning);
      HighGrows(events, capacity, (s: Stats) => s.queued, was.stats.highQueued);
    }
  }

  lemma HighAtFirst(capacity: nat)
    ensures IsHigh([], capacity, (s: Stats) => s.running, 0) && IsHigh([], capacity, (s: Stats) => s.queued, 0)
  {
    assert StatsAt([], capacity, 0) == IDLE.stats;
  }

  lemma MarksGrow(m: Manager, capacity: nat, e: Event)
    requires Sound(m, capacity) && Enabled(m, e)
    ensures var s, s' := m.stats, Next(m, capacity, e).stats;
      && s'.highRunning == Max(s.highRunning, s'.running) && s'.highQueued == Max(s.highQueued, s'.queued)
  {
  }

  ghost function Arrivals(events: seq<Event>): int {
    if events == [] then 0 else Arrivals(events[..|events| - 1]) + Unit(events[|events| - 1].Arrive?)
  }

  ghost function Deliveries(events: seq<Event>): int {
    if events == [] then 0 else Deliveries(events[..|events| - 1]) + Unit(events[|events| - 1].Deliver?)
  }

  /** The jobs a manager can account for. */
  ghost function Accounted(m: Manager): int {
    Count(m, Spawned) + m.stats.queued + m.stats.running + m.stats.finished
  }

  lemma TryBalances(m: Manager, capacity: nat, j: string, wait: nat)
    requires Sound(m, capacity) && Enabled(m, Try(j, wait))
    ensures var m' := Next(m, capacity, Try(j, wait));
      Accounted(m') == Accounted(m) && Count(m', Sending) == Count(m, Sending)
  {
    var m' := Next(m, capacity, Try(j, wait));
    MoveCounts(m, m', j, m'.jobs[j]);
  }

  lemma FinishBalances(m: Manager, capacity: nat, j: string, signalled: Option<string>)
    requires Sound(m, capacity) && Enabled(m, Finish(j, signalled))
    ensures var m' := Next(m, capacity, Finish(j, signalled));
      Accounted(m') == Accounted(m) && Count(m', Sending) == Count(m, Sending) + 1
  {
    var m' := Next(m, capacity, Finish(j, signalled));
    var mid := m.(jobs := m.jobs[j := Sending]);
    MoveCounts(m, mid, j, Sending);
    if signalled.Some? {
      MoveCounts(mid, m', signalled.value, Woken);
    }
  }

  lemma StepBalances(m: Manager, capacity: nat, e: Event)
    requires Sound(m, capacity) && Enabled(m, e)
    ensures var m' := Next(m, capacity, e);
      && Accounted(m') == Accounted(m) + Unit(e.Arrive?)
      && m'.stats.finished - Count(m', Sending) == m.stats.finished - Count(m, Sending) + Unit(e.Deliver?)
  {
    var m' := Next(m, capacity, e);
    match e
    case Arrive(j) =>
      ComeOrGo(m, m', j, Spawned, Spawned);
      ComeOrGo(m, m', j, Spawned, Sending);
    case Try(j, wait) => TryBalances(m, capacity, j, wait);
    case Finish(j, signalled) => FinishBalances(m, capacity, j, signalled);
    case Deliver(j) =>
      assert m.jobs == m'.jobs[j := Sending];
      ComeOrGo(m', m, j, Sending, Spawned);
      ComeOrGo(m', m, j, Sending, Sending);
  }

  /** Every job ever accepted is waiting for its first try, queued, running or
      finished; every finished job has been delivered or is being delivered. */
  lemma {:induction false} JobsAreConserved(events: seq<Event>, capacity: nat)
    requires After(events, capacity).Some?
    ensures var m := After(events, capacity).value;
      && Arrivals(events) == Accounted(m)
      && m.stats.finished == Count(m, Sending) + Deliveries(events)
  {
    if events == [] {
      StartsSound(capacity);
    } else {
      var last := |events| - 1;
      JobsAreConserved(events[..last], capacity);
      StepBalances(After(events[..last], capacity).value, capacity, events[last]);
    }
  }

  /** The manager never runs more than its capacity, counts its queue exactly,
      and always has a job able to move when some job sleeps. */
  lemma ManagerIsSafe(events: seq<Event>, capacity: nat)
    requires After(events, capacity).Some?
    ensures var m := After(events, capacity).value;
      && (capacity > 0 ==> |InPhase(m, Running)| <= capacity)
      && m.stats.running == |InPhase(m, Running)|
      && m.stats.queued == |InPhase(m, Sleeping) + InPhase(m, Woken)|
      && (InPhase(m, Sleeping) != {} ==> |InPhase(m, Running)| + |InPhase(m, Woken)| >= capacity > 0)
  {
    var m := After(events, capacity).value;
    assert InPhase(m, Sleeping) !! InPhase(m, Woken);
  }

  // ----- The counters follow the step system -----

  /** Runs the counter code along a sequence of events; it shows the manager's
      statistics at the end of it, wait statistics included. */
  method Follow(m: ManagerState, events: seq<Event>)
    requires m.Shows(IDLE) && After(events, m.Capacity).Some?
    modifies m
    ensures m.Capacity == old(m.Capacity) && m.Shows(After(events, m.Capacity).value)
  {
    var now := IDLE;
    assert events[..0] == [];
    for i := 0 to |events|
      invariant m.Capacity == old(m.Capacity) && After(events[..i], m.Capacity) == Some(now) && m.Shows(now)
    {
      AfterPrefix(events, m.Capacity, i + 1);
      assert events[..i + 1][..i] == events[..i];
      match events[i] {
        case Try(job, wait) =>
          RecordedMore(now.waits, wait);
          var started, queued := m.Attempt(now.jobs[job] == Woken, wait);
        case Finish(job, signalled) =>
          m.Complete();
        case _ =>
      }
      now := Next(now, m.Capacity, events[i]);
    }
    assert events[..|events|] == events;
  }

  lemma {:induction false} AfterPrefix(events: seq<Event>, capacity: nat, i: nat)
    requires i <= |events| && After(events, capacity).Some?
    ensures After(events[..i], capacity).Some?
    decreases |events| - i
  {
    if i < |events| {
      AfterPrefix(events, capacity, i + 1);
      assert events[..i + 1][..i] == events[..i];
    } else {
      assert events[..i] == events;
    }
  }

  lemma RecordedMore(waits: seq<nat>, wait: nat)
    ensures Recorded(waits + [wait]) == RecordWait(Recorded(waits), wait)
  {
    assert (waits + [wait])[..|waits|] == waits;
  }

  // ----- Wait statistics -----

  /** The statistics after recording the given waits in order. */
  ghost function Recorded(waits: seq<nat>): (s: WaitStats)
    ensures s.total == |waits|
  {
    if waits == [] then WaitStats(0, 0, 0)
    else RecordWait(Recorded(waits[..|waits| - 1]), waits[|waits| - 1])
  }

  ghost function TotalWait(waits: seq<nat>): nat {
    if waits == [] then 0 else TotalWait(waits[..|waits| - 1]) + waits[|waits| - 1]
  }

  /** One integer averaging step, with the products named. */
  lemma AverageStep(n: nat, avg: int, w: int, sum: int)
    requires n * avg <= sum && 2 * (sum - n * avg) <= n * (n - 1)
    ensures var q := (n * avg + w) / (n + 1);
      && (n + 1) * q <= sum + w
      && 2 * (sum + w - (n + 1) * q) <= (n + 1) * n
  {
    var p := n * avg;
    DivideBounds(p + w, n + 1);
    assert n * (n - 1) + 2 * n == (n + 1) * n;
  }

  lemma AverageInRange(n: nat, avg: int, w: int, bound: int)
    requires 0 <= avg <= bound && 0 <= w <= bound
    ensures 0 <= (n * avg + w) / (n + 1) <= bound
  {
    var p, q := n * avg, (n * avg + w) / (n + 1);
    DivideBounds(p + w, n + 1);
    assert 0 <= p <= n * bound;
    assert (n + 1) * (bound - q) == n * bound + bound - (n + 1) * q;
    CancelFactor(n + 1, bound - q);
    CancelFactor(n + 1, q);
  }

  /** n times the integer average is at most the exact total and misses it by at
      most n(n-1)/2: the average is at most the true mean, within (n-1)/2 of it. */
  lemma {:induction false} AverageIsClose(waits: seq<nat>)
    ensures var s, n := Recorded(waits), |waits|;
      && n * s.avgWait <= TotalWait(waits)
      && 2 * (TotalWait(waits) - n * s.avgWait) <= n * (n - 1)
  {
    if waits != [] {
      var n := |waits| - 1;
      var w := waits[n];
      AverageIsClose(waits[..n]);
      AverageStep(n, Recorded(waits[..n]).avgWait, w, TotalWait(waits[..n]));
    }
  }

  /** The recorded maximum bounds every wait and is one of them. */
  lemma {:induction false} MaxWaitIsMaximum(waits: seq<nat>)
    ensures forall i :: 0 <= i < |waits| ==> waits[i] <= Recorded(waits).maxWait
    ensures waits != [] ==> Recorded(waits).maxWait in waits
  {
    if |waits| > 0 {
      var n := |waits| - 1;
      MaxWaitIsMaximum(waits[..n]);
      assert forall i :: 0 <= i < n ==> waits[..n][i] == waits[i];
      if n > 0 && Recorded(waits).maxWait != waits[n] {
        assert Recorded(waits[..n]).maxWait in waits[..n];
      }
    }
  }

  lemma {:induction false} AverageAtMostMaximum(waits: seq<nat>)
    ensures 0 <= Recorded(waits).avgWait <= Recorded(waits).maxWait
  {
    if waits != [] {
      var n := |waits| - 1;
      AverageAtMostMaximum(waits[..n]);
      var before := Recorded(waits[..n]);
      AverageInRange(n, before.avgWait, waits[n], Max(before.maxWait, waits[n]));
    }
  }

  ghost function Ramp(n: nat): seq<nat> {
    seq(n, i => i)
  }

  /** The bound is reached: waits of 0, 1, 2, ... leave the average at 0. */
  lemma {:induction false} AverageBoundIsTight(n: nat)
    ensures Recorded(Ramp(n)).avgWait == 0
    ensures 2 * (TotalWait(Ramp(n)) - n * Recorded(Ramp(n)).avgWait) == n * (n - 1)
  {
    if n > 0 {
      AverageBoundIsTight(n - 1);
      assert Ramp(n)[..n - 1] == Ramp(n - 1);
    }
  }
}
