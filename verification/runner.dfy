/** The dependency runner: one waiter goroutine per test, each with a buffered
    channel of finished tests, and a main loop that selects among results from
    the manager, tests that cannot run, and tests that are ready. */
module Runner {
  import opened Wrappers
  import opened Digraph
  import opened Results
  import opened Sums
  import M = TestManager

  /** What a run depends on: the expanded dependencies of every test of the
      group, the manager's capacity, and how each test would end if it ran. */
  datatype Config = Config(deps: Edges, capacity: nat, outcome: map<string, TestResult>)

  /** The group is closed under dependencies and free of cycles. */
  ghost predicate ValidConfig(c: Config) {
    Closed(c.deps) && !Cyclic(c.deps) && Typed(c)
  }

  /** Every test has an outcome that a run can end in, so never SKIP. */
  ghost predicate Typed(c: Config) {
    c.outcome.Keys == c.deps.Keys && forall t :: t in c.outcome ==> Ended(c.outcome[t])
  }

  /** A waiter reads its channel while it needs something, then blocks sending
      itself to the ready channel (nothing needed) or the abort channel (failed). */
  datatype Waiter = Waiting(need: set<string>) | Failed | Gone

  datatype Main = Selecting | Submitting(test: string) | Done

  /** waiting maps each test still in the runner's table to its channel's
      contents; out is everything placed on the client's result channel. */
  datatype State = State(
    waiters: map<string, Waiter>,
    waiting: map<string, seq<string>>,
    main: Main,
    mgr: M.Manager,
    results: map<string, TestResult>,
    count: int,
    out: seq<string>)

  datatype Label =
    | Receive(test: string)
    | TakeReady(test: string)
    | Submit
    | TakeAbort(test: string)
    | TakeResult(test: string)
    | Try(test: string, wait: nat)
    | Finish(test: string, signalled: Option<string>)
    | Close

  function Init(c: Config): State {
    State(map t | t in c.deps :: Waiting(c.deps[t]),
          map t | t in c.deps :: [],
          Selecting, M.IDLE, map[], 0, [])
  }

  /** A non-blocking send on a buffered channel drops the message when full. */
  function Send(buffer: seq<string>, test: string, room: nat): seq<string> {
    if |buffer| < room then buffer + [test] else buffer
  }

  function Broadcast(waiting: map<string, seq<string>>, test: string, room: nat): map<string, seq<string>> {
    map id | id in waiting :: Send(waiting[id], test, room)
  }

  /** Counting, broadcasting and reporting a finished or skipped test. */
  function Report(c: Config, s: State, test: string): State {
    s.(waiting := Broadcast(s.waiting, test, |c.deps|),
       out := Send(s.out, test, |c.deps|),
       count := s.count + 1)
  }

  /** What reading one finished test does to a waiter that needs some. */
  function Heard(need: set<string>, finished: string, correct: bool): Waiter {
    if finished in need then
      if correct then Waiting(need - {finished}) else Failed
    else Waiting(need)
  }

  predicate Selects(c: Config, s: State) {
    s.main == Selecting && s.count < |c.deps|
  }

  predicate Enabled(c: Config, s: State, l: Label) {
    match l
    case Receive(t) =>
      && t in s.waiters && s.waiters[t].Waiting? && s.waiters[t].need != {}
      && t in s.waiting && |s.waiting[t]| > 0
    case TakeReady(t) => Selects(c, s) && t in s.waiters && s.waiters[t] == Waiting({})
    case Submit => s.main.Submitting? && M.Enabled(s.mgr, M.Arrive(s.main.test))
    case TakeAbort(t) => Selects(c, s) && t in s.waiters && s.waiters[t] == Failed
    case TakeResult(t) => Selects(c, s) && M.Enabled(s.mgr, M.Deliver(t))
    case Try(t, wait) => M.Enabled(s.mgr, M.Try(t, wait))
    case Finish(t, signalled) => M.Enabled(s.mgr, M.Finish(t, signalled)) && t in c.outcome
    case Close => s.main == Selecting && s.count >= |c.deps|
  }

  function Next(c: Config, s: State, l: Label): State
    requires Enabled(c, s, l)
  {
    match l
    case Receive(t) =>
      var d := s.waiting[t][0];
      var w := Heard(s.waiters[t].need, d, d in s.results && s.results[d] == Correct);
      s.(waiting := s.waiting[t := s.waiting[t][1..]],
         waiters := s.waiters[t := w],
         results := if w == Failed then s.results[t := Skip] else s.results)
    case TakeReady(t) =>
      s.(waiters := s.waiters[t := Gone], waiting := s.waiting - {t}, main := Submitting(t))
    case Submit =>
      s.(mgr := M.Next(s.mgr, c.capacity, M.Arrive(s.main.test)), main := Selecting)
    case TakeAbort(t) =>
      Report(c, s.(waiters := s.waiters[t := Gone], waiting := s.waiting - {t}), t)
    case TakeResult(t) =>
      Report(c, s.(mgr := M.Next(s.mgr, c.capacity, M.Deliver(t))), t)
    case Try(t, wait) =>
      s.(mgr := M.Next(s.mgr, c.capacity, M.Try(t, wait)))
    case Finish(t, signalled) =>
      s.(mgr := M.Next(s.mgr, c.capacity, M.Finish(t, signalled)), results := s.results[t := c.outcome[t]])
    case Close => s.(main := Done)
  }

  // ----- The invariant -----

  ghost predicate IsCorrect(s: State, t: string) {
    t in s.results && s.results[t] == Correct
  }

  /** All direct dependencies of t are in the list and ended CORRECT. */
  ghost predicate DepsMet(c: Config, s: State, t: string, done: seq<string>)
    requires t in c.deps
  {
    forall d :: d in c.deps[t] ==> d in done && IsCorrect(s, d)
  }

  /** Some direct dependency of t is in the list and did not end CORRECT. */
  ghost predicate DepFailed(c: Config, s: State, t: string, done: seq<string>)
    requires t in c.deps
  {
    exists d :: d in c.deps[t] && d in done && !IsCorrect(s, d)
  }

  ghost predicate InMain(s: State, t: string) {
    s.main == Submitting(t)
  }

  ghost predicate Tables(c: Config, s: State) {
    && s.waiters.Keys == c.deps.Keys && s.waiting.Keys <= c.deps.Keys
    && s.mgr.jobs.Keys <= c.deps.Keys && s.results.Keys <= c.deps.Keys
    && (s.main.Submitting? ==> s.main.test in c.deps)
    && Elements(s.out) <= c.deps.Keys && NoDuplicates(s.out)
    && s.count == |s.out|
    && (s.main == Done ==> s.count >= |c.deps|)
  }

  /** Each test is in exactly one place: its waiter, the main loop's hand, the
      manager, or the client's channel. */
  ghost predicate Placed(c: Config, s: State, t: string)
    requires t in s.waiters
  {
    && (t in s.waiting <==> s.waiters[t] != Gone)
    && (s.waiters[t] == Gone <==> InMain(s, t) || t in s.mgr.jobs || t in s.out)
    && !(InMain(s, t) && t in s.mgr.jobs)
    && !(t in s.out && (InMain(s, t) || t in s.mgr.jobs))
  }

  /** The tests a waiter has already read from its channel: those broadcast
      before what is still buffered. */
  ghost function ReadBy(s: State, t: string): seq<string>
    requires t in s.waiting && |s.waiting[t]| <= |s.out|
  {
    s.out[..|s.out| - |s.waiting[t]|]
  }

  /** No channel has lost a message: each buffer is the unread end of the list of
      finished tests, and a waiter needs exactly the dependencies it has not read. */
  ghost predicate Heeded(c: Config, s: State, t: string)
    requires t in s.waiters && t in c.deps
  {
    t in s.waiting ==>
      && |s.waiting[t]| <= |s.out|
      && s.waiting[t] == s.out[|s.out| - |s.waiting[t]|..]
      && (s.waiters[t].Waiting? ==>
            && s.waiters[t].need == (set d | d in c.deps[t] && d !in ReadBy(s, t))
            && DepsCorrect(c, s, t, ReadBy(s, t)))
      && (s.waiters[t] == Failed ==> DepFailed(c, s, t, ReadBy(s, t)))
  }

  /** The dependencies of t among the finished tests given all ended CORRECT. */
  ghost predicate DepsCorrect(c: Config, s: State, t: string, done: seq<string>)
    requires t in c.deps
  {
    forall d :: d in c.deps[t] && d in done ==> IsCorrect(s, d)
  }

  /** A test ended SKIP because of a failed dependency, or ran because all its
      dependencies were met. */
  ghost predicate Justified(c: Config, s: State, t: string, done: seq<string>)
    requires t in c.deps && t in c.outcome
  {
    && t in s.results
    && (s.results[t] == Skip ==> DepFailed(c, s, t, done))
    && (s.results[t] != Skip ==> s.results[t] == c.outcome[t] && DepsMet(c, s, t, done))
  }

  /** Which tests have a result, and what justifies it and each submission. */
  ghost predicate Decided(c: Config, s: State, t: string)
    requires t in s.waiters && t in c.deps && t in c.outcome
  {
    && (t in s.results <==> s.waiters[t] == Failed || t in s.out || (t in s.mgr.jobs && s.mgr.jobs[t] == M.Sending))
    && (s.waiters[t] == Failed ==> t in s.results && s.results[t] == Skip)
    && (t in s.results ==> Justified(c, s, t, s.out))
    && (InMain(s, t) || t in s.mgr.jobs ==> DepsMet(c, s, t, s.out))
  }

  ghost predicate Good(c: Config, s: State, t: string)
    requires t in s.waiters && t in c.deps && t in c.outcome
  {
    Placed(c, s, t) && Heeded(c, s, t) && Decided(c, s, t)
  }

  /** The order of delivery respects what each result rests on. */
  ghost predicate Ordered(c: Config, s: State)
    requires Tables(c, s) && c.outcome.Keys == c.deps.Keys
  {
    forall i :: 0 <= i < |s.out| ==> s.out[i] in Elements(s.out) && Justified(c, s, s.out[i], s.out[..i])
  }

  ghost predicate Inv(c: Config, s: State) {
    Typed(c) && Tables(c, s) && Ordered(c, s) && forall t :: t in c.deps ==> Good(c, s, t)
  }

  lemma InitIsGood(c: Config, t: string)
    requires Typed(c) && t in c.deps
    ensures Good(c, Init(c), t)
  {
    assert ReadBy(Init(c), t) == [];
  }

  lemma InitHasTables(c: Config)
    ensures Tables(c, Init(c))
  {
  }

  lemma InitHolds(c: Config)
    requires Typed(c)
    ensures Inv(c, Init(c))
  {
    InitHasTables(c);
    hide Good, Tables;
    forall t | t in c.deps ensures Good(c, Init(c), t) {
      InitIsGood(c, t);
    }
  }

  // ----- Preservation -----

  /** Results of finished tests never change. */
  ghost predicate Agree(s: State, s': State) {
    forall d :: d in s.out ==> d in s.results && d in s'.results && s'.results[d] == s.results[d]
  }

  lemma JustifiedStays(c: Config, s: State, s': State, t: string, done: seq<string>, done': seq<string>)
    requires t in c.deps && t in c.outcome && Agree(s, s') && Justified(c, s, t, done)
    requires forall d :: d in done ==> d in s.out && d in done'
    requires t in s'.results && s'.results[t] == s.results[t]
    ensures Justified(c, s', t, done')
  {
    if s.results[t] == Skip {
      var d :| d in c.deps[t] && d in done && !IsCorrect(s, d);
      assert !IsCorrect(s', d);
    } else {
      forall d | d in c.deps[t] ensures d in done' && IsCorrect(s', d) {
        assert IsCorrect(s, d);
      }
    }
  }

  /** A step that leaves the list of finished tests alone keeps its order. */
  lemma OrderedStays(c: Config, s: State, s': State)
    requires Inv(c, s) && Tables(c, s') && s'.out == s.out && Agree(s, s')
    ensures Ordered(c, s')
  {
    forall i | 0 <= i < |s.out| ensures Justified(c, s', s.out[i], s.out[..i]) {
      JustifiedStays(c, s, s', s.out[i], s.out[..i], s.out[..i]);
    }
  }

  lemma OutIsDecided(c: Config, s: State)
    requires Inv(c, s)
    ensures forall d :: d in s.out ==> d in c.deps && d in s.results
  {
    forall d | d in s.out ensures d in c.deps && d in s.results {
      assert d in Elements(s.out);
      assert Good(c, s, d);
    }
  }

  /** A step does not touch t. */
  ghost predicate Same(s: State, s': State, t: string) {
    && (t in s'.waiters <==> t in s.waiters) && (t in s.waiters ==> s'.waiters[t] == s.waiters[t])
    && (t in s'.waiting <==> t in s.waiting) && (t in s.waiting ==> s'.waiting[t] == s.waiting[t])
    && (InMain(s', t) <==> InMain(s, t))
    && (t in s'.mgr.jobs <==> t in s.mgr.jobs)
    && (t in s.mgr.jobs ==> (s'.mgr.jobs[t] == M.Sending <==> s.mgr.jobs[t] == M.Sending))
    && (t in s'.results <==> t in s.results) && (t in s.results ==> s'.results[t] == s.results[t])
  }

  lemma UntouchedStaysGood(c: Config, s: State, s': State, t: string)
    requires t in c.deps && t in c.outcome && t in s.waiters && Good(c, s, t)
    requires Agree(s, s') && s'.out == s.out && Same(s, s', t)
    ensures t in s'.waiters && Good(c, s', t)
  {
    if t in s.results {
      JustifiedStays(c, s, s', t, s.out, s.out);
    }
    if InMain(s, t) || t in s.mgr.jobs {
      assert DepsMet(c, s, t, s.out);
      assert forall d :: d in c.deps[t] ==> IsCorrect(s, d);
    }
    if t in s.waiting && s.waiters[t].Waiting? {
      assert DepsCorrect(c, s, t, ReadBy(s, t));
      assert forall d :: d in c.deps[t] && d in ReadBy(s, t) ==> IsCorrect(s, d);
    }
  }

  /** A step about one test that delivers nothing and leaves that test good. */
  ghost predicate Quiet(c: Config, s: State, s': State, t: string)
    requires Typed(c)
  {
    && s'.out == s.out && Agree(s, s') && Tables(c, s')
    && t in c.deps && Good(c, s', t)
    && forall u :: u in c.deps && u != t ==> Same(s, s', u)
  }

  lemma QuietStepKeeps(c: Config, s: State, s': State, t: string)
    requires Inv(c, s) && Quiet(c, s, s', t)
    ensures Inv(c, s')
  {
    forall u | u in c.deps ensures Good(c, s', u) {
      if u != t {
        UntouchedStaysGood(c, s, s', u);
      }
    }
    OrderedStays(c, s, s');
  }

  /** What the lemmas about single steps know of the state before. */
  ghost predicate Local(c: Config, s: State, t: string) {
    && Typed(c) && Tables(c, s) && t in c.deps && Good(c, s, t)
    && forall d :: d in s.out ==> d in s.results
  }

  lemma InvIsLocal(c: Config, s: State, t: string)
    requires Inv(c, s) && t in c.deps
    ensures Local(c, s, t)
  {
    OutIsDecided(c, s);
  }

  /** The waiter that reads a message. */
  lemma ReaderStaysGood(c: Config, s: State, t: string)
    requires Local(c, s, t) && Enabled(c, s, Receive(t))
    ensures Good(c, Next(c, s, Receive(t)), t) && t !in s.out
  {
    var s' := Next(c, s, Receive(t));
    var d := s.waiting[t][0];
    assert d == s.out[|s.out| - |s.waiting[t]|];
    assert ReadBy(s', t) == ReadBy(s, t) + [d];
    assert DepsCorrect(c, s, t, ReadBy(s, t));
    if s'.waiters[t] == Failed {
      assert !IsCorrect(s', d);
      assert DepFailed(c, s', t, s'.out);
    } else {
      forall e | e in c.deps[t] && e in ReadBy(s', t) ensures IsCorrect(s', e) {
        assert e == d || IsCorrect(s, e);
      }
    }
  }

  lemma ReceiveIsQuiet(c: Config, s: State, t: string)
    requires Local(c, s, t) && Enabled(c, s, Receive(t))
    ensures Quiet(c, s, Next(c, s, Receive(t)), t)
  {
    hide Good, Heard, NoDuplicates, Elements;
    ReaderStaysGood(c, s, t);
  }

  /** A test that leaves its waiter has all its dependencies met. */
  lemma ReadyStaysGood(c: Config, s: State, t: string)
    requires Local(c, s, t) && Enabled(c, s, TakeReady(t))
    ensures Good(c, Next(c, s, TakeReady(t)), t)
  {
    var s' := Next(c, s, TakeReady(t));
    forall d | d in c.deps[t] ensures d in s.out && IsCorrect(s', d) {
      assert d !in s.waiters[t].need;
      assert d in ReadBy(s, t);
      assert IsCorrect(s, d);
    }
  }

  lemma TakeReadyIsQuiet(c: Config, s: State, t: string)
    requires Local(c, s, t) && Enabled(c, s, TakeReady(t))
    ensures Quiet(c, s, Next(c, s, TakeReady(t)), t)
  {
    hide Good, NoDuplicates, Elements;
    ReadyStaysGood(c, s, t);
  }

  lemma SubmittedStaysGood(c: Config, s: State)
    requires s.main.Submitting? && Local(c, s, s.main.test) && Enabled(c, s, Submit)
    ensures Good(c, Next(c, s, Submit), s.main.test)
  {
    assert forall d :: d in c.deps[s.main.test] ==> IsCorrect(s, d);
  }

  lemma SubmitIsQuiet(c: Config, s: State)
    requires s.main.Submitting? && Local(c, s, s.main.test) && Enabled(c, s, Submit)
    ensures Quiet(c, s, Next(c, s, Submit), s.main.test)
  {
    hide Good, NoDuplicates, Elements;
    SubmittedStaysGood(c, s);
  }

  lemma TryIsQuiet(c: Config, s: State, t: string, wait: nat)
    requires Local(c, s, t) && Enabled(c, s, Try(t, wait))
    ensures Quiet(c, s, Next(c, s, Try(t, wait)), t)
  {
    hide Good, NoDuplicates, Elements;
    UntouchedStaysGood(c, s, Next(c, s, Try(t, wait)), t);
  }

  lemma FinishedStaysGood(c: Config, s: State, t: string, signalled: Option<string>)
    requires Local(c, s, t) && Enabled(c, s, Finish(t, signalled))
    ensures Good(c, Next(c, s, Finish(t, signalled)), t) && t !in s.results
  {
    assert forall d :: d in c.deps[t] ==> IsCorrect(s, d);
  }

  lemma FinishIsQuiet(c: Config, s: State, t: string, signalled: Option<string>)
    requires Local(c, s, t) && Enabled(c, s, Finish(t, signalled))
    ensures Quiet(c, s, Next(c, s, Finish(t, signalled)), t)
  {
    hide Good, Tables, Same, Enabled, Next;
    FinishedStaysGood(c, s, t, signalled);
    FinishKeepsTables(c, s, t, signalled);
    FinishIsAboutOne(c, s, t, signalled);
  }

  lemma FinishKeepsTables(c: Config, s: State, t: string, signalled: Option<string>)
    requires Tables(c, s) && t in c.deps && Enabled(c, s, Finish(t, signalled)) && t !in s.results
    ensures var s' := Next(c, s, Finish(t, signalled)); s'.out == s.out && Tables(c, s')
    ensures (forall d :: d in s.out ==> d in s.results) ==> Agree(s, Next(c, s, Finish(t, signalled)))
  {
    hide NoDuplicates, Elements;
  }

  lemma FinishIsAboutOne(c: Config, s: State, t: string, signalled: Option<string>)
    requires Enabled(c, s, Finish(t, signalled))
    ensures forall u :: u in c.deps && u != t ==> Same(s, Next(c, s, Finish(t, signalled)), u)
  {
  }

  // ----- Deliveries -----

  /** There is room for one more: the finished tests are distinct members of the
      group and the new one is not among them. */
  lemma RoomForOne(c: Config, s: State, t: string)
    requires Tables(c, s) && t in c.deps && t !in s.out
    ensures |s.out| < |c.deps|
  {
    assert forall d :: d in s.out ==> d in Elements(s.out);
    DistinctFits(s.out + [t], c.deps.Keys);
  }

  /** The delivery of t: everybody still waiting gets the message, the client
      gets the result, and t is now nowhere else. */
  ghost predicate Delivery(c: Config, s: State, s': State, t: string) {
    && s'.out == s.out + [t] && s'.count == s.count + 1 && s'.results == s.results
    && t in s.results && Justified'(c, s, t)
    && s.main == Selecting && s'.main == Selecting
    && t in s'.waiters && s'.waiters[t] == Gone && t !in s'.waiting && t !in s'.mgr.jobs
    && forall u :: u in c.deps && u != t ==> Copied(s, s', u, t)
  }

  ghost predicate Justified'(c: Config, s: State, t: string) {
    t in c.deps && t in c.outcome && Justified(c, s, t, s.out)
  }

  ghost predicate Copied(s: State, s': State, u: string, t: string) {
    && (u in s'.waiters <==> u in s.waiters) && (u in s.waiters ==> s'.waiters[u] == s.waiters[u])
    && (u in s'.waiting <==> u in s.waiting) && (u in s.waiting ==> s'.waiting[u] == s.waiting[u] + [t])
    && (u in s'.mgr.jobs <==> u in s.mgr.jobs) && (u in s.mgr.jobs ==> s'.mgr.jobs[u] == s.mgr.jobs[u])
  }

  lemma CopiedStaysGood(c: Config, s: State, s': State, u: string, t: string)
    requires Local(c, s, u) && Delivery(c, s, s', t) && u != t && Copied(s, s', u, t)
    ensures u in s'.waiters && Good(c, s', u)
  {
    if u in s.results {
      JustifiedStays(c, s, s', u, s.out, s'.out);
    }
    if u in s.mgr.jobs {
      assert forall d :: d in c.deps[u] ==> IsCorrect(s, d);
    }
    if u in s.waiting {
      assert s.waiting[u] == s.out[|s.out| - |s.waiting[u]|..];
      assert s'.waiting[u] == s'.out[|s'.out| - |s'.waiting[u]|..];
      assert ReadBy(s', u) == ReadBy(s, u);
      if s.waiters[u].Waiting? {
        assert DepsCorrect(c, s, u, ReadBy(s, u));
        assert forall d :: d in c.deps[u] && d in ReadBy(s, u) ==> IsCorrect(s', d);
      }
    }
  }

  lemma DeliveredIsGood(c: Config, s: State, s': State, t: string)
    requires Typed(c) && Delivery(c, s, s', t) && forall d :: d in s.out ==> d in s.results
    ensures Good(c, s', t)
  {
    JustifiedStays(c, s, s', t, s.out, s'.out);
  }

  lemma DeliveredAt(c: Config, s: State, s': State, t: string, i: nat)
    requires Delivery(c, s, s', t) && i <= |s.out| && forall d :: d in s.out ==> d in s.results
    requires i < |s.out| ==> s.out[i] in c.deps && s.out[i] in c.outcome && Justified(c, s, s.out[i], s.out[..i])
    ensures s'.out[i] in c.deps && s'.out[i] in c.outcome && Justified(c, s', s'.out[i], s'.out[..i])
  {
    hide Justified, Copied;
    assert s'.out[..i] == s.out[..i];
    if i < |s.out| {
      JustifiedStays(c, s, s', s.out[i], s.out[..i], s.out[..i]);
    } else {
      assert s.out[..i] == s.out;
      JustifiedStays(c, s, s', t, s.out, s.out);
    }
  }

  lemma DeliveryKeepsOrder(c: Config, s: State, s': State, t: string)
    requires Inv(c, s) && Delivery(c, s, s', t) && Tables(c, s')
    ensures Ordered(c, s')
  {
    hide Good, Justified, Copied, NoDuplicates;
    OutIsDecided(c, s);
    forall i | 0 <= i < |s'.out| ensures s'.out[i] in Elements(s'.out) && Justified(c, s', s'.out[i], s'.out[..i]) {
      DeliveredAt(c, s, s', t, i);
    }
  }

  lemma DeliveryKeeps(c: Config, s: State, s': State, t: string)
    requires Inv(c, s) && Delivery(c, s, s', t) && Tables(c, s')
    ensures Inv(c, s')
  {
    DeliveryKeepsOrder(c, s, s', t);
    OutIsDecided(c, s);
    forall u | u in c.deps ensures Good(c, s', u) {
      if u == t {
        DeliveredIsGood(c, s, s', t);
      } else {
        InvIsLocal(c, s, u);
        CopiedStaysGood(c, s, s', u, t);
      }
    }
  }

  /** In a reachable state no send of a delivery finds its channel full. */
  lemma NothingDropped(c: Config, s: State, t: string)
    requires Inv(c, s) && t in c.deps && t !in s.out
    ensures Send(s.out, t, |c.deps|) == s.out + [t]
    ensures forall u :: u in s.waiting ==> Send(s.waiting[u], t, |c.deps|) == s.waiting[u] + [t]
  {
    hide Ordered, NoDuplicates, Elements, Decided, ReadBy;
    RoomForOne(c, s, t);
    forall u | u in s.waiting ensures |s.waiting[u]| < |c.deps| {
      assert Good(c, s, u);
    }
  }

  /** What arrives at the main loop has not been delivered before. */
  lemma DeliveredOnce(c: Config, s: State, t: string)
    requires Inv(c, s) && (Enabled(c, s, TakeResult(t)) || Enabled(c, s, TakeAbort(t)))
    ensures t in c.deps && t !in s.out
  {
    assert t in c.deps ==> Good(c, s, t);
  }

  lemma TakeAbortIsDelivery(c: Config, s: State, t: string)
    requires Local(c, s, t) && Enabled(c, s, TakeAbort(t))
    requires Send(s.out, t, |c.deps|) == s.out + [t]
    requires forall u :: u in s.waiting ==> Send(s.waiting[u], t, |c.deps|) == s.waiting[u] + [t]
    ensures Delivery(c, s, Next(c, s, TakeAbort(t)), t) && Tables(c, Next(c, s, TakeAbort(t)))
  {
    hide Heeded, Justified;
    assert Elements(s.out + [t]) == Elements(s.out) + {t};
  }

  lemma TakeResultIsDelivery(c: Config, s: State, t: string)
    requires Local(c, s, t) && Enabled(c, s, TakeResult(t))
    requires Send(s.out, t, |c.deps|) == s.out + [t]
    requires forall u :: u in s.waiting ==> Send(s.waiting[u], t, |c.deps|) == s.waiting[u] + [t]
    ensures Delivery(c, s, Next(c, s, TakeResult(t)), t) && Tables(c, Next(c, s, TakeResult(t)))
  {
    hide Heeded, Justified;
    assert Elements(s.out + [t]) == Elements(s.out) + {t};
  }

  // ----- Every step -----

  lemma LocalSteps(c: Config, s: State, l: Label)
    requires Inv(c, s) && Enabled(c, s, l) && !l.Close? && !l.TakeAbort? && !l.TakeResult?
    ensures Inv(c, Next(c, s, l))
  {
    match l
    case Receive(t) =>
      InvIsLocal(c, s, t);
      ReceiveIsQuiet(c, s, t);
      QuietStepKeeps(c, s, Next(c, s, l), t);
    case TakeReady(t) =>
      InvIsLocal(c, s, t);
      TakeReadyIsQuiet(c, s, t);
      QuietStepKeeps(c, s, Next(c, s, l), t);
    case Submit =>
      InvIsLocal(c, s, s.main.test);
      SubmitIsQuiet(c, s);
      QuietStepKeeps(c, s, Next(c, s, l), s.main.test);
    case Try(t, wait) =>
      InvIsLocal(c, s, t);
      TryIsQuiet(c, s, t, wait);
      QuietStepKeeps(c, s, Next(c, s, l), t);
    case Finish(t, signalled) =>
      InvIsLocal(c, s, t);
      FinishIsQuiet(c, s, t, signalled);
      QuietStepKeeps(c, s, Next(c, s, l), t);
  }

  lemma CloseKeeps(c: Config, s: State)
    requires Inv(c, s) && Enabled(c, s, Close)
    ensures Inv(c, Next(c, s, Close))
  {
    var s' := Next(c, s, Close);
    OutIsDecided(c, s);
    OrderedStays(c, s, s');
    forall u | u in c.deps ensures Good(c, s', u) {
      UntouchedStaysGood(c, s, s', u);
    }
  }

  lemma StepKeepsInv(c: Config, s: State, l: Label)
    requires Inv(c, s) && Enabled(c, s, l)
    ensures Inv(c, Next(c, s, l))
  {
    match l
    case TakeAbort(t) =>
      InvIsLocal(c, s, t);
      NothingDropped(c, s, t);
      TakeAbortIsDelivery(c, s, t);
      DeliveryKeeps(c, s, Next(c, s, l), t);
    case TakeResult(t) =>
      InvIsLocal(c, s, t);
      NothingDropped(c, s, t);
      TakeResultIsDelivery(c, s, t);
      DeliveryKeeps(c, s, Next(c, s, l), t);
    case Close => CloseKeeps(c, s);
    case _ => LocalSteps(c, s, l);
  }

  lemma StepKeepsManager(c: Config, s: State, l: Label)
    requires M.Sound(s.mgr, c.capacity) && Enabled(c, s, l)
    ensures M.Sound(Next(c, s, l).mgr, c.capacity)
  {
    match l
    case Submit => M.StepKeepsSound(s.mgr, c.capacity, M.Arrive(s.main.test));
    case TakeResult(t) => M.StepKeepsSound(s.mgr, c.capacity, M.Deliver(t));
    case Try(t, wait) => M.StepKeepsSound(s.mgr, c.capacity, M.Try(t, wait));
    case Finish(t, signalled) => M.StepKeepsSound(s.mgr, c.capacity, M.Finish(t, signalled));
    case _ =>
  }

  // ----- No deadlock -----

  lemma JobCanMove(c: Config, s: State, j: string) returns (l: Label)
    requires M.Sound(s.mgr, c.capacity) && Tables(c, s) && Typed(c) && Selects(c, s) && j in s.mgr.jobs
    ensures Enabled(c, s, l)
  {
    match s.mgr.jobs[j]
    case Spawned => l := Try(j, 0);
    case Woken => l := Try(j, 0);
    case Sending => l := TakeResult(j);
    case Running =>
      if w :| w in M.InPhase(s.mgr, M.Sleeping) {
        l := Finish(j, Some(w));
      } else {
        l := Finish(j, None);
      }
    case Sleeping =>
      assert j in M.InPhase(s.mgr, M.Sleeping);
      if w :| w in M.InPhase(s.mgr, M.Woken) {
        l := Try(w, 0);
      } else {
        assert M.Count(s.mgr, M.Running) > 0;
        var r :| r in M.InPhase(s.mgr, M.Running);
        l := Finish(r, Some(j));
      }
  }

  /** With no job in the manager, an undelivered test all of whose dependencies
      are delivered has a waiter that can move. */
  lemma WaiterCanMove(c: Config, s: State, t: string) returns (l: Label)
    requires Inv(c, s) && Selects(c, s) && t in c.deps && t !in s.out && t !in s.mgr.jobs
    requires forall d :: d in c.deps[t] ==> d in s.out
    ensures Enabled(c, s, l)
  {
    assert Good(c, s, t);
    if s.waiters[t] == Failed {
      l := TakeAbort(t);
    } else if s.waiters[t].need == {} {
      l := TakeReady(t);
    } else {
      var d :| d in s.waiters[t].need;
      assert d in s.out && d !in ReadBy(s, t);
      l := Receive(t);
    }
  }

  /** Until the client's channel is closed, some goroutine can take a step. */
  lemma NoDeadlock(c: Config, s: State) returns (l: Label)
    requires ValidConfig(c) && Inv(c, s) && M.Sound(s.mgr, c.capacity) && s.main != Done
    ensures Enabled(c, s, l)
  {
    if s.main.Submitting? {
      assert Good(c, s, s.main.test);
      l := Submit;
    } else if s.count >= |c.deps| {
      l := Close;
    } else if j :| j in s.mgr.jobs {
      l := JobCanMove(c, s, j);
    } else {
      var left := c.deps.Keys - Elements(s.out);
      DistinctCount(s.out);
      assert left != {};
      var t := HasSink(c.deps, left);
      forall d | d in c.deps[t] ensures d in s.out {
        assert d in c.deps && d !in left;
      }
      l := WaiterCanMove(c, s, t);
    }
  }

  // ----- Termination -----

  function JobWeight(p: M.Phase): nat {
    match p
    case Spawned => 6
    case Woken => 5
    case Sleeping => 4
    case Running => 3
    case Sending => 1
  }

  /** An upper bound on the steps still to be taken on behalf of t. */
  ghost function Weight(c: Config, s: State, t: string): int {
    if t in s.waiters && s.waiters[t].Waiting? && t in s.waiting then
      9 + |c.deps| - |s.out| + |s.waiting[t]|
    else if t in s.waiters && s.waiters[t] == Failed then 8
    else if InMain(s, t) then 7
    else if t in s.mgr.jobs then JobWeight(s.mgr.jobs[t])
    else 0
  }

  ghost function Weights(c: Config, s: State): map<string, int> {
    map t | t in c.deps :: Weight(c, s, t)
  }

  ghost function Measure(c: Config, s: State): int {
    SumOver(c.deps.Keys, Weights(c, s)) + if s.main == Done then 0 else 1
  }

  lemma OutFits(c: Config, s: State)
    requires Tables(c, s)
    ensures |s.out| <= |c.deps|
  {
    assert forall i :: 0 <= i < |s.out| ==> s.out[i] in Elements(s.out);
    DistinctFits(s.out, c.deps.Keys);
  }

  lemma MeasureNonnegative(c: Config, s: State)
    requires Tables(c, s)
    ensures Measure(c, s) >= 0
  {
    OutFits(c, s);
    var zeros := map t | t in c.deps :: 0;
    SumConstant(c.deps.Keys, zeros, 0);
    SumAtMost(c.deps.Keys, zeros, Weights(c, s));
  }

  /** If only t's weight changes, and it falls, the measure falls. */
  lemma OneFalls(c: Config, s: State, s': State, t: string)
    requires t in c.deps && Weight(c, s', t) < Weight(c, s, t)
    requires forall u :: u in c.deps && u != t ==> Weight(c, s', u) == Weight(c, s, u)
    requires s'.main == Done <==> s.main == Done
    ensures Measure(c, s') < Measure(c, s)
  {
    SumDiffersAt(c.deps.Keys, Weights(c, s), Weights(c, s'), t);
  }

  /** A signal adds one to the woken job's weight, finishing takes two off. */
  lemma FinishFalls(c: Config, s: State, s': State, t: string, w: string)
    requires t in c.deps && w in c.deps && t != w
    requires Weight(c, s, t) == 3 && Weight(c, s', t) == 1
    requires Weight(c, s', w) == Weight(c, s, w) + 1
    requires forall u :: u in c.deps && u != t && u != w ==> Weight(c, s', u) == Weight(c, s, u)
    requires s'.main == Done <==> s.main == Done
    ensures Measure(c, s') < Measure(c, s)
  {
    var half := Weights(c, s)[t := 1];
    SumUpdate(c.deps.Keys, Weights(c, s), t, 1);
    SumDiffersAt(c.deps.Keys, half, Weights(c, s'), w);
  }

  lemma InManager(c: Config, s: State, t: string)
    requires Local(c, s, t) && t in s.mgr.jobs
    ensures Weight(c, s, t) == JobWeight(s.mgr.jobs[t])
  {
  }

  lemma FinishAloneFalls(c: Config, s: State, t: string)
    requires Local(c, s, t) && Enabled(c, s, Finish(t, None))
    ensures Measure(c, Next(c, s, Finish(t, None))) < Measure(c, s)
  {
    InManager(c, s, t);
    OneFalls(c, s, Next(c, s, Finish(t, None)), t);
  }

  lemma FinishWakingFalls(c: Config, s: State, t: string, w: string)
    requires Local(c, s, t) && Local(c, s, w) && Enabled(c, s, Finish(t, Some(w)))
    ensures Measure(c, Next(c, s, Finish(t, Some(w)))) < Measure(c, s)
  {
    InManager(c, s, t);
    InManager(c, s, w);
    FinishFalls(c, s, Next(c, s, Finish(t, Some(w))), t, w);
  }

  lemma FinishStepFalls(c: Config, s: State, t: string, signalled: Option<string>)
    requires Inv(c, s) && Enabled(c, s, Finish(t, signalled))
    ensures Measure(c, Next(c, s, Finish(t, signalled))) < Measure(c, s)
  {
    hide Good, Measure, Next;
    InvIsLocal(c, s, t);
    match signalled
    case None => FinishAloneFalls(c, s, t);
    case Some(w) =>
      InvIsLocal(c, s, w);
      FinishWakingFalls(c, s, t, w);
  }

  /** Delivering t costs each remaining waiter nothing: its possible future
      messages become one fewer as its buffer grows by one. */
  lemma DeliveryFalls(c: Config, s: State, s': State, t: string)
    requires Inv(c, s) && Delivery(c, s, s', t) && Weight(c, s, t) > 0
    ensures Measure(c, s') < Measure(c, s)
  {
    hide Inv, Weight, Copied, Justified, Measure;
    CopiesWeighTheSame(c, s, s', t);
    OneFalls(c, s, s', t);
  }

  lemma CopiesWeighTheSame(c: Config, s: State, s': State, t: string)
    requires Delivery(c, s, s', t)
    ensures Weight(c, s', t) == 0 && forall u :: u in c.deps && u != t ==> Weight(c, s', u) == Weight(c, s, u)
  {
    hide Justified';
    forall u | u in c.deps && u != t ensures Weight(c, s', u) == Weight(c, s, u) {
      assert Copied(s, s', u, t);
    }
  }

  lemma ReceiveFalls(c: Config, s: State, t: string)
    requires Local(c, s, t) && Enabled(c, s, Receive(t))
    ensures Measure(c, Next(c, s, Receive(t))) < Measure(c, s)
  {
    OutFits(c, s);
    OneFalls(c, s, Next(c, s, Receive(t)), t);
  }

  lemma TakeReadyFalls(c: Config, s: State, t: string)
    requires Local(c, s, t) && Enabled(c, s, TakeReady(t))
    ensures Measure(c, Next(c, s, TakeReady(t))) < Measure(c, s)
  {
    OutFits(c, s);
    OneFalls(c, s, Next(c, s, TakeReady(t)), t);
  }

  lemma SubmitFalls(c: Config, s: State)
    requires s.main.Submitting? && Local(c, s, s.main.test) && Enabled(c, s, Submit)
    ensures Measure(c, Next(c, s, Submit)) < Measure(c, s)
  {
    OneFalls(c, s, Next(c, s, Submit), s.main.test);
  }

  lemma TryFalls(c: Config, s: State, t: string, wait: nat)
    requires Local(c, s, t) && Enabled(c, s, Try(t, wait))
    ensures Measure(c, Next(c, s, Try(t, wait))) < Measure(c, s)
  {
    InManager(c, s, t);
    OneFalls(c, s, Next(c, s, Try(t, wait)), t);
  }

  lemma DeliveredWeighs(c: Config, s: State, l: Label, t: string)
    requires Local(c, s, t) && Enabled(c, s, l) && (l == TakeAbort(t) || l == TakeResult(t))
    ensures Weight(c, s, t) > 0 && t in c.deps && t !in s.out
  {
  }

  lemma DeliveryStepFalls(c: Config, s: State, l: Label, t: string)
    requires Inv(c, s) && Local(c, s, t) && Enabled(c, s, l) && (l == TakeAbort(t) || l == TakeResult(t))
    ensures Measure(c, Next(c, s, l)) < Measure(c, s)
  {
    hide Inv, Local, Next, Enabled, Measure, Weight, Delivery;
    DeliveredWeighs(c, s, l, t);
    NothingDropped(c, s, t);
    if l.TakeAbort? {
      TakeAbortIsDelivery(c, s, t);
    } else {
      TakeResultIsDelivery(c, s, t);
    }
    DeliveryFalls(c, s, Next(c, s, l), t);
  }

  /** The test a step is about. */
  function About(s: State, l: Label): Option<string> {
    match l
    case Receive(t) => Some(t)
    case TakeReady(t) => Some(t)
    case Submit => if s.main.Submitting? then Some(s.main.test) else None
    case TakeAbort(t) => Some(t)
    case TakeResult(t) => Some(t)
    case Try(t, wait) => Some(t)
    case Finish(t, signalled) => Some(t)
    case Close => None
  }

  lemma StepIsLocal(c: Config, s: State, l: Label)
    requires Inv(c, s) && Enabled(c, s, l) && !l.Close?
    ensures About(s, l).Some? && Local(c, s, About(s, l).value)
  {
    hide Local, Good;
    assert About(s, l).value in c.deps;
    InvIsLocal(c, s, About(s, l).value);
  }

  lemma CloseFalls(c: Config, s: State)
    requires Enabled(c, s, Close)
    ensures Measure(c, Next(c, s, Close)) < Measure(c, s)
  {
    SumSame(c.deps.Keys, Weights(c, s), Weights(c, Next(c, s, Close)));
  }

  /** Every step makes the measure fall. */
  lemma MeasureFalls(c: Config, s: State, l: Label)
    requires Inv(c, s) && Enabled(c, s, l)
    ensures Measure(c, Next(c, s, l)) < Measure(c, s)
  {
    hide Inv, Local, Next, Enabled, Measure;
    if !l.Close? {
      StepIsLocal(c, s, l);
    }
    match l
    case Receive(t) => ReceiveFalls(c, s, t);
    case TakeReady(t) => TakeReadyFalls(c, s, t);
    case Submit => SubmitFalls(c, s);
    case Try(t, wait) => TryFalls(c, s, t, wait);
    case Finish(t, signalled) => FinishStepFalls(c, s, t, signalled);
    case TakeAbort(t) => DeliveryStepFalls(c, s, l, t);
    case TakeResult(t) => DeliveryStepFalls(c, s, l, t);
    case Close => CloseFalls(c, s);
  }

  lemma InitialMeasure(c: Config)
    ensures Measure(c, Init(c)) == |c.deps| * (|c.deps| + 9) + 1
  {
    SumConstant(c.deps.Keys, Weights(c, Init(c)), |c.deps| + 9);
  }

  // ----- Whole runs -----

  /** The state after taking the labelled steps in turn, if all were possible. */
  ghost function After(c: Config, labels: seq<Label>): Option<State> {
    if labels == [] then Some(Init(c))
    else
      var last := |labels| - 1;
      match After(c, labels[..last])
      case None => None
      case Some(s) => if Enabled(c, s, labels[last]) then Some(Next(c, s, labels[last])) else None
  }

  /** A run is complete when no goroutine can take a step any more. */
  ghost predicate IsComplete(c: Config, labels: seq<Label>) {
    After(c, labels).Some? && forall l :: !Enabled(c, After(c, labels).value, l)
  }

  lemma {:induction false} RunKeepsInv(c: Config, labels: seq<Label>)
    requires Typed(c) && After(c, labels).Some?
    ensures var s := After(c, labels).value; Inv(c, s) && M.Sound(s.mgr, c.capacity)
  {
    if labels == [] {
      InitHolds(c);
      M.StartsSound(c.capacity);
    } else {
      var last := |labels| - 1;
      var s := After(c, labels[..last]).value;
      RunKeepsInv(c, labels[..last]);
      StepKeepsInv(c, s, labels[last]);
      StepKeepsManager(c, s, labels[last]);
    }
  }

  lemma {:induction false} MeasureBoundsSteps(c: Config, labels: seq<Label>)
    requires Typed(c) && After(c, labels).Some?
    ensures |labels| + Measure(c, After(c, labels).value) <= Measure(c, Init(c))
  {
    if labels != [] {
      var last := |labels| - 1;
      MeasureBoundsSteps(c, labels[..last]);
      RunKeepsInv(c, labels[..last]);
      MeasureFalls(c, After(c, labels[..last]).value, labels[last]);
    }
  }

  /** No run is longer than n(n+9)+1 steps, whatever the schedule. */
  lemma RunsAreBounded(c: Config, labels: seq<Label>)
    requires Typed(c) && After(c, labels).Some?
    ensures |labels| <= |c.deps| * (|c.deps| + 9) + 1
  {
    MeasureBoundsSteps(c, labels);
    RunKeepsInv(c, labels);
    MeasureNonnegative(c, After(c, labels).value);
    InitialMeasure(c);
  }

  /** Whatever the schedule, when a result or a skipped test arrives, no channel it is
      offered to is full: neither default branch is ever taken. */
  lemma DefaultNeverTaken(c: Config, labels: seq<Label>, t: string)
    requires Typed(c) && After(c, labels).Some?
    requires Enabled(c, After(c, labels).value, TakeResult(t)) || Enabled(c, After(c, labels).value, TakeAbort(t))
    ensures var s := After(c, labels).value;
      && |s.out| < |c.deps|
      && forall u :: u in s.waiting ==> |s.waiting[u]| < |c.deps|
  {
    hide Inv, Enabled, After;
    var s := After(c, labels).value;
    RunKeepsInv(c, labels);
    DeliveredOnce(c, s, t);
    NothingDropped(c, s, t);
    assert |s.out + [t]| == |s.out| + 1;
    forall u | u in s.waiting ensures |s.waiting[u]| < |c.deps| {
      assert Send(s.waiting[u], t, |c.deps|) == s.waiting[u] + [t];
      assert |s.waiting[u] + [t]| == |s.waiting[u]| + 1;
    }
  }

  lemma FullSubset(a: set<string>, b: set<string>)
    requires a <= b && |a| >= |b|
    ensures a == b
  {
    assert b == a + (b - a);
    assert |b - a| == 0;
  }

  lemma DoneHasDeliveredAll(c: Config, s: State)
    requires Inv(c, s) && s.main == Done
    ensures NoDuplicates(s.out) && Elements(s.out) == c.deps.Keys && s.results.Keys == c.deps.Keys
  {
    hide Good, Ordered, NoDuplicates;
    DistinctCount(s.out);
    FullSubset(Elements(s.out), c.deps.Keys);
    OutIsDecided(c, s);
    assert forall t :: t in c.deps ==> t in Elements(s.out);
  }

  lemma StuckIsDone(c: Config, s: State)
    requires ValidConfig(c) && Inv(c, s) && M.Sound(s.mgr, c.capacity) && forall l :: !Enabled(c, s, l)
    ensures s.main == Done
  {
    hide Inv, Enabled;
    if s.main != Done {
      var l := NoDeadlock(c, s);
      assert false;
    }
  }

  /** When no goroutine can move, the client's channel is closed and holds
      exactly one result for every test of the group. */
  lemma CompleteRunDeliversAll(c: Config, labels: seq<Label>)
    requires ValidConfig(c) && IsComplete(c, labels)
    ensures var s := After(c, labels).value;
      s.main == Done && NoDuplicates(s.out) && Elements(s.out) == c.deps.Keys && s.results.Keys == c.deps.Keys
  {
    hide Inv, Enabled, After, Elements, NoDuplicates;
    var s := After(c, labels).value;
    RunKeepsInv(c, labels);
    StuckIsDone(c, s);
    DoneHasDeliveredAll(c, s);
  }

  // ----- The result does not depend on the schedule -----

  ghost predicate AllCorrect(c: Config, r: map<string, TestResult>, t: string)
    requires t in c.deps
  {
    forall d :: d in c.deps[t] ==> d in r && r[d] == Correct
  }

  /** The results the dependencies and outcomes call for: a test runs when all
      its direct dependencies end CORRECT and is skipped otherwise. */
  ghost predicate IsVerdict(c: Config, r: map<string, TestResult>)
    requires Typed(c)
  {
    && r.Keys == c.deps.Keys
    && forall t :: t in c.deps ==> r[t] == if AllCorrect(c, r, t) then c.outcome[t] else Skip
  }

  /** Each result is what the results of the dependencies call for. */
  lemma DoneIsVerdict(c: Config, s: State)
    requires Inv(c, s) && s.results.Keys == c.deps.Keys
    ensures IsVerdict(c, s.results)
  {
    forall t | t in c.deps
      ensures s.results[t] == if AllCorrect(c, s.results, t) then c.outcome[t] else Skip
    {
      assert Good(c, s, t);
      assert Justified(c, s, t, s.out);
      if s.results[t] != Skip {
        assert forall d :: d in c.deps[t] ==> IsCorrect(s, d);
      }
    }
  }

  lemma CompleteRunReachesVerdict(c: Config, labels: seq<Label>)
    requires ValidConfig(c) && IsComplete(c, labels)
    ensures IsVerdict(c, After(c, labels).value.results)
  {
    hide Inv, Enabled, After, IsVerdict;
    CompleteRunDeliversAll(c, labels);
    RunKeepsInv(c, labels);
    DoneIsVerdict(c, After(c, labels).value);
  }

  lemma {:induction false} VerdictsAgreeAt(c: Config, r: map<string, TestResult>, r': map<string, TestResult>,
                                          order: seq<string>, t: string)
    requires Typed(c) && Closed(c.deps) && TopOrder(c.deps, order) && IsVerdict(c, r) && IsVerdict(c, r') && t in order
    ensures t in c.deps && r[t] == r'[t]
    decreases |order| - IndexOf(order, t)
  {
    assert t in Elements(order);
    forall d | d in c.deps[t] ensures d in c.deps && r[d] == r'[d] {
      assert d in Elements(order);
      assert IsEdge(c.deps, order[IndexOf(order, t)], order[IndexOf(order, d)]);
      VerdictsAgreeAt(c, r, r', order, d);
    }
    assert AllCorrect(c, r, t) <==> AllCorrect(c, r', t);
  }

  /** In an acyclic group there is only one verdict. */
  lemma VerdictIsUnique(c: Config, r: map<string, TestResult>, r': map<string, TestResult>)
    requires ValidConfig(c) && IsVerdict(c, r) && IsVerdict(c, r')
    ensures r == r'
  {
    hide IsVerdict, TopOrder, Closed, Cyclic;
    var order := AcyclicHasOrder(c.deps);
    OrderHasAll(c.deps, order);
    VerdictIsForAll(c, r);
    VerdictIsForAll(c, r');
    forall t | t in c.deps ensures r[t] == r'[t] {
      VerdictsAgreeAt(c, r, r', order, t);
    }
  }

  lemma VerdictIsForAll(c: Config, r: map<string, TestResult>)
    requires Typed(c) && IsVerdict(c, r)
    ensures r.Keys == c.deps.Keys
  {
  }

  /** Any two complete runs of one group end with the same results. */
  lemma ScheduleDoesNotMatter(c: Config, labels: seq<Label>, labels': seq<Label>)
    requires ValidConfig(c) && IsComplete(c, labels) && IsComplete(c, labels')
    ensures After(c, labels).value.results == After(c, labels').value.results
  {
    CompleteRunReachesVerdict(c, labels);
    CompleteRunReachesVerdict(c, labels');
    VerdictIsUnique(c, After(c, labels).value.results, After(c, labels').value.results);
  }

  /** Some dependency of t, direct or not, ran and did not end CORRECT. */
  ghost predicate HasBadDependency(c: Config, r: map<string, TestResult>, t: string) {
    exists d, f :: IsEdge(c.deps, t, d) && Reaches(c.deps, d, f) && f in r && r[f] != Skip && r[f] != Correct
  }

  lemma {:induction false} FailureSpreads(c: Config, r: map<string, TestResult>, p: seq<string>, t: string, f: string)
    requires ValidConfig(c) && IsVerdict(c, r) && PathFromTo(c.deps, p, t, f)
    requires f in c.deps && c.outcome[f] != Correct
    ensures t in c.deps && r[t] != Correct
    decreases |p|
  {
    if |p| > 1 {
      assert IsEdge(c.deps, p[0], p[1]);
      assert PathFromTo(c.deps, p[1..], p[1], f) by {
        forall i | 0 <= i < |p[1..]| - 1 ensures IsEdge(c.deps, p[1..][i], p[1..][i + 1]) {
          assert IsEdge(c.deps, p[i + 1], p[i + 1 + 1]);
        }
      }
      FailureSpreads(c, r, p[1..], p[1], f);
    }
  }

  /** A test that is not CORRECT rests on one that ran and failed: itself, or
      something it depends on. */
  lemma FailureHasCause(c: Config, r: map<string, TestResult>, order: seq<string>, t: string) returns (f: string)
    requires ValidConfig(c) && IsVerdict(c, r) && TopOrder(c.deps, order)
    requires t in c.deps && r[t] != Correct
    ensures Reaches(c.deps, t, f) && f in c.deps && c.outcome[f] != Correct && r[f] != Skip
    decreases |order| - IndexOf(order, t)
  {
    assert t in Elements(order);
    if r[t] != Skip {
      ReachesSelf(c.deps, t);
      f := t;
    } else {
      var d :| d in c.deps[t] && r[d] != Correct;
      assert d in Elements(order);
      assert IsEdge(c.deps, order[IndexOf(order, t)], order[IndexOf(order, d)]);
      f := FailureHasCause(c, r, order, d);
      ReachesByEdge(c.deps, t, d, f);
    }
  }

  /** Exactly the tests with a dependency, direct or not, that ran and failed are
      skipped. */
  lemma SkippedIffBadDependency(c: Config, r: map<string, TestResult>, t: string)
    requires ValidConfig(c) && IsVerdict(c, r) && t in c.deps
    ensures r[t] == Skip <==> HasBadDependency(c, r, t)
  {
    if r[t] == Skip {
      var d :| d in c.deps[t] && r[d] != Correct;
      var order := AcyclicHasOrder(c.deps);
      var f := FailureHasCause(c, r, order, d);
      assert IsEdge(c.deps, t, d) && r[f] != Correct;
    }
    if HasBadDependency(c, r, t) {
      var d, f :| IsEdge(c.deps, t, d) && Reaches(c.deps, d, f) && f in r && r[f] != Skip && r[f] != Correct;
      var p :| PathFromTo(c.deps, p, d, f);
      FailureSpreads(c, r, p, d, f);
    }
  }

  /** Two groups alike but for the test f, which fails in the first only. */
  ghost predicate FailsOnlyAt(c: Config, c': Config, f: string) {
    && ValidConfig(c) && Typed(c') && c'.deps == c.deps && f in c.deps
    && c.outcome[f] != Correct && c'.outcome[f] == Correct
    && forall t :: t in c.deps && t != f ==> c.outcome[t] == c'.outcome[t]
  }

  /** A failing test, if it runs, keeps everything that depends on it from running. */
  lemma FailureSkipsDependents(c: Config, r: map<string, TestResult>, t: string, f: string)
    requires ValidConfig(c) && IsVerdict(c, r) && t in c.deps && f in c.deps && t != f
    requires Reaches(c.deps, t, f) && c.outcome[f] != Correct
    ensures r[t] == Skip
  {
    var d := ReachesSplit(c.deps, t, f);
    var p :| PathFromTo(c.deps, p, d, f);
    FailureSpreads(c, r, p, d, f);
  }

  lemma {:induction false} OthersAgree(c: Config, c': Config, r: map<string, TestResult>, r': map<string, TestResult>,
                                       f: string, order: seq<string>, t: string)
    requires FailsOnlyAt(c, c', f) && IsVerdict(c, r) && IsVerdict(c', r')
    requires TopOrder(c.deps, order) && t in c.deps && !Reaches(c.deps, t, f)
    ensures r[t] == r'[t]
    decreases |order| - IndexOf(order, t)
  {
    assert t in Elements(order);
    ReachesSelf(c.deps, f);
    forall d | d in c.deps[t] ensures d in c.deps && r[d] == r'[d] {
      assert d in Elements(order);
      assert IsEdge(c.deps, order[IndexOf(order, t)], order[IndexOf(order, d)]);
      if Reaches(c.deps, d, f) {
        ReachesByEdge(c.deps, t, d, f);
      }
      OthersAgree(c, c', r, r', f, order, d);
    }
    assert AllCorrect(c, r, t) <==> AllCorrect(c', r', t);
  }

  /** One failure, of a test that runs in either case, skips exactly the tests that
      depend on it, directly or not; all other tests end as they would have. */
  lemma OneFailure(c: Config, c': Config, r: map<string, TestResult>, r': map<string, TestResult>, f: string, t: string)
    requires FailsOnlyAt(c, c', f) && IsVerdict(c, r) && IsVerdict(c', r') && t in c.deps
    ensures r[f] != Skip <==> r'[f] != Skip
    ensures r[t] == if t == f then (if r'[f] == Skip then Skip else c.outcome[f])
                    else if Reaches(c.deps, t, f) then Skip
                    else r'[t]
  {
    var order := AcyclicHasOrder(c.deps);
    if t != f {
      if Reaches(c.deps, t, f) {
        FailureSkipsDependents(c, r, t, f);
      } else {
        OthersAgree(c, c', r, r', f, order, t);
      }
    }
    forall d | d in c.deps[f] ensures d in c.deps && r[d] == r'[d] {
      NoWayBack(c, f, d);
      OthersAgree(c, c', r, r', f, order, d);
    }
    assert AllCorrect(c, r, f) <==> AllCorrect(c', r', f);
  }

  lemma NoWayBack(c: Config, f: string, d: string)
    requires ValidConfig(c) && f in c.deps && d in c.deps[f]
    ensures d in c.deps && !Reaches(c.deps, d, f)
  {
    if Reaches(c.deps, d, f) {
      WayBackIsCycle(c.deps, f, d);
    }
  }

  /** The client hears of a test that ran after all its dependencies, and of a
      skipped test after a dependency that did not end CORRECT. */
  lemma DeliveryOrder(c: Config, labels: seq<Label>, i: nat)
    requires Typed(c) && After(c, labels).Some? && i < |After(c, labels).value.out|
    ensures var s := After(c, labels).value;
      && s.out[i] in c.deps && s.out[i] in s.results
      && (s.results[s.out[i]] != Skip ==> forall d :: d in c.deps[s.out[i]] ==> d in s.out[..i] && IsCorrect(s, d))
      && (s.results[s.out[i]] == Skip ==> exists d :: d in c.deps[s.out[i]] && d in s.out[..i] && !IsCorrect(s, d))
  {
    var s := After(c, labels).value;
    RunKeepsInv(c, labels);
    assert Justified(c, s, s.out[i], s.out[..i]);
  }

  /** Whatever reaches the manager had all its dependencies delivered CORRECT. */
  lemma SubmittedOnlyWhenMet(c: Config, labels: seq<Label>, t: string)
    requires Typed(c) && After(c, labels).Some? && t in c.deps
    requires var s := After(c, labels).value; InMain(s, t) || t in s.mgr.jobs
    ensures forall d :: d in c.deps[t] ==> d in After(c, labels).value.out && IsCorrect(After(c, labels).value, d)
  {
    RunKeepsInv(c, labels);
    assert Good(c, After(c, labels).value, t);
  }

  /** Every run can be carried on until it is complete. */
  lemma {:induction false} RunCanComplete(c: Config, labels: seq<Label>) returns (full: seq<Label>)
    requires ValidConfig(c) && After(c, labels).Some?
    ensures IsComplete(c, full) && labels <= full
    decreases Measure(c, After(c, labels).value)
  {
    var s := After(c, labels).value;
    RunKeepsInv(c, labels);
    if l :| Enabled(c, s, l) {
      var longer := labels + [l];
      assert longer[..|longer| - 1] == labels;
      MeasureFalls(c, s, l);
      StepKeepsInv(c, s, l);
      MeasureNonnegative(c, Next(c, s, l));
      full := RunCanComplete(c, longer);
    } else {
      full := labels;
    }
  }
}

/** The goroutine bodies whose effects the step system composes. */
module RunnerLoops {
  import opened Wrappers
  import R = Runner

  /** The state the main goroutine of DependencyRunner.Run closes over. */
  class MainLoop {
    var waiting: map<string, seq<string>>
    var callbackChan: seq<string>
    var results: int
    const room: nat

    /** The table, the client's channel and the count are those of the step system. */
    ghost predicate Shows(c: R.Config, s: R.State)
      reads this
    {
      waiting == s.waiting && callbackChan == s.out && results == s.count && room == |c.deps|
    }

    constructor (tests: set<string>)
      ensures waiting == map t | t in tests :: []
      ensures callbackChan == [] && results == 0 && room == |tests|
    {
      waiting, callbackChan, results, room := map t | t in tests :: [], [], 0, |tests|;
    }

    /** Offers a finished test to every channel in the table, in any order. */
    method Bcast(test: string)
      modifies this`waiting
      ensures waiting == R.Broadcast(old(waiting), test, room)
    {
      ghost var before := waiting;
      var todo := waiting.Keys;
      while todo != {}
        invariant todo <= before.Keys == waiting.Keys
        invariant forall id :: id in before ==>
          waiting[id] == if id in todo then before[id] else R.Send(before[id], test, room)
        decreases todo
      {
        var id :| id in todo;
        if |waiting[id]| < room {
          waiting := waiting[id := waiting[id] + [test]];
        }
        todo := todo - {id};
      }
    }

    method Callback(test: string)
      modifies this`callbackChan
      ensures callbackChan == R.Send(old(callbackChan), test, room)
    {
      if |callbackChan| < room {
        callbackChan := callbackChan + [test];
      }
    }

    method OnResult(test: string)
      modifies this
      ensures waiting == R.Broadcast(old(waiting), test, room)
      ensures callbackChan == R.Send(old(callbackChan), test, room) && results == old(results) + 1
    {
      Bcast(test);
      Callback(test);
      results := results + 1;
    }

    method OnAbort(test: string)
      modifies this
      ensures waiting == R.Broadcast(old(waiting) - {test}, test, room)
      ensures callbackChan == R.Send(old(callbackChan), test, room) && results == old(results) + 1
    {
      waiting := waiting - {test};
      Bcast(test);
      Callback(test);
      results := results + 1;
    }

    method OnReady(test: string) returns (job: string)
      modifies this`waiting
      ensures job == test && waiting == old(waiting) - {test}
    {
      waiting := waiting - {test};
      job := test;
    }
  }

  /** A waiter takes the first message from its channel. */
  method TakeMessage(loop: MainLoop, test: string) returns (finished: string)
    requires test in loop.waiting && |loop.waiting[test]| > 0
    modifies loop`waiting
    ensures finished == old(loop.waiting)[test][0]
    ensures loop.waiting == old(loop.waiting)[test := old(loop.waiting)[test][1..]]
  {
    finished := loop.waiting[test][0];
    loop.waiting := loop.waiting[test := loop.waiting[test][1..]];
  }

  /** The main loop and the waiters' channels, driven through any schedule that the
      step system allows, show its state at every moment: the bodies of the select
      are its steps. */
  method Follow(c: R.Config, loop: MainLoop, labels: seq<R.Label>)
    requires R.After(c, labels).Some? && loop.Shows(c, R.Init(c))
    modifies loop
    ensures loop.Shows(c, R.After(c, labels).value)
  {
    hide R.Enabled, R.After;
    var now := R.Init(c);
    NoSteps(c, labels);
    for i := 0 to |labels|
      invariant R.After(c, labels[..i]) == Some(now) && loop.Shows(c, now)
    {
      AfterOneMore(c, labels, i);
      Take(c, loop, now, labels[i]);
      now := R.Next(c, now, labels[i]);
    }
    assert labels[..|labels|] == labels;
  }

  /** One step: what the code does for it has the effect the step has. */
  method Take(c: R.Config, loop: MainLoop, s: R.State, l: R.Label)
    requires R.Enabled(c, s, l) && loop.Shows(c, s)
    modifies loop
    ensures loop.Shows(c, R.Next(c, s, l))
  {
    hide R.Broadcast, R.Send, R.Heard, R.Next, R.M.Next, R.M.Enabled;
    NextTables(c, s, l);
    match l {
      case Receive(test) =>
        var finished := TakeMessage(loop, test);
      case TakeReady(test) =>
        var job := loop.OnReady(test);
      case TakeAbort(test) =>
        loop.OnAbort(test);
      case TakeResult(test) =>
        loop.OnResult(test);
      case _ =>
    }
  }

  /** What a step does to the table, the client's channel and the count. */
  lemma NextTables(c: R.Config, s: R.State, l: R.Label)
    requires R.Enabled(c, s, l)
    ensures var s' := R.Next(c, s, l);
      match l
      case Receive(t) =>
        t in s.waiting && |s.waiting[t]| > 0
        && s'.waiting == s.waiting[t := s.waiting[t][1..]] && s'.out == s.out && s'.count == s.count
      case TakeReady(t) => s'.waiting == s.waiting - {t} && s'.out == s.out && s'.count == s.count
      case TakeAbort(t) =>
        s'.waiting == R.Broadcast(s.waiting - {t}, t, |c.deps|) && s'.out == R.Send(s.out, t, |c.deps|)
        && s'.count == s.count + 1
      case TakeResult(t) =>
        s'.waiting == R.Broadcast(s.waiting, t, |c.deps|) && s'.out == R.Send(s.out, t, |c.deps|)
        && s'.count == s.count + 1
      case _ => s'.waiting == s.waiting && s'.out == s.out && s'.count == s.count
  {
    hide R.Broadcast, R.Send, R.Heard, R.M.Next, R.M.Enabled;
  }

  lemma NoSteps(c: R.Config, labels: seq<R.Label>)
    ensures R.After(c, labels[..0]) == Some(R.Init(c))
  {
  }

  lemma {:induction false} AfterOneMore(c: R.Config, labels: seq<R.Label>, i: nat)
    requires i < |labels| && R.After(c, labels).Some?
    ensures R.After(c, labels[..i + 1]).Some? && R.After(c, labels[..i]).Some?
    ensures var s := R.After(c, labels[..i]).value;
      R.Enabled(c, s, labels[i]) && R.After(c, labels[..i + 1]).value == R.Next(c, s, labels[i])
    decreases |labels| - i
  {
    hide R.Enabled, R.Next;
    assert labels[..i + 1][..i] == labels[..i];
    if i + 1 < |labels| {
      AfterOneMore(c, labels, i + 1);
    } else {
      assert labels[..i + 1] == labels;
    }
  }

  /** A finished test as a waiter sees it. */
  datatype Message = Message(id: string, correct: bool)

  /** A waiter after the given messages: it stops reading once it needs nothing
      or has failed. */
  ghost function HeardAll(need: set<string>, messages: seq<Message>): R.Waiter {
    if messages == [] then R.Waiting(need)
    else
      var last := |messages| - 1;
      var before := HeardAll(need, messages[..last]);
      if before.Waiting? && before.need != {} then R.Heard(before.need, messages[last].id, messages[last].correct)
      else before
  }

  /** One of the first n messages says that d ended CORRECT. */
  ghost predicate HeardCorrect(messages: seq<Message>, d: string, n: nat)
    requires n <= |messages|
  {
    exists j :: 0 <= j < n && messages[j] == Message(d, true)
  }

  /** Message i says that a test ended otherwise that is needed and has not been heard of
      before. */
  ghost predicate FailsAt(need: set<string>, messages: seq<Message>, i: nat)
    requires i < |messages|
  {
    messages[i].id in need && !messages[i].correct && !HeardCorrect(messages, messages[i].id, i)
  }

  ghost function Unheard(need: set<string>, messages: seq<Message>, n: nat): set<string>
    requires n <= |messages|
  {
    set d | d in need && !HeardCorrect(messages, d, n)
  }

  /** Reading one by one comes to this: the waiter fails exactly on a message about a
      test still needed that did not end CORRECT, and otherwise needs exactly the tests
      that it has not heard of. */
  lemma {:induction false} HeardAllMeans(need: set<string>, messages: seq<Message>)
    ensures HeardAll(need, messages) ==
      if exists i :: 0 <= i < |messages| && FailsAt(need, messages, i) then R.Failed
      else R.Waiting(Unheard(need, messages, |messages|))
  {
    if messages != [] {
      var k := |messages| - 1;
      var before, m := messages[..k], messages[k];
      HeardAllMeans(need, before);
      assert forall d, n :: 0 <= n <= k ==> (HeardCorrect(before, d, n) <==> HeardCorrect(messages, d, n));
      assert forall i :: 0 <= i < k ==> (FailsAt(need, before, i) <==> FailsAt(need, messages, i));
      forall d ensures HeardCorrect(messages, d, k + 1) <==> HeardCorrect(messages, d, k) || m == Message(d, true) {
      }
      if exists i :: 0 <= i < k && FailsAt(need, before, i) {
      } else if FailsAt(need, messages, k) {
        assert m.id in Unheard(need, before, k);
      } else {
        assert Unheard(need, messages, k + 1) == Unheard(need, before, k) - if m.correct then {m.id} else {};
      }
    } else {
      assert Unheard(need, messages, 0) == need;
    }
  }

  /** The loop of waitForDeps over the messages received so far; it returns the
      waiter's state when it leaves the loop or would block on the channel. */
  method WaitForDeps(expandedDeps: set<string>, messages: seq<Message>) returns (w: R.Waiter)
    ensures w == HeardAll(expandedDeps, messages)
    ensures w == R.Failed <==> exists i :: 0 <= i < |messages| && FailsAt(expandedDeps, messages, i)
    ensures w != R.Failed ==> w == R.Waiting(Unheard(expandedDeps, messages, |messages|))
  {
    HeardAllMeans(expandedDeps, messages);
    var deps := expandedDeps;
    var i := 0;
    while |deps| > 0 && i < |messages|
      invariant 0 <= i <= |messages|
      invariant HeardAll(expandedDeps, messages[..i]) == R.Waiting(deps)
    {
      var res := messages[i];
      assert messages[..i + 1][..i] == messages[..i];
      if res.id in deps {
        if res.correct {
          deps := deps - {res.id};
        } else {
          StaysDecided(expandedDeps, messages, i + 1);
          return R.Failed;
        }
      }
      i := i + 1;
    }
    StaysDecided(expandedDeps, messages, i);
    w := R.Waiting(deps);
  }

  lemma {:induction false} StaysDecided(need: set<string>, messages: seq<Message>, i: nat)
    requires i <= |messages|
    requires var w := HeardAll(need, messages[..i]); i == |messages| || !w.Waiting? || w.need == {}
    ensures HeardAll(need, messages) == HeardAll(need, messages[..i])
    decreases |messages| - i
  {
    if i == |messages| {
      assert messages[..i] == messages;
    } else {
      assert messages[..i + 1][..i] == messages[..i];
      StaysDecided(need, messages, i + 1);
    }
  }

  /** What a waiter has read from its channel in a state of the step system. */
  ghost function MessagesRead(s: R.State, t: string): seq<Message>
    requires t in s.waiting && |s.waiting[t]| <= |s.out|
  {
    seq(|R.ReadBy(s, t)|, i requires 0 <= i < |R.ReadBy(s, t)| =>
      Message(R.ReadBy(s, t)[i], R.IsCorrect(s, R.ReadBy(s, t)[i])))
  }

  /** Whatever the schedule, a waiter of the step system stands where its loop does on
      the messages it has read. */
  lemma WaiterIsItsLoop(c: R.Config, labels: seq<R.Label>, t: string)
    requires R.Typed(c) && R.After(c, labels).Some? && t in R.After(c, labels).value.waiting
    ensures var s := R.After(c, labels).value;
      && t in c.deps && t in s.waiters && |s.waiting[t]| <= |s.out|
      && HeardAll(c.deps[t], MessagesRead(s, t)) == s.waiters[t]
  {
    hide R.Ordered, R.Decided, R.After;
    var s := R.After(c, labels).value;
    R.RunKeepsInv(c, labels);
    assert R.Good(c, s, t);
    LoopOnRead(c, s, t);
  }

  lemma LoopOnRead(c: R.Config, s: R.State, t: string)
    requires t in s.waiting && t in s.waiters && t in c.deps && s.waiters[t] != R.Gone && R.Heeded(c, s, t)
    ensures HeardAll(c.deps[t], MessagesRead(s, t)) == s.waiters[t]
  {
    var read, messages := R.ReadBy(s, t), MessagesRead(s, t);
    HeardAllMeans(c.deps[t], messages);
    if s.waiters[t] == R.Failed {
      var d :| d in c.deps[t] && d in read && !R.IsCorrect(s, d);
      var i :| 0 <= i < |read| && read[i] == d;
      assert FailsAt(c.deps[t], messages, i);
    } else {
      forall d ensures HeardCorrect(messages, d, |messages|) <==> d in read && R.IsCorrect(s, d) {
        if d in read && R.IsCorrect(s, d) {
          var i :| 0 <= i < |read| && read[i] == d;
          assert messages[i] == Message(d, true);
        }
      }
      assert Unheard(c.deps[t], messages, |messages|) == s.waiters[t].need;
    }
  }

  /** A waiter that stops needing a test has heard it end CORRECT, and one that has
      failed has heard a dependency end otherwise. */
  lemma {:induction false} ReadyMeansAllHeard(need: set<string>, messages: seq<Message>)
    ensures var w := HeardAll(need, messages);
      && (w.Waiting? ==> w.need <= need && forall d :: d in need && d !in w.need ==> Message(d, true) in messages)
      && (w == R.Failed ==> exists d :: d in need && Message(d, false) in messages)
      && w != R.Gone
  {
    if messages != [] {
      var last := |messages| - 1;
      ReadyMeansAllHeard(need, messages[..last]);
      var before := HeardAll(need, messages[..last]);
      assert forall m :: m in messages[..last] ==> m in messages;
      if before.Waiting? && before.need != {} {
        assert messages[last] == Message(messages[last].id, messages[last].correct);
        assert messages[last] in messages;
      }
    }
  }
}
