/** Collecting statistics while a test runs: turning cumulative readings into
    samples, recording them for the current command, and keeping the monitor's
    window over the latest ones. */
module Monitor {
  import opened Stats

  /** The numbers of a DATA line. */
  datatype Line = Line(nsec: nat, kinsns: nat, uinsns: nat, udud: nat, idle: nat, irqs: nat,
                       exns: nat, disk: nat, con: nat, emu: nat, net: nat)

  /** A number that does not fit its field is left at zero; too long a time is cut
      off at the largest one. */
  function Parsed(x: nat): nat {
    if x < W32 then x else 0
  }

  /** The number of the column named so. */
  function LineGet(l: Line, f: Field): nat {
    match f
    case Nsec => l.nsec
    case Kinsns => l.kinsns
    case Uinsns => l.uinsns
    case Udud => l.udud
    case Idle => l.idle
    case Irqs => l.irqs
    case Exns => l.exns
    case Disk => l.disk
    case Con => l.con
    case Emu => l.emu
    case Net => l.net
    case Insns => 0
  }

  function Read(l: Line): (c: Counters)
    ensures c.nsec == if l.nsec < W64 then l.nsec else W64 - 1
    ensures forall f: Field :: f != Nsec && f != Insns ==> Get(c, f) == if LineGet(l, f) < W32 then LineGet(l, f) else 0
    ensures c.insns == (c.kinsns + c.uinsns + c.idle) % W32
  {
    Counters(if l.nsec < W64 then l.nsec else W64 - 1,
             Parsed(l.kinsns), Parsed(l.uinsns), Parsed(l.udud), Parsed(l.idle),
             Parsed(l.irqs), Parsed(l.exns), Parsed(l.disk), Parsed(l.con), Parsed(l.emu), Parsed(l.net),
             Wrap(Parsed(l.kinsns) + Parsed(l.uinsns) + Parsed(l.idle), Insns))
  }

  /** Instructions are kernel and user instructions and idle cycles together. */
  ghost predicate InsnsAgree(c: Counters) {
    c.insns == (c.kinsns + c.uinsns + c.idle) % W32
  }

  /** A reading as it comes in: whether it is recorded, and the command counter then. */
  datatype Tick = Tick(reading: Counters, wall: real, record: bool, counter: nat)

  function SimTime(c: Counters): real {
    c.nsec as real / 1000000000.0
  }

  // ----- What a history of readings amounts to -----

  ghost predicate ReadingsAgree(h: seq<Tick>) {
    forall i :: 0 <= i < |h| ==> InsnsAgree(h[i].reading)
  }

  function LastReading(h: seq<Tick>): Counters {
    if h == [] then ZERO else h[|h| - 1].reading
  }

  function LastTime(h: seq<Tick>): real {
    if h == [] then 0.0 else SimTime(h[|h| - 1].reading)
  }

  function LastWall(h: seq<Tick>, wall0: real): real {
    if h == [] then wall0 else h[|h| - 1].wall
  }

  /** What happened between the last reading of h and t. */
  function SampleOf(h: seq<Tick>, wall0: real, t: Tick): Sample {
    Sample(LastTime(h), SimTime(t.reading), LastWall(h, wall0), t.wall, Minus(t.reading, LastReading(h)))
  }

  /** The command counter of the last recorded reading. */
  function LastCounter(h: seq<Tick>): int {
    if h == [] then -1
    else if h[|h| - 1].record then h[|h| - 1].counter
    else LastCounter(h[..|h| - 1])
  }

  function LastFew(samples: seq<Sample>, n: nat): seq<Sample> {
    if |samples| <= n then samples else samples[|samples| - n..]
  }

  /** The samples recorded since the command last changed, up to window of them. */
  function Cached(h: seq<Tick>, wall0: real, window: nat): seq<Sample> {
    if h == [] then []
    else
      var before, t := h[..|h| - 1], h[|h| - 1];
      if !t.record then Cached(before, wall0, window)
      else
        LastFew((if t.counter != LastCounter(before) then [] else Cached(before, wall0, window))
                + [SampleOf(before, wall0, t)], window)
  }

  /** The simulated time never goes back. */
  ghost predicate InOrder(h: seq<Tick>) {
    forall i, j :: 0 <= i < j < |h| ==> h[i].reading.nsec <= h[j].reading.nsec
  }

  ghost predicate OneAfterAnother(samples: seq<Sample>, until: real) {
    && (forall i :: 0 <= i < |samples| ==> samples[i].start <= samples[i].end <= until)
    && (forall i, j :: 0 <= i < j < |samples| ==> samples[i].end <= samples[j].start)
  }

  lemma TimeGoesOn(h: seq<Tick>, t: Tick)
    requires InOrder(h + [t])
    ensures InOrder(h) && 0.0 <= LastTime(h) <= SimTime(t.reading)
  {
    assert forall i :: 0 <= i < |h| ==> (h + [t])[i] == h[i];
    if h != [] {
      assert (h + [t])[|h| - 1].reading.nsec <= (h + [t])[|h|].reading.nsec;
    }
  }

  /** Whatever the window, the samples in it follow one another. */
  lemma {:induction false} CachedInOrder(h: seq<Tick>, wall0: real, window: nat)
    requires InOrder(h)
    ensures |Cached(h, wall0, window)| <= window && OneAfterAnother(Cached(h, wall0, window), LastTime(h))
  {
    hide InOrder, SimTime, Minus, LastCounter, LastReading, LastFew;
    if h != [] {
      var before, t := h[..|h| - 1], h[|h| - 1];
      assert h == before + [t];
      TimeGoesOn(before, t);
      CachedInOrder(before, wall0, window);
      CachedMore(before, wall0, window, t);
      var base := if t.counter != LastCounter(before) then [] else Cached(before, wall0, window);
      LastFewInOrder(base, SampleOf(before, wall0, t), LastTime(before), window);
    }
  }

  lemma LastFewInOrder(base: seq<Sample>, s: Sample, until: real, window: nat)
    requires OneAfterAnother(base, until) && until == s.start <= s.end
    ensures |LastFew(base + [s], window)| <= window && OneAfterAnother(LastFew(base + [s], window), s.end)
  {
  }

  lemma CachedMore(h: seq<Tick>, wall0: real, window: nat, t: Tick)
    ensures LastCounter(h + [t]) == if t.record then t.counter else LastCounter(h)
    ensures !t.record ==> Cached(h + [t], wall0, window) == Cached(h, wall0, window)
    ensures t.record ==>
      var base := if t.counter != LastCounter(h) then [] else Cached(h, wall0, window);
      Cached(h + [t], wall0, window) == LastFew(base + [SampleOf(h, wall0, t)], window)
  {
    assert (h + [t])[..|h|] == h;
  }

  // ----- The current command only -----

  /** Reading i was recorded, and so were none since under another command. */
  ghost predicate IsCurrent(h: seq<Tick>, i: nat)
    requires i < |h|
  {
    h[i].record && forall j :: i <= j < |h| && h[j].record ==> h[j].counter == h[i].counter
  }

  /** The samples among the first n readings that are of the current command. */
  ghost function CurrentSamples(h: seq<Tick>, wall0: real, n: nat): seq<Sample>
    requires n <= |h|
  {
    if n == 0 then []
    else CurrentSamples(h, wall0, n - 1) + if IsCurrent(h, n - 1) then [SampleOf(h[..n - 1], wall0, h[n - 1])] else []
  }

  lemma {:induction false} LastCounterIsLatest(h: seq<Tick>)
    ensures forall i :: 0 <= i < |h| && h[i].record && (forall j :: i < j < |h| ==> !h[j].record) ==>
      LastCounter(h) == h[i].counter
    ensures (forall i :: 0 <= i < |h| ==> !h[i].record) ==> LastCounter(h) == -1
  {
    if h != [] && !h[|h| - 1].record {
      LastCounterIsLatest(h[..|h| - 1]);
    }
  }

  lemma {:induction false} LatestRecorded(h: seq<Tick>, i: nat) returns (k: nat)
    requires i < |h| && h[i].record
    ensures i <= k < |h| && h[k].record && forall j :: k < j < |h| ==> !h[j].record
    decreases |h|
  {
    if h[|h| - 1].record {
      k := |h| - 1;
    } else {
      k := LatestRecorded(h[..|h| - 1], i);
    }
  }

  /** One more reading leaves the current ones current unless it is recorded under another
      command. */
  lemma CurrentMore(h: seq<Tick>, t: Tick, i: nat)
    requires i < |h|
    ensures IsCurrent(h + [t], i) <==> IsCurrent(h, i) && (t.record ==> t.counter == LastCounter(h))
  {
    var more := h + [t];
    if h[i].record {
      var k := LatestRecorded(h, i);
      LastCounterIsLatest(h);
      assert more[k] == h[k] && more[i] == h[i] && more[|h|] == t;
      if IsCurrent(more, i) {
        assert forall j :: i <= j < |h| ==> more[j] == h[j];
      }
    }
  }

  lemma {:induction false} CurrentSamplesMore(h: seq<Tick>, wall0: real, t: Tick, n: nat)
    requires n <= |h|
    ensures CurrentSamples(h + [t], wall0, n)
         == if t.record && t.counter != LastCounter(h) then [] else CurrentSamples(h, wall0, n)
  {
    hide IsCurrent, SampleOf, LastCounter;
    if n > 0 {
      CurrentSamplesMore(h, wall0, t, n - 1);
      CurrentMore(h, t, n - 1);
      assert (h + [t])[..n - 1] == h[..n - 1];
    }
  }

  lemma NewestIsCurrent(h: seq<Tick>, t: Tick)
    ensures IsCurrent(h + [t], |h|) <==> t.record
  {
  }

  lemma LastFewAgain(x: seq<Sample>, s: Sample, window: nat)
    requires window > 0
    ensures LastFew(LastFew(x, window) + [s], window) == LastFew(x + [s], window)
  {
  }

  /** The cache holds the latest samples of the current command, and no others. */
  lemma {:induction false} WindowIsOneCommand(h: seq<Tick>, wall0: real, window: nat)
    requires window > 0
    ensures Cached(h, wall0, window) == LastFew(CurrentSamples(h, wall0, |h|), window)
  {
    hide IsCurrent, SampleOf, LastCounter, LastFew;
    if h == [] {
      NoneOfNone(window);
    } else {
      var k := |h| - 1;
      var before, t := h[..k], h[k];
      assert h == before + [t];
      WindowIsOneCommand(before, wall0, window);
      CachedMore(before, wall0, window, t);
      CurrentSamplesMore(before, wall0, t, k);
      NewestIsCurrent(before, t);
      var current := CurrentSamples(h, wall0, k);
      assert CurrentSamples(h, wall0, |h|) == current + if t.record then [SampleOf(before, wall0, t)] else [];
      if !t.record {
        assert current + [] == current;
      } else if t.counter != LastCounter(before) {
        assert current == [];
      }
      LastFewAgain(CurrentSamples(before, wall0, k), SampleOf(before, wall0, t), window);
    }
  }

  lemma NoneOfNone(window: nat)
    ensures LastFew([], window) == []
  {
  }

  // ----- Telescoping -----

  /** The samples of readings a to b - 1, recorded or not. */
  function Run(h: seq<Tick>, wall0: real, a: nat, b: nat): seq<Sample>
    requires a <= b <= |h|
  {
    if a == b then [] else Run(h, wall0, a, b - 1) + [SampleOf(h[..b - 1], wall0, h[b - 1])]
  }

  lemma MinusWraps(sum: nat, x: nat, y: nat, z: nat, f: Field)
    requires Wrap(sum, f) == Wrap(y - x, f)
    ensures Wrap(sum + Wrap(z - y, f), f) == Wrap(z - x, f)
  {
    if f == Nsec {
      PlusModuloWide(sum, y - x, z - y);
    } else {
      PlusModulo(sum, y - x, z - y);
    }
  }

  /** Consecutive samples add up to the difference of the readings around them, modulo
      the width of the field. */
  lemma {:induction false} Telescopes(h: seq<Tick>, wall0: real, a: nat, b: nat, f: Field)
    requires a <= b <= |h|
    ensures Wrap(Sum(Run(h, wall0, a, b), f), f) == Wrap(Get(LastReading(h[..b]), f) - Get(LastReading(h[..a]), f), f)
  {
    hide Wrap, Get, SampleOf, LastReading, Sum;
    if a < b {
      var before, t := h[..b - 1], h[b - 1];
      Telescopes(h, wall0, a, b - 1, f);
      SumMore(Run(h, wall0, a, b - 1), SampleOf(before, wall0, t), f);
      SampleCounts(before, wall0, t, f);
      assert h[..b] == before + [t];
      MinusWraps(Sum(Run(h, wall0, a, b - 1), f), Get(LastReading(h[..a]), f), Get(LastReading(before), f),
        Get(t.reading, f), f);
    } else {
      NoSum(f);
    }
  }

  lemma SampleCounts(h: seq<Tick>, wall0: real, t: Tick, f: Field)
    ensures Get(SampleOf(h, wall0, t).c, f) == Wrap(Get(t.reading, f) - Get(LastReading(h), f), f)
    ensures LastReading(h + [t]) == t.reading
  {
    hide Get, Minus;
    PlusMinusGet(t.reading, LastReading(h), f);
  }

  lemma NoSum(f: Field)
    ensures Sum([], f) == 0 && Wrap(0, f) == 0
  {
  }

  /** The readings from a on were all recorded, under one command counter. */
  ghost predicate Unbroken(h: seq<Tick>, a: nat) {
    a < |h| && forall i :: a <= i < |h| ==> h[i].record && h[i].counter == h[a].counter
  }

  lemma {:induction false} RunLength(h: seq<Tick>, wall0: real, a: nat, b: nat)
    requires a <= b <= |h|
    ensures |Run(h, wall0, a, b)| == b - a
  {
    hide SampleOf;
    if a < b {
      RunLength(h, wall0, a, b - 1);
    }
  }

  lemma {:induction false} RunOfPrefix(h: seq<Tick>, wall0: real, a: nat, b: nat, n: nat)
    requires a <= b <= n <= |h|
    ensures Run(h[..n], wall0, a, b) == Run(h, wall0, a, b)
  {
    hide SampleOf;
    if a < b {
      RunOfPrefix(h, wall0, a, b - 1, n);
      assert h[..n][..b - 1] == h[..b - 1];
    }
  }

  lemma LastFewTwice(x: seq<Sample>, n: nat, window: nat)
    requires n <= window && n <= |x|
    ensures |LastFew(x, window)| >= n && LastFew(LastFew(x, window), n) == LastFew(x, n)
  {
  }

  lemma LastFewOfMore(x: seq<Sample>, s: Sample, m: nat, n: nat)
    requires m <= |x| && n <= m + 1
    ensures LastFew(x + [s], n) == LastFew(LastFew(x, m) + [s], n)
  {
  }

  lemma LastFewMore(x: seq<Sample>, s: Sample, m: nat, n: nat, window: nat)
    requires m <= |x| && m <= window && n <= window && n <= m + 1
    ensures |LastFew(x + [s], window)| >= n
    ensures LastFew(LastFew(x + [s], window), n) == LastFew(LastFew(x, m) + [s], n)
  {
    LastFewTwice(x + [s], n, window);
    LastFewOfMore(x, s, m, n);
  }

  lemma {:induction false} RunTail(h: seq<Tick>, wall0: real, a: nat, b: nat)
    requires a < b <= |h|
    ensures |Run(h, wall0, a, b)| == b - a && Run(h, wall0, a, b)[1..] == Run(h, wall0, a + 1, b)
  {
    hide SampleOf;
    RunLength(h, wall0, a, b);
    if a + 1 < b {
      RunTail(h, wall0, a, b - 1);
      assert Run(h, wall0, a, b)[1..] == Run(h, wall0, a, b - 1)[1..] + [SampleOf(h[..b - 1], wall0, h[b - 1])];
    }
  }

  /** After an unbroken stretch the window ends in its latest samples, one per
      reading, and if the stretch is at least as long as the window it holds just
      those. */
  lemma {:induction false} WindowIsLatest(h: seq<Tick>, wall0: real, window: nat, a: nat)
    requires window > 0 && Unbroken(h, a)
    ensures var n := if |h| - a < window then |h| - a else window;
      |Cached(h, wall0, window)| >= n && LastFew(Cached(h, wall0, window), n) == Run(h, wall0, |h| - n, |h|)
  {
    hide SampleOf, LastFew, LastCounter, Run, Cached;
    var k := |h| - 1;
    var before, t := h[..k], h[k];
    var n := if |h| - a < window then |h| - a else window;
    var s := SampleOf(before, wall0, t);
    assert h == before + [t];
    CachedMore(before, wall0, window, t);
    if k == a {
      FirstOfRun(before, wall0, window, t);
    } else {
      assert Unbroken(before, a) && before[k - 1].counter == t.counter && before[k - 1].record;
      LastCounterIs(before);
      WindowIsLatest(before, wall0, window, a);
      var m := if k - a < window then k - a else window;
      LastFewMore(Cached(before, wall0, window), s, m, n, window);
      RunGrows(h, wall0, m, n);
    }
  }

  /** The latest m samples and one more, of which the latest n are kept. */
  lemma RunGrows(h: seq<Tick>, wall0: real, m: nat, n: nat)
    requires h != [] && m < |h| && (n == m || n == m + 1)
    ensures var k := |h| - 1;
      LastFew(Run(h[..k], wall0, k - m, k) + [SampleOf(h[..k], wall0, h[k])], n) == Run(h, wall0, |h| - n, |h|)
  {
    hide SampleOf, LastFew;
    var k := |h| - 1;
    RunOfPrefix(h, wall0, k - m, k, k);
    RunTail(h, wall0, k - m, |h|);
    LastFewOfRun(Run(h, wall0, k - m, |h|), n);
  }

  lemma LastCounterIs(h: seq<Tick>)
    requires h != [] && h[|h| - 1].record
    ensures LastCounter(h) == h[|h| - 1].counter
  {
  }

  lemma LastFewOfRun(run: seq<Sample>, n: nat)
    requires n == |run| || n == |run| - 1
    ensures LastFew(run, n) == if n == |run| then run else run[1..]
  {
  }

  /** The first reading of a stretch. */
  lemma FirstOfRun(before: seq<Tick>, wall0: real, window: nat, t: Tick)
    requires window > 0 && t.record
    ensures var h := before + [t];
      |Cached(h, wall0, window)| >= 1 && LastFew(Cached(h, wall0, window), 1) == Run(h, wall0, |h| - 1, |h|)
  {
    hide SampleOf, LastCounter;
    var h := before + [t];
    CachedMore(before, wall0, window, t);
    assert h[..|before|] == before;
    assert Run(h, wall0, |before|, |before|) == [];
    assert Run(h, wall0, |before|, |h|) == [SampleOf(before, wall0, t)];
  }

  // ----- Statistics of one command -----

  ghost function Flatten(chunks: seq<seq<Sample>>): seq<Sample> {
    if chunks == [] then [] else Flatten(chunks[..|chunks| - 1]) + chunks[|chunks| - 1]
  }

  /** Recorded samples in groups: all full but the last, none empty. */
  ghost predicate Grouped(chunks: seq<seq<Sample>>, size: nat) {
    forall k :: 0 <= k < |chunks| ==> 0 < |chunks[k]| <= size && (k < |chunks| - 1 ==> |chunks[k]| == size)
  }

  class CommandStats {
    var AllStats: seq<Stat>
    var SummaryStats: Stat
    ghost var recorded: seq<Sample>
    ghost var chunks: seq<seq<Sample>>

    constructor ()
      ensures Valid(1) && recorded == [] && fresh(SummaryStats) && AllStats == []
    {
      AllStats, recorded, chunks := [], [], [];
      SummaryStats := new Stat();
    }

    /** The summary stands for all recorded samples, the list for the same samples in
        groups of the given size. */
    ghost predicate Valid(size: nat)
      reads this, AllStats, SummaryStats
    {
      && |chunks| == |AllStats| && Grouped(chunks, size) && Flatten(chunks) == recorded
      && (forall i, j :: 0 <= i < j < |AllStats| ==> AllStats[i] != AllStats[j])
      && (forall i :: 0 <= i < |AllStats| ==> AllStats[i] != SummaryStats)
      && (forall i :: 0 <= i < |AllStats| ==> AllStats[i].Holds(chunks[i]))
      && SummaryStats.Holds(recorded)
    }

    /** Valid, but for a last group that may still be empty and is not full. */
    ghost predicate Open(size: nat)
      reads this, AllStats, SummaryStats
    {
      && |chunks| == |AllStats| > 0 && Flatten(chunks) == recorded
      && Grouped(chunks[..|chunks| - 1], size) && (forall k :: 0 <= k < |chunks| - 1 ==> |chunks[k]| == size)
      && |chunks[|chunks| - 1]| < size
      && (forall i, j :: 0 <= i < j < |AllStats| ==> AllStats[i] != AllStats[j])
      && (forall i :: 0 <= i < |AllStats| ==> AllStats[i] != SummaryStats)
      && (forall i :: 0 <= i < |AllStats| ==> AllStats[i].Holds(chunks[i]))
      && SummaryStats.Holds(recorded)
    }

    /** Starts a new group when there is none or the last one is full. */
    method OpenGroup(size: nat)
      requires 0 < size < W64 && Valid(size)
      modifies this`AllStats, this`chunks
      ensures Open(size)
      ensures AllStats == old(AllStats)
        || (|AllStats| > 0 && AllStats[..|AllStats| - 1] == old(AllStats) && fresh(AllStats[|AllStats| - 1]))
      ensures AllStats == old(AllStats) ==> chunks[|chunks| - 1] != []
    {
      hide Stats.Get, Stats.Wrap, Stats.Sum, Stat.AddsUp, Flatten;
      if |AllStats| > 0 {
        CountIs(AllStats[|AllStats| - 1], chunks[|chunks| - 1]);
      }
      if |AllStats| == 0 || AllStats[|AllStats| - 1].Count == size {
        var stat := new Stat();
        FlattenNone(chunks);
        AllStats, chunks := AllStats + [stat], chunks + [[]];
        assert chunks[..|chunks| - 1] == old(chunks);
      }
    }

    /** Records one sample; panics exactly when it starts before the last recorded one
        has ended. */
    method Record(j: Sample, size: nat) returns (panicked: bool)
      requires 0 < size < W64 && Valid(size)
      modifies this`AllStats, this`recorded, this`chunks, AllStats, SummaryStats
      ensures |old(AllStats)| <= |AllStats| && old(AllStats) == AllStats[..|old(AllStats)|]
      ensures forall i :: |old(AllStats)| <= i < |AllStats| ==> fresh(AllStats[i])
      ensures panicked <==> old(recorded) != [] && old(recorded)[|old(recorded)| - 1].end - j.start > SLACK
      ensures !panicked ==> Valid(size) && recorded == old(recorded) + [j]
    {
      hide Stat.AddsUp, Stat.Holds, Flatten;
      OpenGroup(size);
      FlattenEnd(chunks);
      var k := |AllStats| - 1;
      HoldsUntil(AllStats[k], chunks[k]);
      HoldsUntil(SummaryStats, recorded);
      panicked := AllStats[k].Append(j, chunks[k]);
      if !panicked {
        FlattenMore(chunks, j);
        chunks := chunks[k := chunks[k] + [j]];
        panicked := SummaryStats.Append(j, recorded);
        recorded := recorded + [j];
      }
    }
  }

  lemma HoldsUntil(stat: Stat, samples: seq<Sample>)
    requires stat.Holds(samples)
    ensures stat.AddsUp(samples) && (stat.initialized <==> samples != [])
    ensures samples != [] ==> stat.End == samples[|samples| - 1].end
  {
  }

  lemma CountIs(stat: Stat, samples: seq<Sample>)
    requires stat.Holds(samples) && |samples| < W64
    ensures stat.Count == |samples|
  {
  }

  lemma FlattenNone(chunks: seq<seq<Sample>>)
    ensures Flatten(chunks + [[]]) == Flatten(chunks)
  {
    assert (chunks + [[]])[..|chunks|] == chunks;
  }

  lemma FlattenEnd(chunks: seq<seq<Sample>>)
    ensures chunks != [] && chunks[|chunks| - 1] != [] ==>
      var last := chunks[|chunks| - 1];
      Flatten(chunks) != [] && Flatten(chunks)[|Flatten(chunks)| - 1] == last[|last| - 1]
    ensures chunks == [] ==> Flatten(chunks) == []
  {
  }

  /** A sample put at the end of the last group. */
  lemma FlattenMore(chunks: seq<seq<Sample>>, j: Sample)
    requires chunks != []
    ensures var k := |chunks| - 1; Flatten(chunks[k := chunks[k] + [j]]) == Flatten(chunks) + [j]
  {
    var k := |chunks| - 1;
    assert chunks[k := chunks[k] + [j]][..k] == chunks[..k];
  }

  // ----- The collector -----

  lemma {:induction false} CachedFits(h: seq<Tick>, wall0: real, window: nat)
    ensures |Cached(h, wall0, window)| <= window
  {
    hide SampleOf, LastCounter;
    if h != [] {
      CachedFits(h[..|h| - 1], wall0, window);
    }
  }

  /** The object adds up the samples, and has been used if there are any. */
  ghost predicate Counts(stat: Stat, samples: seq<Sample>)
    reads stat
  {
    stat.AddsUp(samples) && (stat.initialized <==> samples != [])
  }

  ghost predicate EndsBy(samples: seq<Sample>, time: real) {
    samples != [] ==> samples[|samples| - 1].end <= time
  }

  class Collector {
    const enabled: bool
    const windowSize: nat
    const groupSize: nat
    const wall0: real
    var simStart: real
    var wallStart: real
    var lastStat: Counters
    var monitorWindow: Stat
    var monitorCache: seq<Sample>
    var lastCounter: int
    ghost var history: seq<Tick>

    constructor (monitor: bool, window: nat, group: nat, wall: real)
      requires 0 < window < W64 && 0 < group < W64
      ensures Valid() && history == [] && fresh(monitorWindow)
      ensures enabled == monitor && windowSize == window && groupSize == group
    {
      enabled, windowSize, groupSize, wall0 := monitor, window, group, wall;
      simStart, wallStart, lastStat := 0.0, wall, ZERO;
      monitorWindow := new Stat();
      monitorCache, lastCounter, history := [], -1, [];
    }

    /** The cache holds the latest samples of the current command, at most a window of
        them, and the window object their sums, at all times; its time stamps are
        right as long as time does not go back. */
    ghost predicate Watching(h: seq<Tick>)
      reads this`monitorWindow, this`monitorCache, this`lastCounter, monitorWindow
    {
      && 0 < windowSize < W64
      && lastCounter == LastCounter(h)
      && monitorCache == (if enabled then Cached(h, wall0, windowSize) else [])
      && Counts(monitorWindow, monitorCache)
      && (InOrder(h) ==> monitorWindow.Holds(monitorCache))
    }

    /** The state is what the history of readings makes it. */
    ghost predicate Valid()
      reads this, monitorWindow
    {
      && 0 < groupSize < W64
      && ReadingsAgree(history)
      && simStart == LastTime(history) && wallStart == LastWall(history, wall0) && lastStat == LastReading(history)
      && Watching(history)
    }

    /** Moves the window on to one more sample; it cannot panic on samples that follow
        one another. */
    method Slide(j: Sample, ghost ordered: bool) returns (panicked: bool)
      requires |monitorCache| <= windowSize && 0 < windowSize < W64 && Counts(monitorWindow, monitorCache)
      requires ordered ==> monitorWindow.Holds(monitorCache) && OneAfterAnother(monitorCache, j.start)
      modifies this`monitorCache, monitorWindow
      ensures ordered ==> !panicked && monitorWindow.Holds(monitorCache)
      ensures !panicked ==>
        monitorCache == LastFew(old(monitorCache) + [j], windowSize) && Counts(monitorWindow, monitorCache)
    {
      hide Stat.AddsUp;
      if |monitorCache| == windowSize {
        var head := monitorCache[0];
        ghost var before := monitorCache;
        monitorCache := monitorCache[1..];
        panicked := monitorWindow.Shift(head, before);
        if panicked {
          return;
        }
      }
      ghost var kept := monitorCache;
      monitorCache := monitorCache + [j];
      panicked := monitorWindow.Append(j, kept);
    }

    /** Makes a sample of a reading. */
    method Take(reading: Counters, wall: real) returns (stats: Sample)
      modifies this`simStart, this`wallStart, this`lastStat
      ensures stats == Sample(old(simStart), SimTime(reading), old(wallStart), wall, Minus(reading, old(lastStat)))
      ensures simStart == SimTime(reading) && wallStart == wall && lastStat == reading
    {
      hide Minus, SimTime;
      stats := Sample(simStart, SimTime(reading), wallStart, wall, reading);
      wallStart := wall;
      simStart := stats.end;
      var temp := stats.c;
      stats := stats.(c := Minus(stats.c, lastStat));
      lastStat := temp;
    }

    /** Clears the cache when the command has changed, and slides the window. */
    method Watch(stats: Sample, record: bool, counter: nat, ghost h: seq<Tick>, ghost t: Tick) returns (panicked: bool)
      requires Watching(h) && stats == SampleOf(h, wall0, t) && t.record == record && t.counter == counter
      modifies this`monitorCache, this`monitorWindow, this`lastCounter, monitorWindow
      ensures monitorWindow == old(monitorWindow) || fresh(monitorWindow)
      ensures !panicked ==> Watching(h + [t])
      ensures InOrder(h + [t]) ==> !panicked
    {
      hide Stat.AddsUp, Stat.Holds, InOrder, Cached, LastCounter, SampleOf;
      CachedMore(h, wall0, windowSize, t);
      CachedFits(h, wall0, windowSize);
      if InOrder(h + [t]) {
        TimeGoesOn(h, t);
        CachedInOrder(h, wall0, windowSize);
      }
      StartOf(h, wall0, t);
      if record && counter != lastCounter {
        monitorCache, lastCounter := [], counter;
        monitorWindow := new Stat();
        HoldsNothing(monitorWindow);
      }
      if !enabled || !record {
        return false;
      }
      panicked := Slide(stats, InOrder(h + [t]));
    }

    /** Takes in one DATA line.  With times that never go back it cannot panic. */
    method OnData(l: Line, wall: real, record: bool, counter: nat, cmd: CommandStats) returns (panicked: bool)
      requires Valid() && cmd.Valid(groupSize) && monitorWindow != cmd.SummaryStats && monitorWindow !in cmd.AllStats
      requires InOrder(history) ==> EndsBy(cmd.recorded, LastTime(history))
      modifies this, monitorWindow, cmd`AllStats, cmd`recorded, cmd`chunks, cmd.AllStats, cmd.SummaryStats
      ensures history == old(history) + [Tick(Read(l), wall, record, counter)]
      ensures InOrder(history) ==> !panicked && EndsBy(cmd.recorded, LastTime(history))
      ensures !panicked ==> Valid() && cmd.Valid(groupSize)
      ensures var t := Tick(Read(l), wall, record, counter);
        !panicked ==> cmd.recorded == old(cmd.recorded) + if record then [SampleOf(old(history), wall0, t)] else []
    {
      hide Stat.AddsUp, Stat.Holds, InOrder, Minus, SimTime, Watching, Read, CommandStats.Valid;
      ghost var h, t := history, Tick(Read(l), wall, record, counter);
      assert InsnsAgree(t.reading);
      if InOrder(h + [t]) {
        TimeGoesOn(h, t);
      }
      var stats := Take(Read(l), wall);
      history := h + [t];
      if record {
        panicked := cmd.Record(stats, groupSize);
        if panicked {
          return;
        }
      }
      panicked := Watch(stats, record, counter, h, t);
    }
  }

  lemma HoldsNothing(stat: Stat)
    requires stat.Holds([])
    ensures Counts(stat, [])
  {
  }

  lemma StartOf(h: seq<Tick>, wall0: real, t: Tick)
    ensures SampleOf(h, wall0, t).start == LastTime(h)
  {
  }

  /** Over consecutive samples each window counter is the difference of two cumulative
      readings: the latest and the one before the window, modulo the field's width. */
  lemma WindowIsDifference(m: Collector, a: nat, f: Field)
    requires m.Valid() && m.enabled && Unbroken(m.history, a)
    requires |m.history| - a >= m.windowSize
    ensures var h := m.history;
      Get(m.monitorWindow.counters, f) == Wrap(Get(LastReading(h), f) - Get(LastReading(h[..|h| - m.windowSize]), f), f)
    ensures m.monitorWindow.Count == m.windowSize
  {
    hide Get, Wrap, LastReading, Cached;
    var h := m.history;
    WindowIsLatest(h, m.wall0, m.windowSize, a);
    CachedFits(h, m.wall0, m.windowSize);
    Telescopes(h, m.wall0, |h| - m.windowSize, |h|, f);
    assert h[..|h|] == h;
  }

  // ----- The instruction count -----

  lemma ThreeModulo(a: int, b: int, c: int)
    ensures (a % W32 + b % W32 + c % W32) % W32 == (a + b + c) % W32
  {
    assert ((a + b) % W32 + c % W32) % W32 == (a + b + c) % W32;
    assert (a % W32 + b % W32) % W32 == (a + b) % W32;
  }

  lemma PlusModulo(s: int, t: int, n: int)
    requires s % W32 == t % W32
    ensures (s + n % W32) % W32 == (t + n) % W32
  {
  }

  lemma PlusModuloWide(s: int, t: int, n: int)
    requires s % W64 == t % W64
    ensures (s + n % W64) % W64 == (t + n) % W64
  {
  }

  lemma MinusModulo(m: int, n: int)
    ensures (m % W32 - n % W32) % W32 == (m - n) % W32
  {
  }

  /** The difference of two readings agrees again. */
  lemma MinusAgrees(a: Counters, b: Counters)
    requires InsnsAgree(a) && InsnsAgree(b)
    ensures InsnsAgree(Minus(a, b))
  {
    ThreeModulo(a.kinsns - b.kinsns, a.uinsns - b.uinsns, a.idle - b.idle);
    MinusModulo(a.kinsns + a.uinsns + a.idle, b.kinsns + b.uinsns + b.idle);
  }

  lemma {:induction false} SumAgrees(samples: seq<Sample>)
    requires forall i :: 0 <= i < |samples| ==> InsnsAgree(samples[i].c)
    ensures Sum(samples, Insns) % W32 == (Sum(samples, Kinsns) + Sum(samples, Uinsns) + Sum(samples, Idle)) % W32
  {
    if samples != [] {
      var k := |samples| - 1;
      SumAgrees(samples[..k]);
      var before, c := samples[..k], samples[k].c;
      assert InsnsAgree(c);
      PlusModulo(Sum(before, Insns), Sum(before, Kinsns) + Sum(before, Uinsns) + Sum(before, Idle),
        c.kinsns + c.uinsns + c.idle);
    }
  }

  /** Every cached sample is the difference of two readings, and so agrees too. */
  lemma {:induction false} CachedAgrees(h: seq<Tick>, wall0: real, window: nat)
    requires ReadingsAgree(h)
    ensures forall i :: 0 <= i < |Cached(h, wall0, window)| ==> InsnsAgree(Cached(h, wall0, window)[i].c)
  {
    hide InsnsAgree, Minus, SimTime, LastCounter;
    if h != [] {
      var before, t := h[..|h| - 1], h[|h| - 1];
      CachedAgrees(before, wall0, window);
      ZeroAgrees();
      assert InsnsAgree(t.reading) && InsnsAgree(LastReading(before));
      MinusAgrees(t.reading, LastReading(before));
    }
  }

  lemma ZeroAgrees()
    ensures InsnsAgree(ZERO)
  {
  }

  /** Whatever samples an object adds up, its instructions are the sum of its three
      parts, wrap-around included. */
  lemma SumsAgree(stat: Stat, samples: seq<Sample>)
    requires stat.AddsUp(samples) && forall i :: 0 <= i < |samples| ==> InsnsAgree(samples[i].c)
    ensures InsnsAgree(stat.counters)
  {
    SumAgrees(samples);
    var k, u, i := Sum(samples, Kinsns), Sum(samples, Uinsns), Sum(samples, Idle);
    ThreeModulo(k, u, i);
    assert Get(stat.counters, Kinsns) == k % W32 && Get(stat.counters, Uinsns) == u % W32;
    assert Get(stat.counters, Idle) == i % W32 && Get(stat.counters, Insns) == Sum(samples, Insns) % W32;
  }

  /** At all times the instructions in the window are the sum of its three parts,
      wrap-around included, whatever has been read and however it was cached. */
  lemma WindowAgrees(m: Collector)
    requires m.Valid()
    ensures InsnsAgree(m.monitorWindow.counters)
  {
    hide Cached, Stat.AddsUp, InsnsAgree;
    CachedAgrees(m.history, m.wall0, m.windowSize);
    SumsAgree(m.monitorWindow, m.monitorCache);
  }
}
