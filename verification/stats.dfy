/** Counters of the simulator that wrap around, the statistics objects that add them
    up, and the sliding window the monitor keeps over the latest samples. */
module Stats {

  const W32: nat := 0x1_0000_0000
  const W64: nat := 0x1_0000_0000_0000_0000

  datatype Field = Nsec | Kinsns | Uinsns | Udud | Idle | Irqs | Exns | Disk | Con | Emu | Net | Insns

  datatype Counters = Counters(nsec: nat, kinsns: nat, uinsns: nat, udud: nat, idle: nat, irqs: nat,
                               exns: nat, disk: nat, con: nat, emu: nat, net: nat, insns: nat)

  function Get(c: Counters, f: Field): nat {
    match f
    case Nsec => c.nsec
    case Kinsns => c.kinsns
    case Uinsns => c.uinsns
    case Udud => c.udud
    case Idle => c.idle
    case Irqs => c.irqs
    case Exns => c.exns
    case Disk => c.disk
    case Con => c.con
    case Emu => c.emu
    case Net => c.net
    case Insns => c.insns
  }

  function Modulus(f: Field): nat {
    if f == Nsec then W64 else W32
  }

  /** A value as a field of that width holds it. */
  function Wrap(x: int, f: Field): nat {
    x % Modulus(f)
  }

  /** Field by field, each wrapping around at its own width. */
  function Plus(a: Counters, b: Counters): Counters {
    Counters(Wrap(a.nsec + b.nsec, Nsec), Wrap(a.kinsns + b.kinsns, Kinsns), Wrap(a.uinsns + b.uinsns, Uinsns),
             Wrap(a.udud + b.udud, Udud), Wrap(a.idle + b.idle, Idle), Wrap(a.irqs + b.irqs, Irqs),
             Wrap(a.exns + b.exns, Exns), Wrap(a.disk + b.disk, Disk), Wrap(a.con + b.con, Con),
             Wrap(a.emu + b.emu, Emu), Wrap(a.net + b.net, Net), Wrap(a.insns + b.insns, Insns))
  }

  function Minus(a: Counters, b: Counters): Counters {
    Counters(Wrap(a.nsec - b.nsec, Nsec), Wrap(a.kinsns - b.kinsns, Kinsns), Wrap(a.uinsns - b.uinsns, Uinsns),
             Wrap(a.udud - b.udud, Udud), Wrap(a.idle - b.idle, Idle), Wrap(a.irqs - b.irqs, Irqs),
             Wrap(a.exns - b.exns, Exns), Wrap(a.disk - b.disk, Disk), Wrap(a.con - b.con, Con),
             Wrap(a.emu - b.emu, Emu), Wrap(a.net - b.net, Net), Wrap(a.insns - b.insns, Insns))
  }

  lemma PlusMinusGet(a: Counters, b: Counters, f: Field)
    ensures Get(Plus(a, b), f) == Wrap(Get(a, f) + Get(b, f), f)
    ensures Get(Minus(a, b), f) == Wrap(Get(a, f) - Get(b, f), f)
  {
    hide Wrap;
  }

  const ZERO := Counters(0, 0, 0, 0, 0, 0, 0, 0, 0, 0, 0, 0)

  /** One sample: what happened between two readings. */
  datatype Sample = Sample(start: real, end: real, wallStart: real, wallEnd: real, c: Counters)

  /** A field added up over samples, without wrapping around. */
  function Sum(samples: seq<Sample>, f: Field): nat {
    if samples == [] then 0 else Sum(samples[..|samples| - 1], f) + Get(samples[|samples| - 1].c, f)
  }

  lemma SumMore(samples: seq<Sample>, s: Sample, f: Field)
    ensures Sum(samples + [s], f) == Sum(samples, f) + Get(s.c, f)
  {
    assert (samples + [s])[..|samples|] == samples;
  }

  lemma {:induction false} SumFirst(samples: seq<Sample>, f: Field)
    requires samples != []
    ensures Sum(samples, f) == Get(samples[0].c, f) + Sum(samples[1..], f)
  {
    var k := |samples| - 1;
    if k > 0 {
      SumFirst(samples[..k], f);
      assert samples[..k][1..] == samples[1..][..k - 1];
    }
  }

  // Two neighbouring time stamps may differ by this much by rounding.
  const SLACK: real := 0.00001

  class Stat {
    var initialized: bool
    var Start: real
    var End: real
    var Length: real
    var Count: nat
    var WallStart: real
    var WallEnd: real
    var WallLength: real
    var counters: Counters

    constructor ()
      ensures Holds([])
    {
      initialized, Count := false, 0;
      Start, End, Length, WallStart, WallEnd, WallLength := 0.0, 0.0, 0.0, 0.0, 0.0, 0.0;
      counters := ZERO;
    }

    /** Every counter is the sum over the samples, wrapped around. */
    ghost predicate AddsUp(samples: seq<Sample>)
      reads this
    {
      Count == |samples| % W64 && forall f: Field :: Get(counters, f) == Wrap(Sum(samples, f), f)
    }

    /** The object stands for these samples, the latest of those it ever held. */
    ghost predicate Holds(samples: seq<Sample>)
      reads this
    {
      && AddsUp(samples)
      && (samples == [] ==> !initialized)
      && (samples != [] ==> initialized && End == samples[|samples| - 1].end && Start <= samples[0].start)
    }

    method Add(j: Counters)
      modifies this`counters
      ensures forall f: Field :: Get(counters, f) == Wrap(old(Get(counters, f)) + Get(j, f), f)
    {
      hide Get, Plus;
      ghost var before := counters;
      counters := Plus(counters, j);
      forall f: Field ensures Get(counters, f) == Wrap(Get(before, f) + Get(j, f), f) {
        PlusMinusGet(before, j, f);
      }
    }

    method Sub(j: Counters)
      modifies this`counters
      ensures forall f: Field :: Get(counters, f) == Wrap(old(Get(counters, f)) - Get(j, f), f)
    {
      hide Get, Minus;
      ghost var before := counters;
      counters := Minus(counters, j);
      forall f: Field ensures Get(counters, f) == Wrap(Get(before, f) - Get(j, f), f) {
        PlusMinusGet(before, j, f);
      }
    }

    /** Takes in one more sample.  It panics exactly when the sample starts before the
        last one ended, and then changes nothing. */
    method Append(j: Sample, ghost samples: seq<Sample>) returns (panicked: bool)
      requires AddsUp(samples)
      modifies this
      ensures panicked <==> old(initialized) && old(End) - j.start > SLACK
      ensures panicked ==> AddsUp(samples) && initialized && Start == old(Start) && End == old(End)
      ensures !panicked && (old(initialized) || samples == []) ==> AddsUp(samples + [j])
      ensures !panicked ==> initialized && End == j.end && Start == if old(initialized) then old(Start) else j.start
      ensures !panicked && old(Holds(samples)) ==> Holds(samples + [j])
      ensures !panicked ==> WallEnd == j.wallEnd
      ensures !panicked ==> WallStart == if old(initialized) then old(WallStart) else j.wallStart
      ensures !panicked ==> Length == End - Start && WallLength == WallEnd - WallStart
    {
      hide Wrap, Sum, Get;
      if !initialized {
        initialized := true;
        Count := 0;
        Start := j.start;
        WallStart := j.wallStart;
      } else if End - j.start > SLACK {
        return true;
      }
      Count := (Count + 1) % W64;
      End := j.end;
      Length := End - Start;
      WallEnd := j.wallEnd;
      WallLength := WallEnd - WallStart;
      Add(j.c);
      forall f: Field ensures Get(counters, f) == Wrap(Sum(samples + [j], f), f) {
        SumMore(samples, j, f);
        AddWraps(Sum(samples, f), Get(j.c, f), f);
      }
      panicked := false;
    }

    /** Drops the first sample.  It panics exactly on an object that never held any,
        or when the sample starts before the object does. */
    method Shift(j: Sample, ghost samples: seq<Sample>) returns (panicked: bool)
      requires samples != [] && samples[0] == j && |samples| < W64 && AddsUp(samples)
      modifies this
      ensures panicked <==> !old(initialized) || old(Start) - j.start > SLACK
      ensures panicked ==> AddsUp(samples) && initialized == old(initialized) && Start == old(Start) && End == old(End)
      ensures !panicked ==> AddsUp(samples[1..]) && initialized && Start == j.end && End == old(End)
      ensures !panicked ==> WallStart == j.wallEnd && WallEnd == old(WallEnd)
      ensures !panicked ==> Length == End - Start && WallLength == WallEnd - WallStart
    {
      hide Wrap, Sum, Get;
      if !initialized {
        return true;
      }
      if Start - j.start > SLACK {
        return true;
      }
      Count := (Count - 1) % W64;
      Start := j.end;
      Length := End - Start;
      WallStart := j.wallEnd;
      WallLength := WallEnd - WallStart;
      Sub(j.c);
      forall f: Field ensures Get(counters, f) == Wrap(Sum(samples[1..], f), f) {
        SumFirst(samples, f);
        SubWraps(Sum(samples[1..], f), Get(j.c, f), f);
      }
      panicked := false;
    }
  }

  lemma AddWraps(x: nat, y: nat, f: Field)
    ensures Wrap(Wrap(x, f) + y, f) == Wrap(x + y, f)
  {
  }

  lemma SubWraps(x: nat, y: nat, f: Field)
    ensures Wrap(Wrap(y + x, f) - y, f) == Wrap(x, f)
  {
  }
}
