/** Grading one command: how it ended, whether its output contains what was
    expected, and how many points that earns. */
module Grading {
  import opened Arithmetic
  import opened Wrappers
  import T = Templates

  datatype CmdOpt = No | Maybe | Yes

  /** The two numbers of a PARTIAL CREDIT line; None where one does not fit an int. */
  datatype Credit = Credit(earned: Option<nat>, avail: Option<nat>)

  /** A line of output, with what the two regular expressions read from it. */
  datatype OutputLine = OutputLine(line: string, trusted: bool, keyName: string,
                                   credit: Option<Credit>, khu: Option<nat>)

  datatype Status = NotRun | RunningNow | IsCorrect | IsIncorrect

  /** What a command brings to its evaluation. */
  datatype Spec = Spec(id: string, points: nat, panic: CmdOpt, timesOut: CmdOpt, expected: seq<T.ExpectedLine>)

  /** An expected line is matched by its text; a trusted one also needs the right
      signature, unless no key of its name is known here. */
  predicate LineMatches(keys: set<string>, expected: T.ExpectedLine, actual: OutputLine) {
    && actual.line == expected.text
    && (!expected.trusted || expected.keyName !in keys || (actual.trusted && actual.keyName == expected.keyName))
  }

  // ----- Order-preserving embeddings -----

  /** at places the first k expected lines, in order, on matching lines among the
      first n actual ones. */
  ghost predicate Places(keys: set<string>, expected: seq<T.ExpectedLine>, output: seq<OutputLine>,
                         k: nat, n: nat, at: seq<nat>)
    requires k <= |expected| && n <= |output|
  {
    && |at| == k
    && (forall i :: 0 <= i < k ==> at[i] < n && LineMatches(keys, expected[i], output[at[i]]))
    && (forall i, j :: 0 <= i < j < k ==> at[i] < at[j])
  }

  ghost predicate Embeds(keys: set<string>, expected: seq<T.ExpectedLine>, output: seq<OutputLine>, k: nat, n: nat)
    requires k <= |expected| && n <= |output|
  {
    exists at :: Places(keys, expected, output, k, n, at)
  }

  /** All expected lines occur in the output, in order, extra lines allowed. */
  ghost predicate Found(keys: set<string>, expected: seq<T.ExpectedLine>, output: seq<OutputLine>) {
    Embeds(keys, expected, output, |expected|, |output|)
  }

  lemma EmbedsNone(keys: set<string>, expected: seq<T.ExpectedLine>, output: seq<OutputLine>, n: nat)
    requires n <= |output|
    ensures Embeds(keys, expected, output, 0, n)
  {
    assert Places(keys, expected, output, 0, n, []);
  }

  lemma NoneBeforeFirst(keys: set<string>, expected: seq<T.ExpectedLine>, output: seq<OutputLine>)
    ensures |expected| > 0 ==> !Embeds(keys, expected, output, 1, 0)
  {
    if |expected| > 0 {
      forall at ensures !Places(keys, expected, output, 1, 0, at) {
        assert |at| == 1 ==> at[0] >= 0;
      }
    }
  }

  lemma EmbedsLonger(keys: set<string>, expected: seq<T.ExpectedLine>, output: seq<OutputLine>, k: nat, n: nat, m: nat)
    requires k <= |expected| && n <= m <= |output| && Embeds(keys, expected, output, k, n)
    ensures Embeds(keys, expected, output, k, m)
  {
    var at :| Places(keys, expected, output, k, n, at);
    assert Places(keys, expected, output, k, m, at);
  }

  lemma EmbedsMore(keys: set<string>, expected: seq<T.ExpectedLine>, output: seq<OutputLine>, k: nat, n: nat)
    requires k < |expected| && n < |output| && Embeds(keys, expected, output, k, n)
    requires LineMatches(keys, expected[k], output[n])
    ensures Embeds(keys, expected, output, k + 1, n + 1)
  {
    var at :| Places(keys, expected, output, k, n, at);
    assert Places(keys, expected, output, k + 1, n + 1, at + [n]);
  }

  /** The last line either is not used or carries the last expected line. */
  lemma EmbedsLast(keys: set<string>, expected: seq<T.ExpectedLine>, output: seq<OutputLine>, k: nat, n: nat)
    requires 0 < k <= |expected| && n < |output| && Embeds(keys, expected, output, k, n + 1)
    ensures Embeds(keys, expected, output, k, n)
         || (Embeds(keys, expected, output, k - 1, n) && LineMatches(keys, expected[k - 1], output[n]))
  {
    var at :| Places(keys, expected, output, k, n + 1, at);
    if at[k - 1] == n {
      assert Places(keys, expected, output, k - 1, n, at[..k - 1]);
    } else {
      assert Places(keys, expected, output, k, n, at);
    }
  }

  lemma {:induction false} EmbedsFewer(keys: set<string>, expected: seq<T.ExpectedLine>, output: seq<OutputLine>,
                                       j: nat, k: nat, n: nat)
    requires j <= k <= |expected| && n <= |output| && Embeds(keys, expected, output, k, n)
    ensures Embeds(keys, expected, output, j, n)
  {
    var at :| Places(keys, expected, output, k, n, at);
    assert Places(keys, expected, output, j, n, at[..j]);
  }

  /** The one-pass greedy matcher: all expected lines are matched exactly when
      some order-preserving embedding of them into the output exists. */
  method MatchOutput(keys: set<string>, expected: seq<T.ExpectedLine>, output: seq<OutputLine>) returns (all: bool)
    ensures all <==> Found(keys, expected, output)
  {
    var expectedIndex, actualIndex := 0, 0;
    EmbedsNone(keys, expected, output, 0);
    NoneBeforeFirst(keys, expected, output);
    while actualIndex < |output| && expectedIndex < |expected|
      invariant 0 <= actualIndex <= |output| && 0 <= expectedIndex <= |expected|
      invariant Embeds(keys, expected, output, expectedIndex, actualIndex)
      invariant expectedIndex < |expected| ==> !Embeds(keys, expected, output, expectedIndex + 1, actualIndex)
    {
      var e, a := expectedIndex, actualIndex;
      if LineMatches(keys, expected[e], output[a]) {
        EmbedsMore(keys, expected, output, e, a);
        expectedIndex := expectedIndex + 1;
        if e + 1 < |expected| && Embeds(keys, expected, output, e + 2, a + 1) {
          EmbedsLast(keys, expected, output, e + 2, a);
          if Embeds(keys, expected, output, e + 2, a) {
            EmbedsFewer(keys, expected, output, e + 1, e + 2, a);
          }
          assert false;
        }
      } else {
        EmbedsLonger(keys, expected, output, e, a, a + 1);
        if Embeds(keys, expected, output, e + 1, a + 1) {
          EmbedsLast(keys, expected, output, e + 1, a);
          assert false;
        }
      }
      actualIndex := actualIndex + 1;
    }
    all := expectedIndex == |expected|;
    if all {
      EmbedsLonger(keys, expected, output, expectedIndex, actualIndex, |output|);
    } else if Found(keys, expected, output) {
      EmbedsFewer(keys, expected, output, expectedIndex + 1, |expected|, |output|);
      assert false;
    }
  }

  // ----- The verdict -----

  /** The command ended in a way its template allows. */
  predicate EndedAsAllowed(c: Spec, timedOut: bool, eof: bool) {
    && !(c.timesOut == No && timedOut)
    && !(c.panic == No && eof && !(c.timesOut != No && timedOut))
    && !(c.panic == Yes && !eof)
    && !(c.timesOut == Yes && !timedOut)
  }

  /** A line whose partial credit counts for the command. */
  predicate CreditLine(keys: set<string>, id: string, line: OutputLine) {
    (id !in keys || (line.trusted && line.keyName == id)) && line.credit.Some?
  }

  /** The only credit considered is that of the first credit line. */
  function CreditOf(keys: set<string>, id: string, output: seq<OutputLine>): (nat, nat) {
    if output == [] then (0, 0)
    else if CreditLine(keys, id, output[0]) then
      match output[0].credit.value
      case Credit(Some(earned), Some(avail)) => if earned > 0 && avail > 0 then (earned, avail) else (0, 0)
      case _ => (0, 0)
    else CreditOf(keys, id, output[1..])
  }

  /** Correct, and the points earned: all of them for the expected output, a whole
      number of them in proportion for partial credit. */
  ghost function Verdict(keys: set<string>, c: Spec, output: seq<OutputLine>, timedOut: bool, eof: bool): (bool, nat) {
    var (earned, avail) := CreditOf(keys, c.id, output);
    if !EndedAsAllowed(c, timedOut, eof) then (false, 0)
    else if Found(keys, c.expected, output) then (true, c.points)
    else if avail == 0 then (false, 0)
    else (earned == avail, c.points * earned / avail)
  }

  /** A correct command earns exactly its points, whichever way it became correct. */
  lemma CorrectEarnsAll(keys: set<string>, c: Spec, output: seq<OutputLine>, timedOut: bool, eof: bool)
    requires Verdict(keys, c, output, timedOut, eof).0
    ensures Verdict(keys, c, output, timedOut, eof).1 == c.points
  {
    var (earned, avail) := CreditOf(keys, c.id, output);
    if avail > 0 {
      DivideProduct(c.points, avail);
    }
  }

  /** When a command is correct: it ended as allowed, and printed what was expected
      or claimed full credit on its first credit line. */
  lemma CorrectExactlyWhen(keys: set<string>, c: Spec, output: seq<OutputLine>, timedOut: bool, eof: bool)
    ensures Verdict(keys, c, output, timedOut, eof).0 <==>
      && EndedAsAllowed(c, timedOut, eof)
      && (Found(keys, c.expected, output)
          || exists k :: 0 <= k < |output| && FullCreditAt(keys, c.id, output, k))
  {
    FullCreditIsFirst(keys, c.id, output);
    var (earned, avail) := CreditOf(keys, c.id, output);
    assert Verdict(keys, c, output, timedOut, eof).0 ==
      (EndedAsAllowed(c, timedOut, eof) && (Found(keys, c.expected, output) || (avail > 0 && earned == avail)));
  }

  /** How a command may end: it times out only if it may and whenever it must, panics if it
      must, and goes away only by a panic or timeout that it may have. */
  lemma AllowedEndings(c: Spec, timedOut: bool, eof: bool)
    ensures EndedAsAllowed(c, timedOut, eof) <==>
      && (timedOut ==> c.timesOut == Maybe || c.timesOut == Yes) && (c.timesOut == Yes ==> timedOut)
      && (eof ==> c.panic == Maybe || c.panic == Yes || timedOut) && (c.panic == Yes ==> eof)
  {
  }

  /** A line that should be signed with a known key is matched only by a line so signed;
      any other by its text. */
  lemma LineMatchesWhen(keys: set<string>, expected: T.ExpectedLine, actual: OutputLine)
    ensures LineMatches(keys, expected, actual) <==>
      && actual.line == expected.text
      && ((expected.trusted && expected.keyName in keys) ==> (actual.trusted && actual.keyName == expected.keyName))
  {
  }

  /** The first line with a credit that is signed by the command, if its key is known. */
  ghost predicate FirstCreditAt(keys: set<string>, id: string, output: seq<OutputLine>, k: nat)
    requires k < |output|
  {
    && output[k].credit.Some? && (id in keys ==> output[k].trusted && output[k].keyName == id)
    && forall j :: 0 <= j < k && output[j].credit.Some? ==>
      id in keys && !(output[j].trusted && output[j].keyName == id)
  }

  /** The credit is that of this line if both of its numbers are positive, otherwise none. */
  lemma {:induction false} CreditIsFirst(keys: set<string>, id: string, output: seq<OutputLine>)
    ensures forall k :: 0 <= k < |output| && FirstCreditAt(keys, id, output, k) ==>
      CreditOf(keys, id, output) == match output[k].credit.value
                                    case Credit(Some(m), Some(n)) => if m > 0 && n > 0 then (m, n) else (0, 0)
                                    case _ => (0, 0)
    ensures (forall k :: 0 <= k < |output| ==> !FirstCreditAt(keys, id, output, k)) ==>
      CreditOf(keys, id, output) == (0, 0)
  {
    if output != [] {
      CreditIsFirst(keys, id, output[1..]);
      if CreditLine(keys, id, output[0]) {
        assert FirstCreditAt(keys, id, output, 0);
      } else {
        forall k | 0 <= k < |output| && FirstCreditAt(keys, id, output, k)
          ensures k > 0 && FirstCreditAt(keys, id, output[1..], k - 1)
        {
          assert forall j :: 0 <= j < k - 1 ==> output[1..][j] == output[j + 1];
        }
        forall k | 0 <= k < |output[1..]| && FirstCreditAt(keys, id, output[1..], k)
          ensures FirstCreditAt(keys, id, output, k + 1)
        {
          assert forall j :: 0 < j < k + 1 ==> output[j] == output[1..][j - 1];
        }
      }
    }
  }

  /** What an incorrect command earns: nothing unless it ended as allowed with a credit,
      and then the largest whole number of points that is not more than its share. */
  lemma PartialCredit(keys: set<string>, c: Spec, output: seq<OutputLine>, timedOut: bool, eof: bool)
    requires !Verdict(keys, c, output, timedOut, eof).0
    ensures var ((earned, avail), points) := (CreditOf(keys, c.id, output), Verdict(keys, c, output, timedOut, eof).1);
      && (!EndedAsAllowed(c, timedOut, eof) || avail == 0 ==> points == 0)
      && (EndedAsAllowed(c, timedOut, eof) && avail > 0 ==>
            points * avail <= c.points * earned < (points + 1) * avail)
      && (earned <= avail ==> points <= c.points)
  {
    var (earned, avail) := CreditOf(keys, c.id, output);
    if EndedAsAllowed(c, timedOut, eof) && avail > 0 {
      var x := c.points * earned;
      DivideBounds(x, avail);
      assert x / avail * avail <= x < (x / avail + 1) * avail;
      if earned <= avail {
        ShareIsAtMost(c.points, earned, avail, x / avail);
      }
    }
  }

  lemma ShareIsAtMost(points: nat, earned: nat, avail: nat, share: nat)
    requires earned <= avail && avail > 0 && share * avail <= points * earned
    ensures share <= points
  {
    assert points * (avail - earned) >= 0;
    assert avail * (points - share) == points * avail - share * avail;
    CancelFactor(avail, points - share);
  }

  /** A larger credit out of the same number never earns less. */
  lemma CreditIsMonotone(points: nat, earned: nat, more: nat, avail: nat)
    requires earned <= more && avail > 0
    ensures points * earned / avail <= points * more / avail
  {
    var x, y := points * earned, points * more;
    assert points * (more - earned) >= 0;
    DivideBounds(x, avail);
    DivideBounds(y, avail);
    assert avail * (y / avail - x / avail) == avail * (y / avail) - avail * (x / avail);
    CancelFactor(avail, y / avail - x / avail);
  }

  ghost predicate FullCreditAt(keys: set<string>, id: string, output: seq<OutputLine>, k: nat)
    requires k < |output|
  {
    && CreditLine(keys, id, output[k])
    && (forall j :: 0 <= j < k ==> !CreditLine(keys, id, output[j]))
    && exists n :: n > 0 && output[k].credit.value == Credit(Some(n), Some(n))
  }

  lemma {:induction false} FullCreditIsFirst(keys: set<string>, id: string, output: seq<OutputLine>)
    ensures var (earned, avail) := CreditOf(keys, id, output);
      (avail > 0 && earned == avail) <==> exists k :: 0 <= k < |output| && FullCreditAt(keys, id, output, k)
  {
    if output != [] {
      FullCreditIsFirst(keys, id, output[1..]);
      if CreditLine(keys, id, output[0]) {
        var (earned, avail) := CreditOf(keys, id, output);
        if avail > 0 && earned == avail {
          assert FullCreditAt(keys, id, output, 0);
        }
      } else {
        if k :| 0 <= k < |output[1..]| && FullCreditAt(keys, id, output[1..], k) {
          assert FullCreditAt(keys, id, output, k + 1);
        }
        if k :| 0 <= k < |output| && FullCreditAt(keys, id, output, k) {
          assert FullCreditAt(keys, id, output[1..], k - 1);
        }
      }
    }
  }

  class Command {
    const Id: string
    /** Whether the command has a prompt to wait for; only the last has none. */
    const HasPrompt: bool
    var Input: string
    var PointsAvailable: nat
    var PointsEarned: nat
    var Panic: CmdOpt
    var TimesOut: CmdOpt
    var ExpectedOutput: seq<T.ExpectedLine>
    var Output: seq<OutputLine>
    var TimedOut: bool
    var State: Status

    constructor (id: string, input: string, hasPrompt: bool, panic: CmdOpt, timesOut: CmdOpt,
                 expected: seq<T.ExpectedLine>)
      ensures Id == id && Input == input && HasPrompt == hasPrompt && Output == []
      ensures View() == Spec(id, 0, panic, timesOut, expected)
    {
      Input := input;
      Id, HasPrompt, Panic, TimesOut, ExpectedOutput := id, hasPrompt, panic, timesOut, expected;
      PointsAvailable, PointsEarned, Output, TimedOut, State := 0, 0, [], false, NotRun;
    }

    function View(): Spec
      reads this
    {
      Spec(Id, PointsAvailable, Panic, TimesOut, ExpectedOutput)
    }

    method Evaluate(keys: set<string>, eof: bool)
      modifies this`PointsEarned, this`State
      ensures State == IsCorrect || State == IsIncorrect
      ensures (State == IsCorrect, PointsEarned) == Verdict(keys, View(), Output, TimedOut, eof)
    {
      PointsEarned := 0;
      if TimesOut == No && TimedOut {
        State := IsIncorrect;
        return;
      } else if Panic == No && eof && !(TimesOut != No && TimedOut) {
        State := IsIncorrect;
        return;
      }
      if Panic == Yes && !eof {
        State := IsIncorrect;
        return;
      } else if TimesOut == Yes && !TimedOut {
        State := IsIncorrect;
        return;
      } else if |ExpectedOutput| == 0 {
        EmbedsNone(keys, ExpectedOutput, Output, |Output|);
        PointsEarned := PointsAvailable;
        State := IsCorrect;
        return;
      }
      var all := MatchOutput(keys, ExpectedOutput, Output);
      if all {
        State := IsCorrect;
        PointsEarned := PointsAvailable;
      } else {
        State := IsIncorrect;
        var totalEarned, totalAvail := ReadCredit(keys);
        if totalEarned > 0 && totalAvail > 0 {
          PointsEarned := PointsAvailable * totalEarned / totalAvail;
          if totalAvail == totalEarned {
            State := IsCorrect;
          }
        }
      }
    }

    /** Reads the first credit line; later ones are ignored. */
    method ReadCredit(keys: set<string>) returns (totalEarned: nat, totalAvail: nat)
      ensures (totalEarned, totalAvail) == CreditOf(keys, Id, Output)
      ensures totalEarned > 0 <==> totalAvail > 0
    {
      totalEarned, totalAvail := 0, 0;
      for k := 0 to |Output|
        invariant totalEarned == totalAvail == 0
        invariant CreditOf(keys, Id, Output) == CreditOf(keys, Id, Output[k..])
      {
        assert Output[k..][0] == Output[k] && Output[k..][1..] == Output[k + 1..];
        if CreditLine(keys, Id, Output[k]) {
          var credit := Output[k].credit.value;
          if credit.earned.Some? && credit.earned.value > 0 && credit.avail.Some? && credit.avail.value > 0 {
            totalAvail, totalEarned := totalAvail + credit.avail.value, totalEarned + credit.earned.value;
          }
          return;
        }
      }
    }
  }
}
