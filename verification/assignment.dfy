/** Giving a target test's points and arguments to the commands of a test. */
module Assignment {
  import opened Wrappers
  import opened Grading
  import opened TestRun
  import Arguments

  /** An entry names commands by id: the one at index (counting from 1) when index
      is positive, all of them otherwise. */
  datatype TargetCommand = TargetCommand(id: string, index: int, points: nat, args: seq<string>)

  /** partial says whether the test is scored by command; anything else a target
      file may say reads as entire. */
  datatype TargetTest = TargetTest(id: string, partial: bool, points: nat, memLeakPoints: nat,
                                   commands: seq<TargetCommand>)

  datatype ApplyError = NoSuchCommand | BadIndex | AlreadyAssigned | WrongPoints | Unassigned

  // ----- Which commands an entry is about -----

  /** The positions at which id occurs, in order. */
  function Instances(ids: seq<string>, id: string): seq<nat> {
    if ids == [] then []
    else
      var k := |ids| - 1;
      Instances(ids[..k], id) + if ids[k] == id then [k] else []
  }

  lemma {:induction false} InstancesAreOccurrences(ids: seq<string>, id: string)
    ensures forall p: nat :: p in Instances(ids, id) <==> p < |ids| && ids[p] == id
    ensures forall i, j :: 0 <= i < j < |Instances(ids, id)| ==> Instances(ids, id)[i] < Instances(ids, id)[j]
  {
    if ids != [] {
      var k := |ids| - 1;
      InstancesAreOccurrences(ids[..k], id);
      forall i | 0 <= i < |Instances(ids[..k], id)| ensures Instances(ids[..k], id)[i] < k {
        assert Instances(ids[..k], id)[i] in Instances(ids[..k], id);
      }
      forall p: nat ensures p in Instances(ids, id) <==> p < |ids| && ids[p] == id {
        assert p in Instances(ids, id) <==> p in Instances(ids[..k], id) || (p == k && ids[k] == id);
      }
    }
  }

  lemma NoInstances(ids: seq<string>, id: string)
    ensures id in ids <==> Instances(ids, id) != []
  {
    InstancesAreOccurrences(ids, id);
    if id in ids {
      var p :| 0 <= p < |ids| && ids[p] == id;
      assert p in Instances(ids, id);
    }
    if Instances(ids, id) != [] {
      assert Instances(ids, id)[0] in Instances(ids, id);
    }
  }

  /** The commands an entry covers; none when its id does not occur, or not as often
      as its index asks for. */
  function Covered(ids: seq<string>, c: TargetCommand): seq<nat> {
    var list := Instances(ids, c.id);
    if c.index <= 0 then list
    else if c.index <= |list| then [list[c.index - 1]]
    else []
  }

  /** How often id occurs before p. */
  function Earlier(ids: seq<string>, id: string, p: nat): nat
    requires p <= |ids|
  {
    if p == 0 then 0 else Earlier(ids, id, p - 1) + if ids[p - 1] == id then 1 else 0
  }

  lemma {:induction false} EarlierInPrefix(ids: seq<string>, id: string, k: nat, p: nat)
    requires p <= k <= |ids|
    ensures Earlier(ids[..k], id, p) == Earlier(ids, id, p)
  {
    if p > 0 {
      EarlierInPrefix(ids, id, k, p - 1);
    }
  }

  /** The list of occurrences has each at its number, counting from the front. */
  lemma {:induction false} InstancesAreNumbered(ids: seq<string>, id: string)
    ensures |Instances(ids, id)| == Earlier(ids, id, |ids|)
    ensures forall i :: 0 <= i < |Instances(ids, id)| ==>
      Instances(ids, id)[i] < |ids| && Earlier(ids, id, Instances(ids, id)[i]) == i
  {
    if ids != [] {
      var k := |ids| - 1;
      InstancesAreNumbered(ids[..k], id);
      EarlierInPrefix(ids, id, k, k);
      forall i | 0 <= i < |Instances(ids[..k], id)| ensures Earlier(ids, id, Instances(ids[..k], id)[i]) == i {
        EarlierInPrefix(ids, id, k, Instances(ids[..k], id)[i]);
      }
    }
  }

  /** An entry with index k > 0 covers the k-th occurrence of its id from the front and no
      other, if there is one; any other entry covers all occurrences. */
  lemma CoveredMeans(ids: seq<string>, c: TargetCommand, p: nat)
    ensures p in Covered(ids, c) <==>
      p < |ids| && ids[p] == c.id && (c.index > 0 ==> Earlier(ids, c.id, p) == c.index - 1)
    ensures c.index > 0 ==> |Covered(ids, c)| <= 1
  {
    InstancesAreOccurrences(ids, c.id);
    InstancesAreNumbered(ids, c.id);
    var list := Instances(ids, c.id);
    if p < |ids| && ids[p] == c.id {
      assert p in list;
      var i :| 0 <= i < |list| && list[i] == p;
    }
    if 0 < c.index <= |list| {
      assert list[c.index - 1] in list;
    }
  }

  lemma CoveredAreInstances(ids: seq<string>, c: TargetCommand)
    ensures forall p :: p in Covered(ids, c) ==> p < |ids| && ids[p] == c.id
    ensures forall i, j :: 0 <= i < j < |Covered(ids, c)| ==> Covered(ids, c)[i] != Covered(ids, c)[j]
  {
    InstancesAreOccurrences(ids, c.id);
    forall p | p in Covered(ids, c) ensures p in Instances(ids, c.id) {
    }
  }

  /** What each entry covers. */
  function Plan(ids: seq<string>, entries: seq<TargetCommand>): seq<seq<nat>> {
    seq(|entries|, m requires 0 <= m < |entries| => Covered(ids, entries[m]))
  }

  lemma PlanLength(ids: seq<string>, entries: seq<TargetCommand>)
    ensures |Plan(ids, entries)| == |entries|
  {
  }

  /** The points the first n entries hand out: each its own, once for each command
      it covers. */
  ghost function Worth(plan: seq<seq<nat>>, entries: seq<TargetCommand>, n: nat): nat
    requires n <= |entries| == |plan|
  {
    if n == 0 then 0 else Worth(plan, entries, n - 1) + entries[n - 1].points * |plan[n - 1]|
  }

  ghost predicate Apart(plan: seq<seq<nat>>, m: nat, n: nat)
    requires m < |plan| && n < |plan|
  {
    forall p :: p in plan[m] ==> p !in plan[n]
  }

  ghost predicate AllApart(plan: seq<seq<nat>>, k: nat)
    requires k <= |plan|
  {
    forall m, n :: 0 <= m < n < k ==> Apart(plan, m, n)
  }

  ghost predicate Mentioned(entries: seq<TargetCommand>, id: string) {
    exists m :: 0 <= m < |entries| && entries[m].id == id
  }

  ghost predicate IsPlanned(plan: seq<seq<nat>>, p: nat) {
    exists m :: 0 <= m < |plan| && p in plan[m]
  }

  /** What a target test must satisfy: each entry finds its commands, no command is
      covered twice, each command with an id that is mentioned is covered, and under
      partial scoring the points handed out are those of the test. */
  ghost predicate Exact(ids: seq<string>, tt: TargetTest) {
    var plan := Plan(ids, tt.commands);
    && (forall m :: 0 <= m < |plan| ==> plan[m] != [])
    && AllApart(plan, |plan|)
    && (forall p :: 0 <= p < |ids| && Mentioned(tt.commands, ids[p]) ==> IsPlanned(plan, p))
    && (tt.partial ==> Worth(plan, tt.commands, |plan|) == tt.points)
  }

  // ----- Who owns which command -----

  ghost function Give(owner: map<nat, nat>, ps: seq<nat>, n: nat): map<nat, nat> {
    owner + map p | p in ps :: n
  }

  /** The last of the first n entries that covers a command, for each one covered. */
  ghost function Owner(plan: seq<seq<nat>>, n: nat): map<nat, nat>
    requires n <= |plan|
  {
    if n == 0 then map[] else Give(Owner(plan, n - 1), plan[n - 1], n - 1)
  }

  /** Entry k covers nothing that an earlier one does. */
  ghost predicate Fresh(plan: seq<seq<nat>>, k: nat)
    requires k < |plan|
  {
    forall i :: 0 <= i < |plan[k]| ==> plan[k][i] !in Owner(plan, k)
  }

  /** Each of the first n entries finds its commands, and none covers what an
      earlier one does. */
  ghost predicate Passes(plan: seq<seq<nat>>, n: nat)
    requires n <= |plan|
  {
    if n == 0 then true else Passes(plan, n - 1) && plan[n - 1] != [] && Fresh(plan, n - 1)
  }

  lemma {:induction false} OwnerIsPlanned(plan: seq<seq<nat>>, n: nat)
    requires n <= |plan|
    ensures forall p :: p in Owner(plan, n) ==> Owner(plan, n)[p] < n && p in plan[Owner(plan, n)[p]]
    ensures forall m, p :: 0 <= m < n && p in plan[m] ==> p in Owner(plan, n)
  {
    if n > 0 {
      OwnerIsPlanned(plan, n - 1);
    }
  }

  lemma FreshMeans(plan: seq<seq<nat>>, k: nat)
    requires k < |plan|
    ensures Fresh(plan, k) <==> forall i :: 0 <= i < k ==> Apart(plan, i, k)
  {
    OwnerIsPlanned(plan, k);
    if Fresh(plan, k) {
      forall i | 0 <= i < k ensures Apart(plan, i, k) {
      }
    } else {
      var i :| 0 <= i < |plan[k]| && plan[k][i] in Owner(plan, k);
      assert !Apart(plan, Owner(plan, k)[plan[k][i]], k);
    }
  }

  lemma ApartMore(plan: seq<seq<nat>>, n: nat)
    requires n < |plan|
    ensures AllApart(plan, n + 1) <==> AllApart(plan, n) && forall i :: 0 <= i < n ==> Apart(plan, i, n)
  {
    if AllApart(plan, n + 1) {
      forall i, j | 0 <= i < j < n ensures Apart(plan, i, j) {
      }
    }
  }

  /** Checking entry by entry finds all there is to find. */
  lemma {:induction false} PassesMeans(plan: seq<seq<nat>>, n: nat)
    requires n <= |plan|
    ensures Passes(plan, n) <==> (forall m :: 0 <= m < n ==> plan[m] != []) && AllApart(plan, n)
  {
    if n > 0 {
      PassesMeans(plan, n - 1);
      FreshMeans(plan, n - 1);
      ApartMore(plan, n - 1);
    }
  }

  lemma {:induction false} FailurePersists(plan: seq<seq<nat>>, n: nat, m: nat)
    requires n <= m <= |plan| && !Passes(plan, n)
    ensures !Passes(plan, m)
    decreases m - n
  {
    if n < m {
      FailurePersists(plan, n, m - 1);
    }
  }

  /** What the two passes over the entries check. */
  ghost predicate Accepts(ids: seq<string>, tt: TargetTest) {
    var plan := Plan(ids, tt.commands);
    && Passes(plan, |plan|)
    && (tt.partial ==> Worth(plan, tt.commands, |plan|) == tt.points)
    && (forall p :: 0 <= p < |ids| && Mentioned(tt.commands, ids[p]) ==> p in Owner(plan, |plan|))
  }

  lemma AcceptsTheExact(ids: seq<string>, tt: TargetTest)
    ensures Accepts(ids, tt) <==> Exact(ids, tt)
  {
    var plan := Plan(ids, tt.commands);
    PassesMeans(plan, |plan|);
    OwnerIsPlanned(plan, |plan|);
    forall p: nat ensures IsPlanned(plan, p) <==> p in Owner(plan, |plan|) {
    }
  }

  /** When no command is covered twice, it belongs to the entry that covers it and
      to no other. */
  lemma OwnerIsUnique(plan: seq<seq<nat>>, m: nat, p: nat)
    requires AllApart(plan, |plan|) && m < |plan|
    ensures p in plan[m] <==> p in Owner(plan, |plan|) && Owner(plan, |plan|)[p] == m
  {
    OwnerIsPlanned(plan, |plan|);
    if p in plan[m] {
      var k := Owner(plan, |plan|)[p];
      assert k < m ==> Apart(plan, k, m);
      assert m < k ==> Apart(plan, m, k);
    }
  }

  // ----- Points and input lines of a whole test -----

  function Total(points: seq<nat>): nat {
    if points == [] then 0 else points[|points| - 1] + Total(points[..|points| - 1])
  }

  lemma {:induction false} TotalUpdate(points: seq<nat>, p: nat, v: nat)
    requires p < |points|
    ensures Total(points[p := v]) == Total(points) - points[p] + v
  {
    var k := |points| - 1;
    if p == k {
      assert points[p := v][..k] == points[..k];
    } else {
      assert points[p := v][..k] == points[..k][p := v];
      TotalUpdate(points[..k], p, v);
    }
  }

  lemma {:induction false} TotalOfNone(points: seq<nat>)
    requires AllZero(points)
    ensures Total(points) == 0
  {
    if points != [] {
      TotalOfNone(points[..|points| - 1]);
    }
  }

  ghost predicate AllZero(points: seq<nat>) {
    forall p :: 0 <= p < |points| ==> points[p] == 0
  }

  ghost function IdsOf(commands: seq<Command>): seq<string> {
    seq(|commands|, i requires 0 <= i < |commands| => commands[i].Id)
  }

  ghost function PointsOf(commands: seq<Command>): (points: seq<nat>)
    reads commands
    ensures |points| == |commands|
  {
    if commands == [] then []
    else
      var k := |commands| - 1;
      PointsOf(commands[..k]) + [commands[k].PointsAvailable]
  }

  ghost function InputsOf(commands: seq<Command>): (inputs: seq<string>)
    reads commands
    ensures |inputs| == |commands|
  {
    if commands == [] then []
    else
      var k := |commands| - 1;
      InputsOf(commands[..k]) + [commands[k].Input]
  }

  lemma {:induction false} PointsAndInputsAt(commands: seq<Command>, p: nat)
    requires p < |commands|
    ensures PointsOf(commands)[p] == commands[p].PointsAvailable && InputsOf(commands)[p] == commands[p].Input
  {
    if p < |commands| - 1 {
      PointsAndInputsAt(commands[..|commands| - 1], p);
    }
  }

  lemma PointsAndInputsAre(commands: seq<Command>, points: seq<nat>, inputs: seq<string>)
    requires |points| == |inputs| == |commands|
    requires forall k :: 0 <= k < |commands| ==>
      commands[k].PointsAvailable == points[k] && commands[k].Input == inputs[k]
    ensures PointsOf(commands) == points && InputsOf(commands) == inputs
  {
    forall k | 0 <= k < |commands| ensures PointsOf(commands)[k] == points[k] && InputsOf(commands)[k] == inputs[k] {
      PointsAndInputsAt(commands, k);
    }
  }

  /** What an entry makes of an input line. */
  function NewInput(c: TargetCommand, line: string): string {
    match Arguments.Parse(line)
    case Some(p) => if c.args == [] then line else Arguments.Rebuilt(p.prefix, p.base, c.args)
    case None => line
  }

  /** That is the line itself when the entry gives no arguments; otherwise, when base and
      arguments can be told apart again, a line with the same prefix and base and just
      these arguments. */
  lemma NewInputMeans(c: TargetCommand, line: string)
    requires Arguments.Parse(line).Some?
    ensures c.args == [] ==> NewInput(c, line) == line
    ensures var was := Arguments.Parse(line).value;
      c.args != [] ==>
        (Arguments.Parse(NewInput(c, line)) == Some(Arguments.Parsed(was.prefix, was.base, c.args)) <==>
          Arguments.Splittable([was.base] + c.args) && !(was.prefix == "" && was.base == "p"))
  {
    hide Arguments.Parse, Arguments.Splittable;
    if c.args != [] {
      Arguments.ReplacedCommandParses(line, c.args);
    }
  }

  /** The commands' points after their owners have given them theirs. */
  ghost predicate Settled(before: seq<nat>, after: seq<nat>, tt: TargetTest, owner: map<nat, nat>) {
    && |after| == |before|
    && forall p :: 0 <= p < |before| ==>
      after[p] == if tt.partial && p in owner && owner[p] < |tt.commands| then tt.commands[owner[p]].points
                  else before[p]
  }

  /** Their input lines. */
  ghost predicate Rewritten(before: seq<string>, after: seq<string>, tt: TargetTest, owner: map<nat, nat>) {
    && |after| == |before|
    && forall p :: 0 <= p < |before| ==>
      after[p] == if p in owner && owner[p] < |tt.commands| then NewInput(tt.commands[owner[p]], before[p])
                  else before[p]
  }

  lemma SettledStep(before: seq<nat>, after: seq<nat>, tt: TargetTest, owner: map<nat, nat>, p: nat, n: nat)
    requires Settled(before, after, tt, owner) && p !in owner && p < |before| && n < |tt.commands|
    ensures |after| == |before| && after[p] == before[p] && (AllZero(before) ==> after[p] == 0)
    ensures Settled(before, if tt.partial then after[p := tt.commands[n].points] else after, tt, owner[p := n])
  {
  }

  lemma RewrittenStep(before: seq<string>, after: seq<string>, tt: TargetTest, owner: map<nat, nat>, p: nat, n: nat)
    requires Rewritten(before, after, tt, owner) && p !in owner && p < |before| && n < |tt.commands|
    requires Parsable(before)
    ensures |after| == |before| && after[p] == before[p] && Arguments.Parse(after[p]).Some?
    ensures Rewritten(before, after[p := NewInput(tt.commands[n], before[p])], tt, owner[p := n])
  {
  }

  /** Every command's id is the base of its input line. */
  ghost predicate Identified(commands: seq<Command>)
    reads commands
  {
    forall k :: 0 <= k < |commands| ==>
      Arguments.Parse(commands[k].Input).Some? && Arguments.Parse(commands[k].Input).value.base == commands[k].Id
  }

  lemma IdentifiedIsParsable(commands: seq<Command>)
    requires Identified(commands)
    ensures Parsable(InputsOf(commands))
  {
    forall k | 0 <= k < |commands| ensures Arguments.Parse(InputsOf(commands)[k]).Some? {
      PointsAndInputsAt(commands, k);
    }
  }

  ghost predicate Parsable(inputs: seq<string>) {
    forall p :: 0 <= p < |inputs| ==> Arguments.Parse(inputs[p]).Some?
  }

  // ----- The list of instances of every id -----

  function Lookup(m: map<string, seq<nat>>, id: string): seq<nat> {
    if id in m then m[id] else []
  }

  ghost function Index(ids: seq<string>): map<string, seq<nat>> {
    map id | id in ids :: Instances(ids, id)
  }

  lemma IndexGives(ids: seq<string>, id: string)
    ensures Lookup(Index(ids), id) == Instances(ids, id)
  {
    NoInstances(ids, id);
  }

  lemma IndexMore(fewer: seq<string>, next: string)
    ensures Index(fewer + [next]) == Index(fewer)[next := Lookup(Index(fewer), next) + [|fewer|]]
  {
    var more, grown := Index(fewer + [next]), Index(fewer)[next := Lookup(Index(fewer), next) + [|fewer|]];
    assert more.Keys == grown.Keys;
    IndexGives(fewer, next);
    forall id | id in more ensures more[id] == grown[id] {
      assert (fewer + [next])[..|fewer|] == fewer;
    }
  }

  method InstancesById(commands: seq<Command>) returns (instances: map<string, seq<nat>>)
    ensures instances == Index(IdsOf(commands))
  {
    instances := map[];
    ghost var ids := IdsOf(commands);
    assert Index(ids[..0]) == map[];
    for k := 0 to |commands|
      invariant instances == Index(ids[..k])
    {
      assert ids[..k + 1] == ids[..k] + [ids[k]];
      IndexMore(ids[..k], ids[k]);
      instances := instances[commands[k].Id := Lookup(instances, commands[k].Id) + [k]];
    }
    assert ids[..|commands|] == ids;
  }

  /** The instances an entry covers. */
  method Locate(c: TargetCommand, instances: map<string, seq<nat>>, ghost ids: seq<string>)
    returns (r: Result<seq<nat>, ApplyError>)
    requires instances == Index(ids)
    ensures r.Ok? <==> Covered(ids, c) != []
    ensures r.Ok? ==> r.value == Covered(ids, c)
    ensures r.Err? ==> r.error == if c.id in ids then BadIndex else NoSuchCommand
  {
    IndexGives(ids, c.id);
    NoInstances(ids, c.id);
    if c.id !in instances {
      return Err(NoSuchCommand);
    }
    var list := instances[c.id];
    if c.index > 0 {
      if c.index > |list| {
        return Err(BadIndex);
      }
      list := [list[c.index - 1]];
    }
    return Ok(list);
  }

  // ----- The first pass -----

  /** Assigns one command. */
  method Assign(c: TargetCommand, partial: bool, command: Command)
    requires Arguments.Parse(command.Input).Some?
    modifies command`PointsAvailable, command`Input
    ensures command.PointsAvailable == if partial then c.points else old(command.PointsAvailable)
    ensures command.Input == NewInput(c, old(command.Input))
  {
    if |c.args| > 0 {
      var line := Arguments.ReplaceArgs(command.Input, c.args);
      command.Input := line.value;
    }
    if partial {
      command.PointsAvailable := c.points;
    }
  }

  lemma OthersDiffer(commands: seq<Command>, p: nat)
    requires Distinct(commands) && p < |commands|
    ensures forall k :: 0 <= k < |commands| && k != p ==> commands[k] != commands[p]
  {
  }

  /** Assigns one instance, not owned so far. */
  method AssignInstance(tt: TargetTest, n: nat, p: nat, commands: seq<Command>, ghost owner: map<nat, nat>,
                        ghost points: seq<nat>, ghost inputs: seq<string>)
    requires n < |tt.commands| && Distinct(commands) && p < |commands| && p !in owner
    requires |inputs| == |points| == |commands| && Parsable(inputs)
    requires Settled(points, PointsOf(commands), tt, owner) && Rewritten(inputs, InputsOf(commands), tt, owner)
    modifies commands`PointsAvailable, commands`Input
    ensures Settled(points, PointsOf(commands), tt, owner[p := n])
      && Rewritten(inputs, InputsOf(commands), tt, owner[p := n])
    ensures tt.partial && AllZero(points) ==>
      Total(PointsOf(commands)) == old(Total(PointsOf(commands))) + tt.commands[n].points
  {
    hide *;
    var c := tt.commands[n];
    ghost var before, lines := PointsOf(commands), InputsOf(commands);
    SettledStep(points, before, tt, owner, p, n);
    RewrittenStep(inputs, lines, tt, owner, p, n);
    TotalUpdate(before, p, c.points);
    forall k | 0 <= k < |commands|
      ensures commands[k].PointsAvailable == before[k] && commands[k].Input == lines[k]
    {
      PointsAndInputsAt(commands, k);
    }
    Assign(c, tt.partial, commands[p]);
    OthersDiffer(commands, p);
    PointsAndInputsAre(commands, if tt.partial then before[p := c.points] else before,
                       lines[p := NewInput(c, inputs[p])]);
  }

  lemma GiveNone(owner: map<nat, nat>, ps: seq<nat>, n: nat)
    ensures Give(owner, ps[..0], n) == owner
  {
  }

  lemma GiveStep(owner: map<nat, nat>, ps: seq<nat>, i: nat, n: nat)
    requires i < |ps|
    ensures Give(owner, ps[..i + 1], n) == Give(owner, ps[..i], n)[ps[i] := n]
  {
    assert ps[..i + 1] == ps[..i] + [ps[i]];
  }

  lemma GivenOnce(owner: map<nat, nat>, ps: seq<nat>, i: nat, n: nat)
    requires i < |ps| && forall j :: 0 <= j < i ==> ps[j] != ps[i]
    ensures ps[i] in Give(owner, ps[..i], n) <==> ps[i] in owner
  {
  }

  /** Assigns the instances an entry is about, until one turns out to be taken. */
  method AssignInstances(tt: TargetTest, n: nat, positions: seq<nat>, commands: seq<Command>,
                         sum: nat, taken: set<nat>, ghost owner: map<nat, nat>,
                         ghost points: seq<nat>, ghost inputs: seq<string>)
    returns (ok: bool, total: nat, done: set<nat>)
    requires n < |tt.commands| && Distinct(commands) && taken == owner.Keys
    requires forall i :: 0 <= i < |positions| ==> positions[i] < |commands|
    requires forall i, j :: 0 <= i < j < |positions| ==> positions[i] != positions[j]
    requires |inputs| == |points| == |commands| && Parsable(inputs)
    requires Settled(points, PointsOf(commands), tt, owner) && Rewritten(inputs, InputsOf(commands), tt, owner)
    modifies commands`PointsAvailable, commands`Input
    ensures ok <==> forall i :: 0 <= i < |positions| ==> positions[i] !in owner
    ensures ok ==> done == Give(owner, positions, n).Keys
    ensures ok ==> Settled(points, PointsOf(commands), tt, Give(owner, positions, n))
    ensures ok ==> Rewritten(inputs, InputsOf(commands), tt, Give(owner, positions, n))
    ensures ok && tt.partial ==> total == sum + tt.commands[n].points * |positions|
    ensures ok && tt.partial && AllZero(points) ==>
      Total(PointsOf(commands)) - total == old(Total(PointsOf(commands))) - sum
  {
    hide *;
    ok, total, done := true, sum, taken;
    ghost var more := owner;
    GiveNone(owner, positions, n);
    for i := 0 to |positions|
      invariant more == Give(owner, positions[..i], n) && done == more.Keys
      invariant forall j :: 0 <= j < i ==> positions[j] !in owner
      invariant Settled(points, PointsOf(commands), tt, more) && Rewritten(inputs, InputsOf(commands), tt, more)
      invariant tt.partial ==> total == sum + tt.commands[n].points * i
      invariant tt.partial && AllZero(points) ==>
        Total(PointsOf(commands)) - total == old(Total(PointsOf(commands))) - sum
    {
      var p := positions[i];
      GivenOnce(owner, positions, i, n);
      if p in done {
        return false, total, done;
      }
      done := done + {p};
      GiveStep(owner, positions, i, n);
      AssignInstance(tt, n, p, commands, more, points, inputs);
      if tt.partial {
        assert tt.commands[n].points * (i + 1) == tt.commands[n].points * i + tt.commands[n].points;
        total := total + tt.commands[n].points;
      }
      more := more[p := n];
    }
    assert positions[..|positions|] == positions;
  }

  /** The commands have what the first n entries give them, total being the points
      handed out so far. */
  ghost predicate Standing(plan: seq<seq<nat>>, tt: TargetTest, n: nat, total: nat, points: seq<nat>,
                           nowPoints: seq<nat>, inputs: seq<string>, nowInputs: seq<string>)
    requires n <= |tt.commands| == |plan|
  {
    && Settled(points, nowPoints, tt, Owner(plan, n))
    && Rewritten(inputs, nowInputs, tt, Owner(plan, n))
    && (tt.partial ==> total == Worth(plan, tt.commands, n))
    && (tt.partial && AllZero(points) ==> Total(nowPoints) == total)
  }

  lemma OwnerOfNone(plan: seq<seq<nat>>)
    ensures Owner(plan, 0) == map[] && Passes(plan, 0)
  {
  }

  lemma PassesMore(plan: seq<seq<nat>>, n: nat)
    requires n < |plan|
    ensures Passes(plan, n + 1) <==> Passes(plan, n) && plan[n] != [] && Fresh(plan, n)
  {
  }

  lemma StandingAtFirst(plan: seq<seq<nat>>, tt: TargetTest, points: seq<nat>, inputs: seq<string>)
    requires |tt.commands| == |plan|
    ensures Standing(plan, tt, 0, 0, points, points, inputs, inputs)
  {
    if AllZero(points) {
      TotalOfNone(points);
    }
  }

  /** One entry: fails exactly when it covers nothing or a command that is taken. */
  method ApplyEntry(tt: TargetTest, n: nat, instances: map<string, seq<nat>>, commands: seq<Command>, sum: nat,
                    taken: set<nat>, ghost plan: seq<seq<nat>>, ghost points: seq<nat>, ghost inputs: seq<string>)
    returns (error: Option<ApplyError>, total: nat, done: set<nat>)
    requires n < |tt.commands| && Distinct(commands) && instances == Index(IdsOf(commands))
    requires |inputs| == |points| == |commands| && Parsable(inputs)
    requires plan == Plan(IdsOf(commands), tt.commands) && taken == Owner(plan, n).Keys
    requires Standing(plan, tt, n, sum, points, PointsOf(commands), inputs, InputsOf(commands))
    modifies commands`PointsAvailable, commands`Input
    ensures error.None? <==> plan[n] != [] && Fresh(plan, n)
    ensures error.None? ==> done == Owner(plan, n + 1).Keys
    ensures error.None? ==> Standing(plan, tt, n + 1, total, points, PointsOf(commands), inputs, InputsOf(commands))
  {
    hide Arguments.Parse, Settled, Rewritten, PointsOf, InputsOf, Instances, Covered, Distinct, Parsable, AllZero,
      Total;
    ghost var ids := IdsOf(commands);
    var located := Locate(tt.commands[n], instances, ids);
    if located.Err? {
      return Some(located.error), sum, taken;
    }
    CoveredAreInstances(ids, tt.commands[n]);
    forall i | 0 <= i < |plan[n]| ensures plan[n][i] < |commands| {
      assert plan[n][i] in Covered(ids, tt.commands[n]);
    }
    var ok;
    ok, total, done := AssignInstances(tt, n, located.value, commands, sum, taken, Owner(plan, n), points, inputs);
    error := if ok then None else Some(AlreadyAssigned);
  }

  /** The first pass over the entries. */
  method ApplyEntries(tt: TargetTest, commands: seq<Command>, instances: map<string, seq<nat>>,
                      ghost plan: seq<seq<nat>>)
    returns (error: Option<ApplyError>, total: nat, done: set<nat>)
    requires Distinct(commands) && Parsable(InputsOf(commands)) && instances == Index(IdsOf(commands))
    requires plan == Plan(IdsOf(commands), tt.commands)
    modifies commands`PointsAvailable, commands`Input
    ensures error.None? <==> Passes(plan, |plan|)
    ensures error.None? ==> done == Owner(plan, |plan|).Keys
    ensures error.None? ==> Standing(plan, tt, |plan|, total, old(PointsOf(commands)), PointsOf(commands),
                                     old(InputsOf(commands)), InputsOf(commands))
  {
    PlanLength(IdsOf(commands), tt.commands);
    hide *;
    total, done := 0, {};
    ghost var points, inputs := PointsOf(commands), InputsOf(commands);
    OwnerOfNone(plan);
    StandingAtFirst(plan, tt, points, inputs);
    for n := 0 to |tt.commands|
      invariant Passes(plan, n) && done == Owner(plan, n).Keys
      invariant Standing(plan, tt, n, total, points, PointsOf(commands), inputs, InputsOf(commands))
    {
      PassesMore(plan, n);
      error, total, done := ApplyEntry(tt, n, instances, commands, total, done, plan, points, inputs);
      if error.Some? {
        FailurePersists(plan, n + 1, |plan|);
        return;
      }
    }
    error := None;
  }

  // ----- The second pass -----

  ghost predicate AllDone(ids: seq<string>, id: string, done: set<nat>) {
    forall p :: p in Instances(ids, id) ==> p in done
  }

  /** What is left of the index: of the ids struck out, all instances are done. */
  ghost predicate Remains(rest: map<string, seq<nat>>, ids: seq<string>, done: set<nat>) {
    forall id :: Lookup(rest, id) == Instances(ids, id) || (Lookup(rest, id) == [] && AllDone(ids, id, done))
  }

  method ListDone(list: seq<nat>, done: set<nat>) returns (ok: bool)
    ensures ok <==> forall p :: p in list ==> p in done
  {
    for i := 0 to |list|
      invariant forall p :: p in list[..i] ==> p in done
    {
      if list[i] !in done {
        return false;
      }
    }
    ok := true;
  }

  lemma RemainsWithout(rest: map<string, seq<nat>>, ids: seq<string>, done: set<nat>, id: string)
    requires Remains(rest, ids, done) && AllDone(ids, id, done)
    ensures Remains(rest - {id}, ids, done)
  {
    forall other
      ensures Lookup(rest - {id}, other) == Instances(ids, other)
        || (Lookup(rest - {id}, other) == [] && AllDone(ids, other, done))
    {
      assert Lookup(rest, other) == Instances(ids, other) || (Lookup(rest, other) == [] && AllDone(ids, other, done));
    }
  }

  /** Looks for an unassigned instance of a mentioned id, each id only once. */
  method AllCovered(entries: seq<TargetCommand>, instances: map<string, seq<nat>>, done: set<nat>,
                    ghost ids: seq<string>)
    returns (ok: bool)
    requires Remains(instances, ids, done)
    ensures ok <==> forall m :: 0 <= m < |entries| ==> AllDone(ids, entries[m].id, done)
  {
    var rest := instances;
    for n := 0 to |entries|
      invariant Remains(rest, ids, done)
      invariant forall m :: 0 <= m < n ==> AllDone(ids, entries[m].id, done)
    {
      var id := entries[n].id;
      var fine := ListDone(Lookup(rest, id), done);
      assert fine <==> AllDone(ids, id, done);
      if !fine {
        return false;
      }
      RemainsWithout(rest, ids, done, id);
      rest := rest - {id};
    }
    ok := true;
  }

  lemma IndexRemains(ids: seq<string>, done: set<nat>)
    ensures Remains(Index(ids), ids, done)
  {
    forall id ensures Lookup(Index(ids), id) == Instances(ids, id) {
      IndexGives(ids, id);
    }
  }

  lemma CoveredMeansOwned(ids: seq<string>, entries: seq<TargetCommand>, done: set<nat>)
    ensures (forall m :: 0 <= m < |entries| ==> AllDone(ids, entries[m].id, done))
       <==> (forall p :: 0 <= p < |ids| && Mentioned(entries, ids[p]) ==> p in done)
  {
    forall m | 0 <= m < |entries|
      ensures AllDone(ids, entries[m].id, done) <==> forall p :: 0 <= p < |ids| && ids[p] == entries[m].id ==> p in done
    {
      InstancesAreOccurrences(ids, entries[m].id);
    }
  }

  // ----- Both passes -----

  /** Each command has the points and input of the entry that owns it, the others
      are as before; on a fresh test under partial scoring the points add up. */
  ghost predicate Handed(ids: seq<string>, tt: TargetTest, points: seq<nat>, nowPoints: seq<nat>,
                         inputs: seq<string>, nowInputs: seq<string>)
  {
    && Settled(points, nowPoints, tt, Owner(Plan(ids, tt.commands), |tt.commands|))
    && Rewritten(inputs, nowInputs, tt, Owner(Plan(ids, tt.commands), |tt.commands|))
    && (tt.partial && AllZero(points) ==> Total(nowPoints) == tt.points)
  }

  method AssignPoints(tt: TargetTest, commands: seq<Command>) returns (error: Option<ApplyError>)
    requires Distinct(commands) && Parsable(InputsOf(commands))
    modifies commands`PointsAvailable, commands`Input
    ensures error.None? <==> Accepts(IdsOf(commands), tt)
    ensures error.None? ==> Handed(IdsOf(commands), tt, old(PointsOf(commands)), PointsOf(commands),
                                   old(InputsOf(commands)), InputsOf(commands))
  {
    ghost var ids := IdsOf(commands);
    var instances := InstancesById(commands);
    var total, done;
    error, total, done := ApplyEntries(tt, commands, instances, Plan(ids, tt.commands));
    if error.Some? {
      return;
    }
    if tt.partial && total != tt.points {
      return Some(WrongPoints);
    }
    IndexRemains(ids, done);
    CoveredMeansOwned(ids, tt.commands, done);
    var covered := AllCovered(tt.commands, instances, done, ids);
    if !covered {
      return Some(Unassigned);
    }
  }

  /** Maps the points of a target test onto a runnable test.  It succeeds exactly
      when the target test is exact, whatever the order of its entries. */
  method ApplyTo(tt: TargetTest, test: Test) returns (error: Option<ApplyError>)
    requires Distinct(test.Commands) && Identified(test.Commands)
    modifies test`PointsAvailable, test`ScoringMethod, test`MemLeakPoints
    modifies test.Commands`PointsAvailable, test.Commands`Input
    ensures test.PointsAvailable == tt.points && test.MemLeakPoints == tt.memLeakPoints
    ensures test.ScoringMethod == if tt.partial then Partial else Entire
    ensures error.None? <==> Exact(IdsOf(test.Commands), tt)
    ensures error.None? ==> Handed(IdsOf(test.Commands), tt, old(PointsOf(test.Commands)), PointsOf(test.Commands),
                                   old(InputsOf(test.Commands)), InputsOf(test.Commands))
  {
    hide *;
    IdentifiedIsParsable(test.Commands);
    ghost var points, inputs := PointsOf(test.Commands), InputsOf(test.Commands);
    test.PointsAvailable := tt.points;
    test.ScoringMethod := if tt.partial then Partial else Entire;
    test.MemLeakPoints := tt.memLeakPoints;
    assert PointsOf(test.Commands) == points && InputsOf(test.Commands) == inputs;
    error := AssignPoints(tt, test.Commands);
    AcceptsTheExact(IdsOf(test.Commands), tt);
  }
}
