/**
  Model of the searches of llvm/utils/abtest.py: which files (or functions) may be taken from B
  without making the test fail. The test is an unknown function of the picked files.
 */
module AbBisect {

  type Name = string
  type File = string
  datatype Choice = Choice(name: Name, a: File, b: File)

  /** What is announced and found at one test of check_bisect. */
  datatype Step = Step(partition: seq<Name>, maxRemaining: int, passed: bool)

  function Names(choices: seq<Choice>): seq<Name> {
    seq(|choices|, i requires 0 <= i < |choices| => choices[i].name)
  }

  ghost predicate DistinctNames(choices: seq<Choice>) {
    forall i, j | 0 <= i < j < |choices| :: choices[i].name != choices[j].name
  }

  /** B for the names in the partition, A for all others. */
  ghost function Picks(choices: seq<Choice>, partition: seq<Name>): map<Name, File> {
    if choices == [] then map[]
    else
      var c := choices[|choices| - 1];
      Picks(choices[..|choices| - 1], partition)[c.name := if c.name in partition then c.b else c.a]
  }

  lemma {:induction false} PicksSameNames(choices: seq<Choice>, p: seq<Name>, q: seq<Name>)
    requires forall x :: x in p <==> x in q
    ensures Picks(choices, p) == Picks(choices, q)
  {
    if choices != [] {
      PicksSameNames(choices[..|choices| - 1], p, q);
    }
  }

  /** Taking a part of a passing partition from B passes as well. */
  ghost predicate Monotone(choices: seq<Choice>, test: map<Name, File> -> bool) {
    forall p: seq<Name>, q: seq<Name> ::
      (forall x :: x in p ==> x in q) && test(Picks(choices, q)) ==> test(Picks(choices, p))
  }

  /** The names that pass on their own. */
  ghost predicate GoodAlone(choices: seq<Choice>, test: map<Name, File> -> bool, x: Name) {
    x in Names(choices) && test(Picks(choices, [x]))
  }

  // ----------------------------------------------------------------------------- picking files

  ghost predicate IsPicked(c: Choice, partition: seq<Name>, picks: map<Name, File>) {
    c.name in picks && picks[c.name] == if c.name in partition then c.b else c.a
  }

  /** Every name is picked, and no other: from B if it is in the partition, and from A if it is not. */
  ghost predicate ArePicks(choices: seq<Choice>, partition: seq<Name>, picks: map<Name, File>) {
    picks.Keys == (set c | c in choices :: c.name) && forall k | 0 <= k < |choices| :: IsPicked(choices[k], partition, picks)
  }

  /** all_a and picks are dictionaries built by loops over the choices. */
  method BuildPicks(choices: seq<Choice>, partition: seq<Name>) returns (picks: map<Name, File>)
    requires DistinctNames(choices) && forall x | x in partition :: x in Names(choices)
    ensures picks == Picks(choices, partition) && ArePicks(choices, partition, picks)
  {
    hide ArePicks;
    picks := map[];
    var choiceMap: map<Name, File> := map[];
    for i := 0 to |choices|
      invariant picks == Picks(choices[..i], [])
      invariant forall k | 0 <= k < i :: choices[k].name in choiceMap && choiceMap[choices[k].name] == choices[k].b
    {
      assert choices[..i + 1][..i] == choices[..i];
      picks := picks[choices[i].name := choices[i].a];
      choiceMap := choiceMap[choices[i].name := choices[i].b];
    }
    assert choices[..|choices|] == choices;
    for i := 0 to |partition|
      invariant picks == Picks(choices, partition[..i])
    {
      assert partition[i] in partition;
      var x := partition[i];
      assert x in Names(choices);
      ghost var k :| 0 <= k < |choices| && choices[k].name == x;
      PicksOneMore(choices, partition[..i], k);
      assert partition[..i + 1] == partition[..i] + [x];
      picks := picks[x := choiceMap[x]];
    }
    assert partition[..|partition|] == partition;
    PicksArePicks(choices, partition);
  }

  lemma {:induction false} PickedNames(choices: seq<Choice>, partition: seq<Name>)
    ensures Picks(choices, partition).Keys == set c | c in choices :: c.name
  {
    if choices != [] {
      PickedNames(choices[..|choices| - 1], partition);
      assert choices == choices[..|choices| - 1] + [choices[|choices| - 1]];
    }
  }

  lemma {:induction false} PickedAt(choices: seq<Choice>, partition: seq<Name>, k: nat)
    requires DistinctNames(choices) && k < |choices|
    ensures IsPicked(choices[k], partition, Picks(choices, partition))
  {
    if k < |choices| - 1 {
      PickedAt(choices[..|choices| - 1], partition, k);
    }
  }

  lemma PicksArePicks(choices: seq<Choice>, partition: seq<Name>)
    requires DistinctNames(choices)
    ensures ArePicks(choices, partition, Picks(choices, partition))
  {
    PickedNames(choices, partition);
    forall k | 0 <= k < |choices| ensures IsPicked(choices[k], partition, Picks(choices, partition)) {
      PickedAt(choices, partition, k);
    }
  }

  lemma {:induction false} PicksOneMore(choices: seq<Choice>, p: seq<Name>, k: nat)
    requires DistinctNames(choices) && k < |choices|
    ensures Picks(choices, p + [choices[k].name]) == Picks(choices, p)[choices[k].name := choices[k].b]
  {
    var n := |choices| - 1;
    var x := choices[k].name;
    if k < n {
      PicksOneMore(choices[..n], p, k);
    } else {
      PicksIrrelevant(choices[..n], p, x);
    }
  }

  lemma {:induction false} PicksIrrelevant(choices: seq<Choice>, p: seq<Name>, x: Name)
    requires forall c | c in choices :: c.name != x
    ensures Picks(choices, p + [x]) == Picks(choices, p)
  {
    if choices != [] {
      PicksIrrelevant(choices[..|choices| - 1], p, x);
      assert choices[|choices| - 1] in choices;
    }
  }

  // ------------------------------------------------------------------------ the sequential check

  method CheckSequentially(choices: seq<Choice>, test: map<Name, File> -> bool) returns (knownGood: set<Name>)
    requires DistinctNames(choices)
    ensures forall x :: x in knownGood <==> GoodAlone(choices, test, x)
  {
    knownGood := {};
    for i := 0 to |choices|
      invariant forall x :: x in knownGood <==> x in Names(choices)[..i] && test(Picks(choices, [x]))
    {
      var name := choices[i].name;
      assert name == Names(choices)[i];
      assert Names(choices)[..i + 1] == Names(choices)[..i] + [name];
      var picks := BuildPicks(choices, [name]);
      var res := test(picks);
      if res {
        knownGood := knownGood + {name};
      }
    }
    assert Names(choices)[..|choices|] == Names(choices);
  }

  // ------------------------------------------------------------------------------ the step bound

  /** The most tests still needed for the queued partitions. */
  ghost function Potential(queue: seq<seq<Name>>): int {
    if queue == [] then 0
    else Potential(queue[..|queue| - 1]) + (|queue[|queue| - 1]| - 1) * 2
  }

  lemma {:induction false} PotentialConcat(p: seq<seq<Name>>, q: seq<seq<Name>>)
    ensures Potential(p + q) == Potential(p) + Potential(q)
  {
    if q == [] {
      assert p + q == p;
    } else {
      var n := |q| - 1;
      assert (p + q)[..|p| + n] == p + q[..n];
      PotentialConcat(p, q[..n]);
    }
  }

  ghost function Weight(queue: seq<seq<Name>>): int {
    Potential(queue) + |queue|
  }

  lemma {:induction false} WeightBound(queue: seq<seq<Name>>)
    requires forall k | 0 <= k < |queue| :: |queue[k]| >= 1
    ensures Weight(queue) >= 0
  {
    if queue != [] {
      WeightBound(queue[..|queue| - 1]);
    }
  }

  /** The tests that need not be run any more because a whole partition passed. */
  ghost function Saved(s: Step): nat {
    if s.passed && |s.partition| >= 1 then (|s.partition| - 1) * 2 else 0
  }

  ghost function SavedFrom(log: seq<Step>, k: nat): nat
    requires k <= |log|
    decreases |log| - k
  {
    if k == |log| then 0 else Saved(log[k]) + SavedFrom(log, k + 1)
  }

  lemma {:induction false} SavedAppend(log: seq<Step>, s: Step, k: nat)
    requires k <= |log|
    ensures SavedFrom(log + [s], k) == SavedFrom(log, k) + Saved(s)
    decreases |log| - k
  {
    if k < |log| {
      SavedAppend(log, s, k + 1);
    }
  }

  lemma {:induction false} SavedNothing(log: seq<Step>, k: nat)
    requires k <= |log|
    ensures SavedFrom(log, k) == 0 <==> forall j | k <= j < |log| :: log[j].passed ==> |log[j].partition| <= 1
    decreases |log| - k
  {
    if k < |log| {
      SavedNothing(log, k + 1);
    }
  }

  /** Every announced maximum is the number of tests from then on, plus what was saved, plus `open`. */
  ghost predicate Accounted(log: seq<Step>, open: int) {
    forall k | 0 <= k < |log| :: log[k].maxRemaining == (|log| - k) + SavedFrom(log, k) + open
  }

  lemma AccountedAppend(log: seq<Step>, s: Step, open: int, open': int)
    requires Accounted(log, open) && s.maxRemaining == open && open == 1 + Saved(s) + open'
    ensures Accounted(log + [s], open')
  {
    forall k | 0 <= k < |log| + 1
      ensures (log + [s])[k].maxRemaining == (|log| + 1 - k) + SavedFrom(log + [s], k) + open'
    {
      SavedAppend(log, s, k);
    }
  }

  /**
    At each test the announced maximum is never exceeded by the tests still to run, the current one
    included. It is met exactly when no partition of two or more names passes from then on: a single
    name costs one test whether it passes or not.
   */
  lemma StepBound(log: seq<Step>, k: nat)
    requires Accounted(log, 0) && k < |log|
    ensures |log| - k <= log[k].maxRemaining
    ensures |log| - k == log[k].maxRemaining <==>
            forall j | k <= j < |log| :: log[j].passed ==> |log[j].partition| <= 1
  {
    SavedNothing(log, k);
  }

  // ------------------------------------------------------------- the tests, by the names and the test

  ghost predicate PassesAt(choices: seq<Choice>, test: map<Name, File> -> bool, p: seq<Name>) {
    test(Picks(choices, p))
  }

  /** The number of tests for a partition to be tested: itself and, if it fails and can be split, its halves. */
  ghost function TestsOf(choices: seq<Choice>, test: map<Name, File> -> bool, p: seq<Name>): nat
    decreases |p|
  {
    1 + if |p| <= 1 || PassesAt(choices, test, p) then 0
        else TestsOf(choices, test, p[..|p| / 2]) + TestsOf(choices, test, p[|p| / 2..])
  }

  /** The number of tests for a partition to be split; a single name is its own right half. */
  ghost function TestsBelow(choices: seq<Choice>, test: map<Name, File> -> bool, p: seq<Name>): nat {
    if |p| <= 1 then TestsOf(choices, test, p)
    else TestsOf(choices, test, p[..|p| / 2]) + TestsOf(choices, test, p[|p| / 2..])
  }

  ghost function TestsFor(choices: seq<Choice>, test: map<Name, File> -> bool, queue: seq<seq<Name>>): nat {
    if |queue| == 0 then 0
    else TestsFor(choices, test, queue[..|queue| - 1]) + TestsBelow(choices, test, queue[|queue| - 1])
  }

  lemma {:induction false} TestsForConcat(choices: seq<Choice>, test: map<Name, File> -> bool,
                                          p: seq<seq<Name>>, q: seq<seq<Name>>)
    ensures TestsFor(choices, test, p + q) == TestsFor(choices, test, p) + TestsFor(choices, test, q)
  {
    hide TestsBelow, TestsOf, PassesAt;
    if |q| == 0 {
      assert p + q == p;
    } else {
      var n := |q| - 1;
      var s := p + q;
      assert s[..|s| - 1] == p + q[..n] && s[|s| - 1] == q[n];
      assert TestsFor(choices, test, s) == TestsFor(choices, test, p + q[..n]) + TestsBelow(choices, test, q[n]);
      TestsForConcat(choices, test, p, q[..n]);
    }
  }

  lemma TestsForOne(choices: seq<Choice>, test: map<Name, File> -> bool, p: seq<Name>, queue: seq<seq<Name>>)
    ensures TestsFor(choices, test, [p] + queue) == TestsBelow(choices, test, p) + TestsFor(choices, test, queue)
    ensures TestsOf(choices, test, p) ==
              1 + if |p| <= 1 || PassesAt(choices, test, p) then 0 else TestsBelow(choices, test, p)
    ensures TestsFor(choices, test, [p]) == TestsBelow(choices, test, p) && TestsFor(choices, test, []) == 0
    ensures |queue| > 0 ==>
              TestsFor(choices, test, queue) ==
                TestsFor(choices, test, queue[..|queue| - 1]) + TestsBelow(choices, test, queue[|queue| - 1])
  {
    TestsForConcat(choices, test, [p], queue);
    assert [p][..0] == [];
  }

  lemma HalvesTests(choices: seq<Choice>, test: map<Name, File> -> bool, p: seq<Name>)
    ensures var m := |p| / 2;
            TestsBelow(choices, test, p) ==
              (if m > 0 then TestsOf(choices, test, p[..m]) else 0) + TestsOf(choices, test, p[m..])
  {
    assert |p| / 2 == 0 ==> p[|p| / 2..] == p;
  }

  /** In the halving tree of these names, all partitions of two or more names fail. */
  ghost predicate HalvesFail(choices: seq<Choice>, test: map<Name, File> -> bool, p: seq<Name>)
    decreases |p|
  {
    var m := |p| / 2;
    |p| <= 1 ||
    (!PassesAt(choices, test, p) && HalvesFail(choices, test, p[..m]) && HalvesFail(choices, test, p[m..]))
  }

  lemma {:induction false} TestsBound(choices: seq<Choice>, test: map<Name, File> -> bool, p: seq<Name>)
    requires |p| >= 1
    ensures TestsOf(choices, test, p) <= 2 * |p| - 1
    ensures TestsOf(choices, test, p) == 2 * |p| - 1 <==> HalvesFail(choices, test, p)
    decreases |p|
  {
    if |p| > 1 {
      var m := |p| / 2;
      TestsBound(choices, test, p[..m]);
      TestsBound(choices, test, p[m..]);
    }
  }

  /** The number of tests of the whole search, for two or more names: at most twice their number, less two. */
  lemma SearchBound(choices: seq<Choice>, test: map<Name, File> -> bool, p: seq<Name>)
    requires |p| >= 2
    ensures TestsBelow(choices, test, p) <= 2 * |p| - 2
    ensures TestsBelow(choices, test, p) == 2 * |p| - 2 <==>
            HalvesFail(choices, test, p[..|p| / 2]) && HalvesFail(choices, test, p[|p| / 2..])
  {
    TestsBound(choices, test, p[..|p| / 2]);
    TestsBound(choices, test, p[|p| / 2..]);
  }

  ghost function PowerOfTwo(k: nat): nat {
    if k == 0 then 1 else 2 * PowerOfTwo(k - 1)
  }

  /** A test that fails exactly when the culprit is taken from B. */
  ghost predicate FailsBecauseOf(choices: seq<Choice>, test: map<Name, File> -> bool, culprit: Name) {
    forall p: seq<Name> :: PassesAt(choices, test, p) <==> culprit !in p
  }

  lemma {:induction false} CulpritTests(choices: seq<Choice>, test: map<Name, File> -> bool, culprit: Name, p: seq<Name>, k: nat)
    requires FailsBecauseOf(choices, test, culprit) && |p| <= PowerOfTwo(k)
    requires forall i, j | 0 <= i < j < |p| :: p[i] != p[j]
    ensures TestsOf(choices, test, p) <= if culprit in p then 1 + 2 * k else 1
    decreases k
  {
    assert PassesAt(choices, test, p) <==> culprit !in p;
    if |p| > 1 && culprit in p {
      var m := |p| / 2;
      assert p == p[..m] + p[m..];
      assert culprit in p[..m] ==> culprit !in p[m..] by {
        if i :| 0 <= i < m && p[i] == culprit {
          assert forall j | m <= j < |p| :: p[j] != culprit;
        }
      }
      CulpritTests(choices, test, culprit, p[..m], k - 1);
      CulpritTests(choices, test, culprit, p[m..], k - 1);
    }
  }

  /** With a single culprit among at most 2^k names, the search needs at most 2k tests: bisection is logarithmic. */
  lemma OneCulprit(choices: seq<Choice>, test: map<Name, File> -> bool, culprit: Name, k: nat)
    requires DistinctNames(choices) && FailsBecauseOf(choices, test, culprit)
    requires culprit in Names(choices) && 2 <= |choices| <= PowerOfTwo(k)
    ensures TestsBelow(choices, test, Names(choices)) <= 2 * k
  {
    var names := Names(choices);
    CulpritTests(choices, test, culprit, names, k);
    assert !PassesAt(choices, test, names);
  }

  /**
    How the log of the search depends on the choices and the test. The maximum announced at the first
    test is reached exactly if, below the whole list, all partitions of two or more names fail.
   */
  ghost predicate IsLogFor(choices: seq<Choice>, test: map<Name, File> -> bool, log: seq<Step>) {
    var names := Names(choices);
    if |names| == 0 then log == []
    else if |names| == 1 then log == [Step(names, 1, test(Picks(choices, names)))]
    else
      && |log| == TestsBelow(choices, test, names) > 0 && log[0].maxRemaining == 2 * |names| - 2 >= |log|
      && (|log| == log[0].maxRemaining <==>
            HalvesFail(choices, test, names[..|names| / 2]) && HalvesFail(choices, test, names[|names| / 2..]))
  }

  /** Meeting the announced maximum does not take failing tests only: a single choice that passes. */
  lemma BoundMetThoughPassing(choices: seq<Choice>, test: map<Name, File> -> bool, log: seq<Step>)
    requires |choices| == 1 && IsLogFor(choices, test, log) && test(Picks(choices, Names(choices)))
    ensures |log| == 1 && log[0].maxRemaining == |log| && log[0].passed
  {
    assert |Names(choices)| == 1;
  }

  // ------------------------------------------------------------------------- the order of the tests

  /** The queue when a partition has been tested: it is split later, after all that is queued, if it fails. */
  ghost function Requeued(choices: seq<Choice>, test: map<Name, File> -> bool, p: seq<Name>, queue: seq<seq<Name>>): seq<seq<Name>> {
    if |p| > 1 && !PassesAt(choices, test, p) then [p] + queue else queue
  }

  /** What one turn tests: the halves of the partition that has been queued for longest, the left one first. */
  ghost function TurnTests(queue: seq<seq<Name>>): seq<seq<Name>> {
    if |queue| == 0 then []
    else
      var p := queue[|queue| - 1];
      if |p| <= 1 then [p] else [p[..|p| / 2], p[|p| / 2..]]
  }

  ghost function TurnQueue(choices: seq<Choice>, test: map<Name, File> -> bool, queue: seq<seq<Name>>): seq<seq<Name>> {
    if |queue| == 0 then []
    else
      var p, rest := queue[|queue| - 1], queue[..|queue| - 1];
      if |p| <= 1 then Requeued(choices, test, p, rest)
      else Requeued(choices, test, p[|p| / 2..], Requeued(choices, test, p[..|p| / 2], rest))
  }

  ghost function QueueAfter(choices: seq<Choice>, test: map<Name, File> -> bool, queue: seq<seq<Name>>, turns: nat): seq<seq<Name>> {
    if turns == 0 then queue else TurnQueue(choices, test, QueueAfter(choices, test, queue, turns - 1))
  }

  ghost function TestsAfter(choices: seq<Choice>, test: map<Name, File> -> bool, queue: seq<seq<Name>>, turns: nat): seq<seq<Name>> {
    if turns == 0 then []
    else TestsAfter(choices, test, queue, turns - 1) + TurnTests(QueueAfter(choices, test, queue, turns - 1))
  }

  ghost function Partitions(log: seq<Step>): seq<seq<Name>> {
    seq(|log|, k requires 0 <= k < |log| => log[k].partition)
  }

  /** The partitions in the log are those tested in some turns from the whole list on, until nothing is queued. */
  ghost predicate InOrder(choices: seq<Choice>, test: map<Name, File> -> bool, log: seq<Step>) {
    exists turns: nat ::
      && QueueAfter(choices, test, [Names(choices)], turns) == []
      && Partitions(log) == TestsAfter(choices, test, [Names(choices)], turns)
  }

  // --------------------------------------------------------------------------------- bisection

  function Elements(p: seq<Name>): set<Name> {
    set x | x in p
  }

  /** The names of the queued partitions. */
  ghost function Queued(queue: seq<seq<Name>>): set<Name> {
    if queue == [] then {} else Queued(queue[..|queue| - 1]) + Elements(queue[|queue| - 1])
  }

  lemma Halves(p: seq<Name>, m: nat)
    requires m <= |p|
    ensures Elements(p) == Elements(p[..m]) + Elements(p[m..])
  {
    assert p == p[..m] + p[m..];
  }

  lemma {:induction false} QueuedConcat(p: seq<seq<Name>>, q: seq<seq<Name>>)
    ensures Queued(p + q) == Queued(p) + Queued(q)
  {
    if q == [] {
      assert p + q == p;
    } else {
      var n := |q| - 1;
      assert (p + q)[..|p| + n] == p + q[..n];
      QueuedConcat(p, q[..n]);
    }
  }

  /** What taking the last partition off the queue does to its totals. */
  lemma PopLast(queue: seq<seq<Name>>)
    ensures Potential([]) == 0 && Queued([]) == {}
    ensures queue != [] ==>
              var (rest, last) := (queue[..|queue| - 1], queue[|queue| - 1]);
              && Potential(queue) == Potential(rest) + (|last| - 1) * 2
              && Queued(queue) == Queued(rest) + Elements(last)
  {
  }

  lemma PopWeight(queue: seq<seq<Name>>)
    requires |queue| > 0
    ensures Weight(queue) == Weight(queue[..|queue| - 1]) + |queue[|queue| - 1]| * 2 - 1
  {
  }

  lemma PushFront(p: seq<Name>, queue: seq<seq<Name>>)
    ensures Potential([p] + queue) == Potential(queue) + (|p| - 1) * 2
    ensures Queued([p] + queue) == Elements(p) + Queued(queue)
  {
    PotentialConcat([p], queue);
    QueuedConcat([p], queue);
    PopLast([p]);
    assert [p][..0] == [];
  }

  /** The names of the tested partitions that passed. */
  ghost function Passed(log: seq<Step>): set<Name> {
    if log == [] then {}
    else
      var last := log[|log| - 1];
      Passed(log[..|log| - 1]) + if last.passed then Elements(last.partition) else {}
  }

  lemma {:induction false} PassedMember(log: seq<Step>, x: Name)
    ensures x in Passed(log) <==> exists k :: 0 <= k < |log| && log[k].passed && x in log[k].partition
  {
    if log != [] {
      PassedMember(log[..|log| - 1], x);
    }
  }

  class Bisection {
    const choices: seq<Choice>
    const test: map<Name, File> -> bool
    var knownGood: set<Name>
    var queue: seq<seq<Name>>     // partitions_to_split
    var log: seq<Step>

    constructor (choices: seq<Choice>, test: map<Name, File> -> bool)
      ensures this.choices == choices && this.test == test
      ensures knownGood == {} && queue == [] && log == []
    {
      this.choices, this.test := choices, test;
      knownGood, queue, log := {}, [], [];
    }

    ghost predicate Known(p: seq<Name>) {
      forall x | x in p :: x in Names(choices)
    }

    /** Every logged partition consists of known names, and its result is that of the test. */
    ghost predicate Truthful(log: seq<Step>) {
      forall k | 0 <= k < |log| ::
        Known(log[k].partition) && log[k].passed == test(Picks(choices, log[k].partition))
    }

    /** Nothing is lost: x is good, still to be split off, or fails on its own. */
    ghost predicate Settled(x: Name, good: set<Name>, queue: seq<seq<Name>>) {
      x in good || x in Queued(queue) || !test(Picks(choices, [x]))
    }

    /** Only partitions of two or more names are queued for splitting. */
    ghost predicate Splittable(queue: seq<seq<Name>>) {
      forall k | 0 <= k < |queue| :: Known(queue[k]) && |queue[k]| >= 2
    }

    /** The most tests still to be run while `partition` and then `upcoming` are to be tested. */
    ghost function Open(queue: seq<seq<Name>>, upcoming: seq<Name>): int {
      Potential(queue) + if upcoming == [] then 0 else |upcoming| * 2 - 1
    }

    /** The maximum number of checks in the worst case, as announced before a test. */
    method MaxRemainingSteps(partition: seq<Name>, upcoming: seq<Name>) returns (steps: int)
      ensures steps == Open(queue, upcoming) + |partition| * 2 - 1
    {
      steps := |partition| * 2 - 1;
      if upcoming != [] {
        steps := steps + |upcoming| * 2 - 1;
      }
      for i := 0 to |queue|
        invariant steps == Open(queue[..i], upcoming) + |partition| * 2 - 1
      {
        assert queue[..i + 1][..i] == queue[..i];
        steps := steps + (|queue[i]| - 1) * 2;
      }
      assert queue[..|queue|] == queue;
    }

    lemma LogStep(log: seq<Step>, s: Step)
      requires Truthful(log) && Known(s.partition) && s.passed == test(Picks(choices, s.partition))
      ensures Truthful(log + [s])
      ensures Passed(log + [s]) == Passed(log) + if s.passed then Elements(s.partition) else {}
    {
      assert (log + [s])[..|log|] == log;
    }

    /** What testing a partition does: it is logged, and the names are good, or to be split off, or dropped. */
    ghost predicate Tested(partition: seq<Name>, upcoming: seq<Name>, good: set<Name>, before: seq<seq<Name>>,
                           log0: seq<Step>, good': set<Name>, after: seq<seq<Name>>, log1: seq<Step>)
    {
      var passed := PassesAt(choices, test, partition);
      && log1 == log0 + [Step(partition, Open(before, upcoming) + |partition| * 2 - 1, passed)]
      && after == (if |partition| > 1 && !passed then [partition] + before else before)
      && good' == good + if passed then Elements(partition) else {}
    }

    lemma TestedLog(partition: seq<Name>, upcoming: seq<Name>, good: set<Name>, before: seq<seq<Name>>,
                    log0: seq<Step>, good': set<Name>, after: seq<seq<Name>>, log1: seq<Step>)
      requires Tested(partition, upcoming, good, before, log0, good', after, log1)
      requires Known(partition) && |partition| >= 1 && Truthful(log0) && good == Passed(log0)
      requires Accounted(log0, Open(before, upcoming) + |partition| * 2 - 1)
      ensures Truthful(log1) && good' == Passed(log1) && Accounted(log1, Open(after, upcoming))
      ensures log0 < log1 && log1[|log0|].maxRemaining == Open(before, upcoming) + |partition| * 2 - 1
    {
      hide Truthful, Accounted, Passed, Open, Saved;
      var s := Step(partition, Open(before, upcoming) + |partition| * 2 - 1, PassesAt(choices, test, partition));
      OpenAfter(partition, upcoming, before, after, s);
      AccountedAppend(log0, s, s.maxRemaining, Open(after, upcoming));
      LogStep(log0, s);
    }

    lemma OpenAfter(partition: seq<Name>, upcoming: seq<Name>, before: seq<seq<Name>>, after: seq<seq<Name>>, s: Step)
      requires |partition| >= 1 && s.partition == partition
      requires after == if |partition| > 1 && !s.passed then [partition] + before else before
      ensures Open(before, upcoming) + |partition| * 2 - 1 == 1 + Saved(s) + Open(after, upcoming)
    {
      hide Potential;
      PushFront(partition, before);
    }

    lemma TestedQueue(partition: seq<Name>, upcoming: seq<Name>, good: set<Name>, before: seq<seq<Name>>,
                      log0: seq<Step>, good': set<Name>, after: seq<seq<Name>>, log1: seq<Step>)
      requires Tested(partition, upcoming, good, before, log0, good', after, log1)
      requires Known(partition) && |partition| >= 1 && Splittable(before)
      ensures Splittable(after) && Queued(before) <= Queued(after)
      ensures Weight(after) <= Weight(before) + if |partition| == 1 then 0 else |partition| * 2 - 1
      ensures |log1| + TestsFor(choices, test, after) ==
                |log0| + TestsFor(choices, test, before) + TestsOf(choices, test, partition)
    {
      hide TestsFor, TestsBelow, TestsOf, Potential, Queued, PassesAt;
      PushFront(partition, before);
      TestsForOne(choices, test, partition, before);
    }

    lemma TestedSettled(partition: seq<Name>, upcoming: seq<Name>, good: set<Name>, before: seq<seq<Name>>,
                        log0: seq<Step>, good': set<Name>, after: seq<seq<Name>>, log1: seq<Step>)
      requires Tested(partition, upcoming, good, before, log0, good', after, log1) && |partition| >= 1
      ensures forall x | Settled(x, good, before) :: Settled(x, good', after)
      ensures forall x | x in partition :: Settled(x, good', after)
    {
      hide Potential, Queued;
      PushFront(partition, before);
      if |partition| == 1 {
        assert partition == [partition[0]];
      }
    }

    /** Tests a partition; `upcoming` is the one to be tested next, if it is not empty. */
    method TestPartition(partition: seq<Name>, upcoming: seq<Name>)
      requires DistinctNames(choices) && Known(partition) && |partition| >= 1
      requires Truthful(log) && Splittable(queue) && knownGood == Passed(log)
      requires Accounted(log, Open(queue, upcoming) + |partition| * 2 - 1)
      modifies this
      ensures Tested(partition, upcoming, old(knownGood), old(queue), old(log), knownGood, queue, log)
      ensures Truthful(log) && Splittable(queue) && knownGood == Passed(log)
      ensures Accounted(log, Open(queue, upcoming))
      ensures old(log) < log && log[|old(log)|].maxRemaining == Open(old(queue), upcoming) + |partition| * 2 - 1
      ensures Queued(old(queue)) <= Queued(queue)
      ensures forall x | Settled(x, old(knownGood), old(queue)) :: Settled(x, knownGood, queue)
      ensures forall x | x in partition :: Settled(x, knownGood, queue)
      ensures Weight(queue) <= Weight(old(queue)) + if |partition| == 1 then 0 else |partition| * 2 - 1
      ensures |log| + TestsFor(choices, test, queue) ==
                |old(log)| + TestsFor(choices, test, old(queue)) + TestsOf(choices, test, partition)
    {
      hide Picks, Accounted, Open, Passed, Truthful, Splittable, Queued, TestsFor, TestsOf, Weight, Settled;
      var maxRemaining := MaxRemainingSteps(partition, upcoming);
      var picks := BuildPicks(choices, partition);
      var res := test(picks);
      log := log + [Step(partition, maxRemaining, res)];
      if res {
        knownGood := knownGood + Elements(partition);
      } else if |partition| > 1 {
        queue := [partition] + queue;
      }
      assert Tested(partition, upcoming, old(knownGood), old(queue), old(log), knownGood, queue, log);
      hide Tested, Known, PassesAt;
      TestedLog(partition, upcoming, old(knownGood), old(queue), old(log), knownGood, queue, log);
      TestedQueue(partition, upcoming, old(knownGood), old(queue), old(log), knownGood, queue, log);
      TestedSettled(partition, upcoming, old(knownGood), old(queue), old(log), knownGood, queue, log);
    }

    /** The tests to be announced before the last partition of the queue is split. */
    ghost function OpenAtSplit(queue: seq<seq<Name>>): int
      requires |queue| > 0
    {
      var last := queue[|queue| - 1];
      Potential(queue[..|queue| - 1]) + if |last| <= 1 then 1 else |last| * 2 - 2
    }

    lemma OpenWith(queue: seq<seq<Name>>, upcoming: seq<Name>)
      ensures Open(queue, []) == Potential(queue)
      ensures |upcoming| > 0 ==> Open(queue, upcoming) == Potential(queue) + |upcoming| * 2 - 1
    {
    }

    /** One turn of the loop: takes the last partition off the queue and tests its halves. */
    method SplitLast()
      requires DistinctNames(choices) && |queue| > 0 && Splittable(queue[..|queue| - 1])
      requires Known(queue[|queue| - 1]) && |queue[|queue| - 1]| >= 1
      requires Truthful(log) && knownGood == Passed(log) && Accounted(log, OpenAtSplit(queue))
      modifies this
      ensures Truthful(log) && Splittable(queue) && knownGood == Passed(log) && Accounted(log, Potential(queue))
      ensures forall x | Settled(x, old(knownGood), old(queue)) :: Settled(x, knownGood, queue)
      ensures Weight(queue) < Weight(old(queue))
      ensures |log| + TestsFor(choices, test, queue) == |old(log)| + TestsFor(choices, test, old(queue))
      ensures old(log) < log
      ensures Partitions(log) == Partitions(old(log)) + TurnTests(old(queue))
      ensures queue == TurnQueue(choices, test, old(queue))
      ensures var last := old(queue)[|old(queue)| - 1];
              log[|old(log)|].maxRemaining == OpenAtSplit(old(queue)) &&
              (|last| == 1 ==>
                 queue == old(queue)[..|old(queue)| - 1] &&
                 log == old(log) + [Step(last, OpenAtSplit(old(queue)), test(Picks(choices, last)))])
    {
      hide Picks, Potential, Queued, Truthful, Accounted, Passed, DistinctNames, TestsFor, TestsOf, TestsBelow, PassesAt;
      PopLast(queue);
      PopWeight(queue);
      var partition := queue[|queue| - 1];
      TestsForOne(choices, test, partition, queue);
      HalvesTests(choices, test, partition);
      queue := queue[..|queue| - 1];
      var middle := |partition| / 2;
      var left, right := partition[..middle], partition[middle..];
      Halves(partition, middle);
      KnownHalves(partition, middle);
      SettledSplit(knownGood, old(queue), left, right);
      OpenWith(queue, right);
      hide Open, Settled, Weight, Tested, Known, Splittable, Elements, Partitions, Requeued, TurnTests, TurnQueue;
      TurnIs(old(queue));
      if |left| > 0 {
        TestPartition(left, right);
        TestedNext(left, right, old(knownGood), old(queue)[..|old(queue)| - 1], old(log), knownGood, queue, log);
        OpenWith(queue, right);
        ghost var good, before, log0 := knownGood, queue, log;
        TestPartition(right, []);
        TestedNext(right, [], good, before, log0, knownGood, queue, log);
      } else {
        TestPartition(right, []);
        TestedNext(right, [], old(knownGood), old(queue)[..|old(queue)| - 1], old(log), knownGood, queue, log);
        SingleTested(partition, old(knownGood), old(queue)[..|old(queue)| - 1], old(log), knownGood, queue, log);
      }
      OpenWith(queue, []);
    }

    lemma KnownHalves(p: seq<Name>, m: nat)
      requires Known(p) && m <= |p|
      ensures Known(p[..m]) && Known(p[m..]) && |p[..m]| == m && |p[m..]| == |p| - m && (m == 0 ==> p[m..] == p)
    {
    }

    lemma TestedNext(partition: seq<Name>, upcoming: seq<Name>, good: set<Name>, before: seq<seq<Name>>,
                     log0: seq<Step>, good': set<Name>, after: seq<seq<Name>>, log1: seq<Step>)
      requires Tested(partition, upcoming, good, before, log0, good', after, log1)
      ensures Partitions(log1) == Partitions(log0) + [partition] && after == Requeued(choices, test, partition, before)
    {
    }

    lemma TurnIs(queue: seq<seq<Name>>)
      requires |queue| > 0 && |queue[|queue| - 1]| >= 1
      ensures var (p, rest) := (queue[|queue| - 1], queue[..|queue| - 1]);
              var m := |p| / 2;
              if m == 0 then
                TurnTests(queue) == [p[m..]] && TurnQueue(choices, test, queue) == Requeued(choices, test, p[m..], rest)
              else
                && TurnTests(queue) == [p[..m]] + [p[m..]]
                && TurnQueue(choices, test, queue) == Requeued(choices, test, p[m..], Requeued(choices, test, p[..m], rest))
    {
      var p := queue[|queue| - 1];
      assert p[0..] == p;
    }

    lemma SingleTested(partition: seq<Name>, good: set<Name>, before: seq<seq<Name>>, log0: seq<Step>,
                       good': set<Name>, after: seq<seq<Name>>, log1: seq<Step>)
      requires |partition| == 1 && Tested(partition, [], good, before, log0, good', after, log1)
      ensures after == before
      ensures log1 == log0 + [Step(partition, Potential(before) + 1, test(Picks(choices, partition)))]
    {
    }

    /** A name of the queue is still queued when its last partition is taken off, or in one of its halves. */
    lemma SettledSplit(good: set<Name>, queue: seq<seq<Name>>, left: seq<Name>, right: seq<Name>)
      requires |queue| > 0 && Elements(queue[|queue| - 1]) == Elements(left) + Elements(right)
      ensures forall x | Settled(x, good, queue) :: Settled(x, good, queue[..|queue| - 1]) || x in left || x in right
    {
      PopLast(queue);
    }

    /**
      The bisection. The good names are those of the tested partitions that passed; among them are
      all names that are good on their own, and no others if passing is monotone. The number of
      tests, and the maximum announced at the first, depend on the choices and the test as stated.
     */
    method CheckBisect()
      requires DistinctNames(choices) && knownGood == {} && queue == [] && log == []
      modifies this
      ensures Truthful(log) && Accounted(log, 0) && knownGood == Passed(log)
      ensures IsLogFor(choices, test, log) && (choices != [] ==> InOrder(choices, test, log))
      ensures forall x :: GoodAlone(choices, test, x) ==> x in knownGood
      ensures Monotone(choices, test) ==> forall x :: x in knownGood <==> GoodAlone(choices, test, x)
    {
      hide Picks, Potential, Queued, Truthful, Accounted, Passed, Monotone, DistinctNames, TestsFor, TestsBelow, HalvesFail;
      hide QueueAfter, TestsAfter, Partitions, TurnTests, TurnQueue;
      ghost var turns: nat := 0;
      NothingLogged();
      if |choices| == 0 {
        return;
      }
      var names := Names(choices);
      TestsForOne(choices, test, names, []);
      queue := [names];
      PopLast(queue);
      PopLast([]);
      NoTurns([names]);
      while |queue| > 0
        invariant queue == QueueAfter(choices, test, [names], turns)
        invariant Partitions(log) == TestsAfter(choices, test, [names], turns)
        invariant Truthful(log) && knownGood == Passed(log)
        invariant forall x | x in names :: Settled(x, knownGood, queue)
        invariant if log == [] then queue == [names] else Splittable(queue) && Accounted(log, Potential(queue))
        invariant |log| + TestsFor(choices, test, queue) == TestsBelow(choices, test, names)
        invariant log != [] ==>
                    log[0].maxRemaining == (if |names| == 1 then 1 else |names| * 2 - 2) &&
                    (|names| == 1 ==> queue == [] && log == [Step(names, 1, test(Picks(choices, names)))])
        decreases Weight(queue)
      {
        WeightBound(queue);
        PopLast(queue);
        SplitLast();
        turns := turns + 1;
        OneMoreTurn([names], turns);
      }
      PopLast(queue);
      if |names| > 1 {
        SearchBound(choices, test, names);
      }
      if Monotone(choices, test) {
        forall x | x in knownGood ensures GoodAlone(choices, test, x) {
          GoodIsGoodAlone(x);
        }
      }
    }

    lemma NoTurns(queue: seq<seq<Name>>)
      ensures QueueAfter(choices, test, queue, 0) == queue && TestsAfter(choices, test, queue, 0) == [] == Partitions([])
    {
    }

    lemma OneMoreTurn(queue: seq<seq<Name>>, turns: nat)
      requires turns > 0
      ensures QueueAfter(choices, test, queue, turns) == TurnQueue(choices, test, QueueAfter(choices, test, queue, turns - 1))
      ensures TestsAfter(choices, test, queue, turns) ==
                TestsAfter(choices, test, queue, turns - 1) + TurnTests(QueueAfter(choices, test, queue, turns - 1))
    {
    }

    lemma NothingLogged()
      ensures Truthful([]) && Passed([]) == {} && forall open :: Accounted([], open)
    {
    }

    lemma GoodIsGoodAlone(x: Name)
      requires Monotone(choices, test) && Truthful(log) && x in Passed(log)
      ensures GoodAlone(choices, test, x)
    {
      PassedMember(log, x);
      var k :| 0 <= k < |log| && log[k].passed && x in log[k].partition;
      assert test(Picks(choices, log[k].partition));
    }
  }
}
