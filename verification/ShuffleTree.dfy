/**
  Model of llvm/utils/shuffle_fuzz.py: a triangular tree of shuffles, its symbolic evaluation level
  by level, and the shufflevector instructions printed for it. The random masks are inputs.
 */
module ShuffleTree {
  import opened Wrappers
  import opened ShuffleIR
  import opened Decimal
  import Numbering

  /** The value that a position at a level of the tree has; inputs are at level 0. */
  datatype Node = Node(level: nat, pos: nat)

  ghost function Text(x: Node): string {
    "%s." + Numeral(x.level) + "." + Numeral(x.pos)
  }

  lemma NumeralHasNoDot(i: nat)
    ensures |Numeral(i)| >= 1 && '.' !in Numeral(i)
  {
    NumeralValue(i);
  }

  lemma {:induction false} SplitAtDot(a: string, b: string, c: string, d: string)
    requires '.' !in a && '.' !in c && a + "." + b == c + "." + d
    ensures a == c && b == d
  {
    var s := a + "." + b;
    assert s[|a|] == '.' && s[|c|] == '.';
    assert forall k | 0 <= k < |a| :: s[k] == a[k];
    assert forall k | 0 <= k < |c| :: s[k] == c[k];
    assert |a| == |c|;
    assert a == s[..|a|] && c == s[..|a|];
    assert b == s[|a| + 1..] && d == s[|a| + 1..];
  }

  /** Different values have different names in the output. */
  lemma TextInjective(x: Node, y: Node)
    requires Text(x) == Text(y)
    ensures x == y
  {
    NumeralHasNoDot(x.level);
    NumeralHasNoDot(y.level);
    var tx, ty := Numeral(x.level) + "." + Numeral(x.pos), Numeral(y.level) + "." + Numeral(y.pos);
    assert Text(x) == "%s." + tx && Text(y) == "%s." + ty;
    assert Text(x)[3..] == tx && Text(y)[3..] == ty;
    SplitAtDot(Numeral(x.level), Numeral(x.pos), Numeral(y.level), Numeral(y.pos));
    NumeralInjective(x.level, y.level);
    NumeralInjective(x.pos, y.pos);
  }

  // ----------------------------------------------------------------------------------- the tree

  type Mask = seq<int>

  /** A tree of the given height: one mask less at every level, and a single one at the last. */
  ghost predicate IsTree(tree: seq<seq<Mask>>, height: nat, n: nat) {
    && |tree| == height
    && (forall i | 0 <= i < height :: |tree[i]| == height - i)
    && (forall i, j | 0 <= i < height && 0 <= j < |tree[i]| :: IsShuffleMask(tree[i][j], n))
  }

  ghost predicate AreVectors(values: seq<Vec>, n: nat) {
    forall i | 0 <= i < |values| :: |values[i]| == n
  }

  ghost predicate AllUnmarked(inputs: seq<Vec>) {
    forall i | 0 <= i < |inputs| :: Unmarked(inputs[i])
  }

  /** The inputs of the tree: consecutive numbers from 1, reduced to the element width. */
  method GenInputs(height: nat, n: nat, modulus: nat) returns (inputs: seq<Vec>)
    requires modulus > 0
    ensures |inputs| == height + 1 && AreVectors(inputs, n) && AllUnmarked(inputs)
    ensures forall i, j | 0 <= i <= height && 0 <= j < n :: inputs[i][j] == Numbering.Element(n, 1, modulus, i, j)
    ensures (forall i, j, i', j' | 0 <= i <= height && 0 <= j < n && 0 <= i' <= height && 0 <= j' < n ::
               inputs[i][j] == inputs[i'][j'] ==> i == i' && j == j') <==> (height + 1) * n <= modulus
  {
    hide Numbering.Element;
    inputs := [];
    for i := 0 to height + 1
      invariant |inputs| == i && AreVectors(inputs, n)
      invariant forall i', j | 0 <= i' < i && 0 <= j < n :: inputs[i'][j] == Numbering.Element(n, 1, modulus, i', j)
    {
      var input := seq(n, j requires 0 <= j < n => Numbering.Element(n, 1, modulus, i, j));
      inputs := inputs + [input];
    }
    Numbering.DifferentIffTheyFit(n, 1, modulus, height + 1);
  }

  function Shuffled(a: Vec, b: Vec, mask: Mask): (r: Vec)
    requires |a| == |b| > 0 && IsShuffleMask(mask, |a|)
    ensures |r| == |a|
  {
    seq(|mask|, k requires 0 <= k < |mask| =>
      if mask[k] != -1 then (if mask[k] < |a| then a else b)[mask[k] % |a|] else -1)
  }

  /** The values of the next level. */
  function Level(values: seq<Vec>, masks: seq<Mask>, n: nat): (r: seq<Vec>)
    requires n > 0 && |values| == |masks| + 1
    requires forall i | 0 <= i < |values| :: |values[i]| == n
    requires forall i | 0 <= i < |masks| :: IsShuffleMask(masks[i], n)
    ensures |r| == |masks| && forall i | 0 <= i < |r| :: |r[i]| == n
  {
    seq(|masks|, i requires 0 <= i < |masks| => Shuffled(values[i], values[i + 1], masks[i]))
  }

  /** The values at a level. */
  ghost function ValuesAt(inputs: seq<Vec>, tree: seq<seq<Mask>>, n: nat, level: nat): (r: seq<Vec>)
    requires n > 0 && IsTree(tree, |tree|, n) && level <= |tree| && |inputs| == |tree| + 1 && AreVectors(inputs, n)
    ensures |r| == |tree| + 1 - level && AreVectors(r, n)
  {
    if level == 0 then inputs else Level(ValuesAt(inputs, tree, n, level - 1), tree[level - 1], n)
  }

  method EvaluateTree(inputs: seq<Vec>, tree: seq<seq<Mask>>, n: nat) returns (results: seq<Vec>)
    requires n > 0 && IsTree(tree, |tree|, n) && |inputs| == |tree| + 1 && AreVectors(inputs, n)
    ensures |results| == 1 && results == ValuesAt(inputs, tree, n, |tree|)
  {
    results := inputs;
    for level := 0 to |tree|
      invariant results == ValuesAt(inputs, tree, n, level)
    {
      results := Level(results, tree[level], n);
    }
  }

  // ------------------------------------------------------------------------------- the program

  function Instruction(level: nat, pos: nat, mask: Mask): Instr<Node> {
    Shuffle(Node(level + 1, pos), Var(Node(level, pos)), Var(Node(level, pos + 1)), mask)
  }

  ghost function InputEnv(inputs: seq<Vec>): map<Node, Vec> {
    map i | 0 <= i < |inputs| :: Node(0, i) := inputs[i]
  }

  /** The names in use when a number of positions of a level are computed. */
  ghost predicate InUse(x: Node, level: nat, pos: nat) {
    x.level < level || (x.level == level && x.pos < pos)
  }

  /** The values at these positions of a level are known to agree with what is expected. */
  ghost predicate KnowsLevel(env: map<Node, Vec>, n: nat, level: nat, values: seq<Vec>, pos: nat,
                             fill: Option<int>) {
    forall p | 0 <= p < pos && p < |values| :: Knows(env, n, Var(Node(level, p)), values[p], fill)
  }

  /** The program runs, and has computed a level and some positions of the next one. */
  ghost predicate Sound(inputs: seq<Vec>, n: nat, insts: seq<Instr<Node>>, undef: Undef, fill: Option<int>, level: nat,
                        values: seq<Vec>, next: seq<Vec>, pos: nat) {
    var r := Run(InputEnv(inputs), n, insts, undef);
    && r.Some?
    && (forall x | x in r.value :: InUse(x, level + 1, pos))
    && KnowsLevel(r.value, n, level, values, |values|, fill) && KnowsLevel(r.value, n, level + 1, next, pos, fill)
  }

  lemma LevelIsShuffled(values: seq<Vec>, masks: seq<Mask>, n: nat, i: nat)
    requires n > 0 && |values| == |masks| + 1 && i < |masks|
    requires forall k | 0 <= k < |values| :: |values[k]| == n
    requires forall k | 0 <= k < |masks| :: IsShuffleMask(masks[k], n)
    ensures Level(values, masks, n)[i] == ShuffleOf(values[i], values[i + 1], masks[i])
  {
    var r := Level(values, masks, n)[i];
    assert r == Shuffled(values[i], values[i + 1], masks[i]);
    forall k | 0 <= k < n ensures r[k] == ExpectedLane(values[i], values[i + 1], masks[i][k]) {
      FirstOperand(masks[i][k], n);
    }
  }

  lemma FirstOperand(m: int, n: nat)
    ensures 0 <= m < n ==> m % n == m
  {
  }

  /** One more position of the next level. */
  lemma OneMorePosition(inputs: seq<Vec>, n: nat, insts: seq<Instr<Node>>, undef: Undef, fill: Option<int>, level: nat,
                        values: seq<Vec>, next: seq<Vec>, pos: nat, mask: Mask)
    requires Sound(inputs, n, insts, undef, fill, level, values, next, pos) && Gives(undef, fill)
    requires n > 0 && |values| == |next| + 1 && pos < |next| && |values[pos]| == |values[pos + 1]| == n
    requires IsShuffleMask(mask, n) && next[pos] == ShuffleOf(values[pos], values[pos + 1], mask)
    ensures Sound(inputs, n, insts + [Instruction(level, pos, mask)], undef, fill, level, values, next, pos + 1)
  {
    var env := Run(InputEnv(inputs), n, insts, undef).value;
    var inst := Instruction(level, pos, mask);
    assert inst.name !in env;
    assert Knows(env, n, inst.op0, values[pos], fill) && Knows(env, n, inst.op1, values[pos + 1], fill);
    hide Run, Execute, Knows, ShuffleOf, IsShuffleMask, Gives;
    assert IsMask(inst, n);
    ShuffleAgrees(env, n, inst, |insts|, undef, values[pos], values[pos + 1], fill);
    RunMore(InputEnv(inputs), n, insts, inst, undef);
    var v := Execute(env, n, inst, |insts|, undef).value;
    NowKnown(env, n, inst.name, v, next[pos], fill);
    forall p | 0 <= p < |values| ensures Knows(env[inst.name := v], n, Var(Node(level, p)), values[p], fill) {
      StillKnows(env, n, inst.name, v, Var(Node(level, p)), values[p], fill);
    }
    forall p | 0 <= p < pos ensures Knows(env[inst.name := v], n, Var(Node(level + 1, p)), next[p], fill) {
      StillKnows(env, n, inst.name, v, Var(Node(level + 1, p)), next[p], fill);
    }
  }

  /** What undef becomes is arbitrary; if it is one value, and no input lane is marked, then marked lanes have it. */
  ghost predicate Considered(inputs: seq<Vec>, undef: Undef, fill: Option<int>) {
    Gives(undef, fill) && (fill.Some? ==> AllUnmarked(inputs))
  }

  /** ... whatever undef becomes. */
  ghost predicate AlwaysSound(inputs: seq<Vec>, n: nat, insts: seq<Instr<Node>>, level: nat,
                              values: seq<Vec>, next: seq<Vec>, pos: nat) {
    forall undef: Undef, fill | Considered(inputs, undef, fill) ::
      Sound(inputs, n, insts, undef, fill, level, values, next, pos)
  }

  lemma OneMoreAlways(inputs: seq<Vec>, n: nat, insts: seq<Instr<Node>>, level: nat,
                      values: seq<Vec>, next: seq<Vec>, pos: nat, mask: Mask, pos': nat)
    requires AlwaysSound(inputs, n, insts, level, values, next, pos) && pos' == pos + 1
    requires n > 0 && |values| == |next| + 1 && pos < |next| && |values[pos]| == |values[pos + 1]| == n
    requires IsShuffleMask(mask, n) && next[pos] == ShuffleOf(values[pos], values[pos + 1], mask)
    ensures AlwaysSound(inputs, n, insts + [Instruction(level, pos, mask)], level, values, next, pos')
  {
    hide Sound, IsShuffleMask, ShuffleOf;
    var insts' := insts + [Instruction(level, pos, mask)];
    forall undef: Undef, fill | Considered(inputs, undef, fill)
      ensures Sound(inputs, n, insts', undef, fill, level, values, next, pos')
    {
      OneMorePosition(inputs, n, insts, undef, fill, level, values, next, pos, mask);
    }
  }

  /** At the start, the inputs are known; a level that is complete is the one to start the next from. */
  lemma StartLevel(inputs: seq<Vec>, n: nat, next: seq<Vec>)
    requires AreVectors(inputs, n)
    ensures AlwaysSound(inputs, n, [], 0, inputs, next, 0)
  {
    forall undef: Undef, fill | Considered(inputs, undef, fill)
      ensures Sound(inputs, n, [], undef, fill, 0, inputs, next, 0)
    {
      assert Run(InputEnv(inputs), n, [], undef) == Some(InputEnv(inputs));
    }
  }

  lemma NextLevel(inputs: seq<Vec>, n: nat, insts: seq<Instr<Node>>, level: nat, values: seq<Vec>, next: seq<Vec>,
                  level': nat, further: seq<Vec>)
    requires AlwaysSound(inputs, n, insts, level, values, next, |next|) && level' == level + 1
    ensures AlwaysSound(inputs, n, insts, level', next, further, 0)
  {
    forall undef: Undef, fill | Considered(inputs, undef, fill)
      ensures Sound(inputs, n, insts, undef, fill, level', next, further, 0)
    {
      assert Sound(inputs, n, insts, undef, fill, level, values, next, |next|);
    }
  }

  ghost function NextValues(inputs: seq<Vec>, tree: seq<seq<Mask>>, n: nat, level: nat): seq<Vec>
    requires n > 0 && IsTree(tree, |tree|, n) && level <= |tree| && |inputs| == |tree| + 1 && AreVectors(inputs, n)
  {
    if level < |tree| then ValuesAt(inputs, tree, n, level + 1) else []
  }

  /** The instructions of all levels below the given one, and of some positions of it. */
  ghost function Printed(tree: seq<seq<Mask>>, level: nat, pos: nat): seq<Instr<Node>>
    requires level <= |tree| && pos <= (if level < |tree| then |tree[level]| else 0)
    decreases level, pos
  {
    if pos > 0 then Printed(tree, level, pos - 1) + [Instruction(level, pos - 1, tree[level][pos - 1])]
    else if level > 0 then Printed(tree, level - 1, |tree[level - 1]|)
    else []
  }

  /** What a run of the program leaves in x. */
  ghost function Outcome(inputs: seq<Vec>, n: nat, insts: seq<Instr<Node>>, undef: Undef, x: Node): Option<Vec> {
    var r := Run(InputEnv(inputs), n, insts, undef);
    if r.Some? && x in r.value then Some(r.value[x]) else None
  }

  /** The value of lane j of x depends on what undef becomes. */
  ghost predicate DependsOnUndef(inputs: seq<Vec>, n: nat, insts: seq<Instr<Node>>, x: Node, j: nat) {
    exists u, v: Undef ::
      var a, b := Outcome(inputs, n, insts, u, x), Outcome(inputs, n, insts, v, x);
      a.Some? && b.Some? && j < |a.value| && j < |b.value| && a.value[j] != b.value[j]
  }

  lemma PrintedStep(tree: seq<seq<Mask>>, level: nat, pos: nat)
    requires level < |tree| && pos < |tree[level]|
    ensures Printed(tree, level, pos + 1) == Printed(tree, level, pos) + [Instruction(level, pos, tree[level][pos])]
    ensures Printed(tree, level + 1, 0) == Printed(tree, level, |tree[level]|)
  {
  }

  /** The shuffles of one level, printed after those of the levels below. */
  method EmitLevel(ghost inputs: seq<Vec>, tree: seq<seq<Mask>>, n: nat, level: nat, below: seq<Instr<Node>>)
    returns (insts: seq<Instr<Node>>)
    requires n > 0 && IsTree(tree, |tree|, n) && |inputs| == |tree| + 1 && AreVectors(inputs, n) && level < |tree|
    requires below == Printed(tree, level, 0)
    requires AlwaysSound(inputs, n, below, level, ValuesAt(inputs, tree, n, level), ValuesAt(inputs, tree, n, level + 1), 0)
    ensures insts == Printed(tree, level, |tree[level]|)
    ensures AlwaysSound(inputs, n, insts, level, ValuesAt(inputs, tree, n, level), ValuesAt(inputs, tree, n, level + 1),
                        |tree[level]|)
  {
    hide AlwaysSound, Printed;
    ghost var values, next := ValuesAt(inputs, tree, n, level), ValuesAt(inputs, tree, n, level + 1);
    insts := below;
    for j := 0 to |tree[level]|
      invariant insts == Printed(tree, level, j)
      invariant AlwaysSound(inputs, n, insts, level, values, next, j)
    {
      LevelIsShuffled(values, tree[level], n, j);
      OneMoreAlways(inputs, n, insts, level, values, next, j, tree[level][j], j + 1);
      PrintedStep(tree, level, j);
      insts := insts + [Instruction(level, j, tree[level][j])];
    }
  }

  /**
    The printed program, for any inputs: whatever undef becomes, it runs and its result agrees with
    the symbolic evaluation of the tree. If no input lane is marked -1, the lanes of the result that
    are marked are exactly those that depend on undef.
   */
  method EmitTree(ghost inputs: seq<Vec>, tree: seq<seq<Mask>>, n: nat) returns (insts: seq<Instr<Node>>, result: Node)
    requires n > 0 && IsTree(tree, |tree|, n) && |inputs| == |tree| + 1 && AreVectors(inputs, n)
    ensures insts == Printed(tree, |tree|, 0) && result == Node(|tree|, 0)
    ensures forall undef: Undef ::
              var r := Outcome(inputs, n, insts, undef, result);
              r.Some? && Agrees(ValuesAt(inputs, tree, n, |tree|)[0], r.value, None)
    ensures AllUnmarked(inputs) ==>
              forall j | 0 <= j < n ::
                ValuesAt(inputs, tree, n, |tree|)[0][j] == -1 <==> DependsOnUndef(inputs, n, insts, result, j)
  {
    hide AlwaysSound, DependsOnUndef, Outcome, Agrees, Printed;
    insts := [];
    StartLevel(inputs, n, NextValues(inputs, tree, n, 0));
    PrintedNothing(tree);
    for level := 0 to |tree|
      invariant insts == Printed(tree, level, 0)
      invariant AlwaysSound(inputs, n, insts, level, ValuesAt(inputs, tree, n, level),
                            NextValues(inputs, tree, n, level), 0)
    {
      insts := EmitLevel(inputs, tree, n, level, insts);
      PrintedStep(tree, level, 0);
      NextLevel(inputs, n, insts, level, ValuesAt(inputs, tree, n, level), ValuesAt(inputs, tree, n, level + 1), level + 1,
                NextValues(inputs, tree, n, level + 1));
    }
    result := Node(|tree|, 0);
    ghost var values := ValuesAt(inputs, tree, n, |tree|);
    ResultIsKnown(inputs, n, insts, |tree|, values);
    if AllUnmarked(inputs) {
      hide AllUnmarked;
      forall j | 0 <= j < n ensures values[0][j] == -1 <==> DependsOnUndef(inputs, n, insts, result, j) {
        MarkedDepends(inputs, n, insts, |tree|, values, j);
      }
    }
  }

  lemma PrintedNothing(tree: seq<seq<Mask>>)
    ensures Printed(tree, 0, 0) == []
  {
  }

  lemma OutcomeIsKnown(inputs: seq<Vec>, n: nat, insts: seq<Instr<Node>>, level: nat, values: seq<Vec>,
                       undef: Undef, fill: Option<int>)
    requires AlwaysSound(inputs, n, insts, level, values, [], 0) && |values| == 1 && Considered(inputs, undef, fill)
    ensures var r := Outcome(inputs, n, insts, undef, Node(level, 0));
            r.Some? && |r.value| == n && Agrees(values[0], r.value, fill)
  {
    assert Sound(inputs, n, insts, undef, fill, level, values, [], 0);
    assert Knows(Run(InputEnv(inputs), n, insts, undef).value, n, Var(Node(level, 0)), values[0], fill);
  }

  lemma ResultIsKnown(inputs: seq<Vec>, n: nat, insts: seq<Instr<Node>>, level: nat, values: seq<Vec>)
    requires AlwaysSound(inputs, n, insts, level, values, [], 0) && |values| == 1
    ensures forall undef: Undef ::
              var r := Outcome(inputs, n, insts, undef, Node(level, 0)); r.Some? && Agrees(values[0], r.value, None)
  {
    forall undef: Undef
      ensures var r := Outcome(inputs, n, insts, undef, Node(level, 0)); r.Some? && Agrees(values[0], r.value, None)
    {
      OutcomeIsKnown(inputs, n, insts, level, values, undef, None);
    }
  }

  /** A lane is marked exactly if two values of undef lead to different values in it. */
  lemma MarkedDepends(inputs: seq<Vec>, n: nat, insts: seq<Instr<Node>>, level: nat, values: seq<Vec>, j: nat)
    requires AlwaysSound(inputs, n, insts, level, values, [], 0) && AllUnmarked(inputs)
    requires |values| == 1 && |values[0]| == n && j < n
    ensures values[0][j] == -1 <==> DependsOnUndef(inputs, n, insts, Node(level, 0), j)
  {
    if values[0][j] == -1 {
      var u: Undef, v: Undef := (k, i) => 0, (k, i) => 1;
      OutcomeIsKnown(inputs, n, insts, level, values, u, Some(0));
      OutcomeIsKnown(inputs, n, insts, level, values, v, Some(1));
      var a, b := Outcome(inputs, n, insts, u, Node(level, 0)), Outcome(inputs, n, insts, v, Node(level, 0));
      assert LaneAgrees(values[0][j], a.value[j], Some(0)) && LaneAgrees(values[0][j], b.value[j], Some(1));
    } else {
      forall u: Undef
        ensures var a := Outcome(inputs, n, insts, u, Node(level, 0)); a.Some? && j < |a.value| && a.value[j] == values[0][j]
      {
        OutcomeIsKnown(inputs, n, insts, level, values, u, None);
        assert LaneAgrees(values[0][j], Outcome(inputs, n, insts, u, Node(level, 0)).value[j], None);
      }
    }
  }
}
