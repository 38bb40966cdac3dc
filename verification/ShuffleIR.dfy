/**
  The shufflevector and select instructions of LLVM's intermediate representation, on vectors of n
  lanes, for the models of llvm/utils/shuffle_fuzz.py and llvm/utils/shuffle_select_fuzz_tester.py.
  N is the type of the names of values.
 */
module ShuffleIR {
  import opened Wrappers

  type Vec = seq<int>

  /** The values that undef lanes happen to have, by the number of the instruction and the lane. */
  type Undef = (nat, nat) -> int

  datatype Operand<N> = Zero | Var(name: N)

  datatype Instr<N> =
    | Shuffle(name: N, op0: Operand<N>, op1: Operand<N>, mask: seq<int>)
    | Select(name: N, op0: Operand<N>, op1: Operand<N>, mask: seq<int>)

  ghost predicate IsShuffleMask(mask: seq<int>, n: nat) {
    |mask| == n && forall i | 0 <= i < n :: -1 <= mask[i] < 2 * n
  }

  ghost predicate IsSelectMask(mask: seq<int>, n: nat) {
    |mask| == n && forall i | 0 <= i < n :: -1 <= mask[i] <= 1
  }

  function Zeros(n: nat): (r: Vec)
    ensures |r| == n && forall i | 0 <= i < n :: r[i] == 0
  {
    seq(n, _ => 0)
  }

  // ------------------------------------------------------------------------------- execution

  ghost function Read<N>(env: map<N, Vec>, n: nat, op: Operand<N>): Option<Vec> {
    if op.Zero? then Some(Zeros(n)) else if op.name in env then Some(env[op.name]) else None
  }

  ghost function ShuffleLane(a: Vec, b: Vec, m: int, undef: int): int
    requires |a| == |b| && -1 <= m < 2 * |a|
  {
    if m == -1 then undef else if m < |a| then a[m] else b[m - |a|]
  }

  /** An undef condition picks either operand. */
  ghost function SelectLane(a: Vec, b: Vec, i: nat, m: int, undef: int): int
    requires |a| == |b| && i < |a|
  {
    if m == 1 || (m == -1 && undef != 0) then a[i] else b[i]
  }

  /** The result of instruction number k on its operands. */
  ghost function Lanes<N>(a: Vec, b: Vec, inst: Instr<N>, k: nat, undef: Undef): (r: Vec)
    requires |a| == |b| && if inst.Shuffle? then IsShuffleMask(inst.mask, |a|) else IsSelectMask(inst.mask, |a|)
    ensures |r| == |a|
    ensures forall i | 0 <= i < |a| ::
              r[i] == if inst.Shuffle? then ShuffleLane(a, b, inst.mask[i], undef(k, i))
                      else SelectLane(a, b, i, inst.mask[i], undef(k, i))
  {
    seq(|a|, i requires 0 <= i < |a| =>
      if inst.Shuffle? then ShuffleLane(a, b, inst.mask[i], undef(k, i))
      else SelectLane(a, b, i, inst.mask[i], undef(k, i)))
  }

  ghost predicate IsMask<N>(inst: Instr<N>, n: nat) {
    if inst.Shuffle? then IsShuffleMask(inst.mask, n) else IsSelectMask(inst.mask, n)
  }

  /** None if the instruction is malformed or uses a value that is not defined. */
  ghost function Execute<N>(env: map<N, Vec>, n: nat, inst: Instr<N>, k: nat, undef: Undef): (r: Option<Vec>)
    ensures r.Some? ==> |r.value| == n
  {
    var a, b := Read(env, n, inst.op0), Read(env, n, inst.op1);
    if a.None? || b.None? || |a.value| != n || |b.value| != n || !IsMask(inst, n) then None
    else Some(Lanes(a.value, b.value, inst, k, undef))
  }

  /** The values after the instructions, executed in order; none if one goes wrong or redefines a value. */
  ghost function Run<N>(env: map<N, Vec>, n: nat, insts: seq<Instr<N>>, undef: Undef): Option<map<N, Vec>> {
    if |insts| == 0 then Some(env)
    else
      var k := |insts| - 1;
      var before := Run(env, n, insts[..k], undef);
      if before.None? || insts[k].name in before.value then None
      else
        var v := Execute(before.value, n, insts[k], k, undef);
        if v.None? then None else Some(before.value[insts[k].name := v.value])
  }

  // ----------------------------------------------------------------------------- expectation

  /** No lane is marked -1. */
  ghost predicate Unmarked(v: Vec) {
    forall i | 0 <= i < |v| :: v[i] != -1
  }

  /** The undef lanes all have the given value, if there is one. */
  ghost predicate Gives(undef: Undef, fill: Option<int>) {
    fill.Some? ==> forall k, i :: undef(k, i) == fill.value
  }

  /**
    The expected value and the actual one agree in every lane that is not marked -1; in the others,
    the actual value is that of undef, if it is given.
   */
  ghost predicate Agrees(expected: Vec, actual: Vec, fill: Option<int>) {
    && |expected| == |actual|
    && forall i | 0 <= i < |expected| :: LaneAgrees(expected[i], actual[i], fill)
  }

  ghost predicate LaneAgrees(expected: int, actual: int, fill: Option<int>) {
    if expected == -1 then fill.Some? ==> actual == fill.value else actual == expected
  }

  /** The operand is defined, and its expected value agrees with the actual one. */
  ghost predicate Knows<N>(env: map<N, Vec>, n: nat, op: Operand<N>, expected: Vec, fill: Option<int>) {
    var v := Read(env, n, op);
    v.Some? && |v.value| == n && Agrees(expected, v.value, fill)
  }

  /** The expected value of a lane of a shuffle: that of the operand lane, or -1. */
  ghost function ExpectedLane(a: Vec, b: Vec, m: int): int
    requires |a| == |b| > 0
  {
    if 0 <= m < |a| then a[m] else if m >= |a| then b[m % |a|] else -1
  }

  /** The expected value of a shuffle. */
  ghost function ShuffleOf(a: Vec, b: Vec, mask: seq<int>): (r: Vec)
    requires |a| == |b| > 0
    ensures |r| == |mask| && forall i | 0 <= i < |mask| :: r[i] == ExpectedLane(a, b, mask[i])
  {
    seq(|mask|, i requires 0 <= i < |mask| => ExpectedLane(a, b, mask[i]))
  }

  /** The expected value of a select: marked -1 where the condition is undef. */
  ghost function SelectOf(a: Vec, b: Vec, mask: seq<int>): (r: Vec)
    requires |a| == |b| == |mask|
    ensures |r| == |mask|
    ensures forall i | 0 <= i < |mask| :: r[i] == if mask[i] == 1 then a[i] else if mask[i] == 0 then b[i] else -1
  {
    seq(|mask|, i requires 0 <= i < |mask| => if mask[i] == 1 then a[i] else if mask[i] == 0 then b[i] else -1)
  }

  lemma SecondOperand(m: int, n: int)
    requires 0 < n <= m < 2 * n
    ensures m % n == m - n
  {
    assert m == 1 * n + (m - n);
  }

  lemma ShuffledLaneAgrees(a: Vec, b: Vec, va: Vec, vb: Vec, m: int, undef: int, fill: Option<int>)
    requires Agrees(a, va, fill) && Agrees(b, vb, fill) && |a| == |b| > 0 && -1 <= m < 2 * |a|
    requires fill.Some? ==> undef == fill.value
    ensures LaneAgrees(ExpectedLane(a, b, m), ShuffleLane(va, vb, m, undef), fill)
  {
    if m >= |a| {
      SecondOperand(m, |a|);
    }
  }

  /** A shuffle of operands that agree with their expected values agrees with the expected shuffle. */
  lemma ShuffleAgrees<N>(env: map<N, Vec>, n: nat, inst: Instr<N>, k: nat, undef: Undef, a: Vec, b: Vec, fill: Option<int>)
    requires inst.Shuffle? && IsMask(inst, n) && n > 0 && Gives(undef, fill)
    requires Knows(env, n, inst.op0, a, fill) && Knows(env, n, inst.op1, b, fill)
    ensures var r := Execute(env, n, inst, k, undef);
            |a| == |b| > 0 && r.Some? && Agrees(ShuffleOf(a, b, inst.mask), r.value, fill)
  {
    var va, vb := Read(env, n, inst.op0).value, Read(env, n, inst.op1).value;
    var r := Execute(env, n, inst, k, undef);
    forall i | 0 <= i < n ensures LaneAgrees(ShuffleOf(a, b, inst.mask)[i], r.value[i], fill) {
      ShuffledLaneAgrees(a, b, va, vb, inst.mask[i], undef(k, i), fill);
    }
  }

  /** Likewise for a select, except that nothing is known of the lanes marked -1. */
  lemma SelectAgrees<N>(env: map<N, Vec>, n: nat, inst: Instr<N>, k: nat, undef: Undef, a: Vec, b: Vec)
    requires inst.Select? && IsMask(inst, n)
    requires Knows(env, n, inst.op0, a, None) && Knows(env, n, inst.op1, b, None)
    ensures var r := Execute(env, n, inst, k, undef);
            |a| == |b| == |inst.mask| && r.Some? && Agrees(SelectOf(a, b, inst.mask), r.value, None)
  {
    var va, vb := Read(env, n, inst.op0).value, Read(env, n, inst.op1).value;
    var r := Execute(env, n, inst, k, undef);
    forall i | 0 <= i < n ensures LaneAgrees(SelectOf(a, b, inst.mask)[i], r.value[i], None) {
      assert LaneAgrees(a[i], va[i], None) && LaneAgrees(b[i], vb[i], None);
    }
  }

  lemma StillKnows<N>(env: map<N, Vec>, n: nat, x: N, v: Vec, op: Operand<N>, expected: Vec, fill: Option<int>)
    requires x !in env && Knows(env, n, op, expected, fill)
    ensures Knows(env[x := v], n, op, expected, fill)
  {
  }

  lemma NowKnown<N>(env: map<N, Vec>, n: nat, x: N, v: Vec, expected: Vec, fill: Option<int>)
    requires |v| == n && Agrees(expected, v, fill)
    ensures Knows(env[x := v], n, Var(x), expected, fill)
  {
  }

  /** One more instruction, whatever undef becomes. */
  lemma RunMore<N>(env: map<N, Vec>, n: nat, insts: seq<Instr<N>>, inst: Instr<N>, undef: Undef)
    requires var before := Run(env, n, insts, undef);
             before.Some? && inst.name !in before.value &&
             Execute(before.value, n, inst, |insts|, undef).Some?
    ensures var before := Run(env, n, insts, undef);
            Run(env, n, insts + [inst], undef) ==
              Some(before.value[inst.name := Execute(before.value, n, inst, |insts|, undef).value])
  {
    assert (insts + [inst])[..|insts + [inst]| - 1] == insts;
  }

  /** The lanes of a shuffle are numbered through both operands; a select takes the first where the condition is 1. */
  lemma Example(undef: Undef)
    ensures var env: map<nat, Vec> := map[0 := [10, 11], 1 := [20, 21]];
            && Execute(env, 2, Shuffle(2, Var(0), Var(1), [3, 0]), 0, undef) == Some([21, 10])
            && Execute(env, 2, Select(2, Var(0), Var(1), [1, 0]), 0, undef) == Some([10, 21])
            && Execute(env, 2, Shuffle(2, Zero, Var(1), [1, 2]), 0, undef) == Some([0, 20])
            && Execute(env, 2, Shuffle(2, Var(0), Var(7), [0, 1]), 0, undef) == None
  {
    var env: map<nat, Vec> := map[0 := [10, 11], 1 := [20, 21]];
    var x, y, zeros := [10, 11], [20, 21], Zeros(2);
    assert zeros == [0, 0];
    assert Lanes(x, y, Shuffle(2, Var(0), Var(1), [3, 0]), 0, undef) == [21, 10];
    assert Lanes(x, y, Select(2, Var(0), Var(1), [1, 0]), 0, undef) == [10, 21];
    assert Lanes(zeros, y, Shuffle(2, Zero, Var(1), [1, 2]), 0, undef) == [0, 20];
  }
}
