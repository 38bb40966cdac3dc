/**
  Model of llvm/utils/shuffle_select_fuzz_tester.py: a random sequence of shufflevector and select
  instructions is generated along with the value it is expected to compute. The random choices are
  inputs. Elements are integers, reduced modulo the element width unless they are floating point.
 */
module ShuffleSelect {
  import opened Wrappers
  import opened ShuffleIR
  import opened Decimal
  import Numbering

  // ---------------------------------------------------------------------------------------- names

  datatype Name = Inp(index: nat) | Shuf(index: nat) | Sel(index: nat)

  const ZERO_NAME := "zeroinitializer"

  /** The part of the name before the number; the three differ in their third character. */
  ghost function Stem(x: Name): (stem: string)
    ensures 4 <= |stem| <= 5 && stem[0] == '%'
    ensures stem[2] == if x.Inp? then 'n' else if x.Shuf? then 'h' else 'e'
    ensures |stem| == if x.Shuf? then 5 else 4
  {
    match x
    case Inp(_) => "%inp"
    case Shuf(_) => "%shuf"
    case Sel(_) => "%sel"
  }

  ghost function Text(x: Name): string {
    Stem(x) + Numeral(x.index)
  }

  lemma SplitStem(a: string, b: string, c: string, d: string)
    requires |a| == |c| && a + b == c + d
    ensures b == d
  {
    assert b == (a + b)[|a|..] && d == (c + d)[|c|..];
  }

  /** Different values have different names in the output. */
  lemma TextInjective(x: Name, y: Name)
    ensures Text(x) == Text(y) ==> x == y
    ensures Text(x) != ZERO_NAME
  {
    hide Stem, Numeral;
    assert Text(x)[0] == '%' && ZERO_NAME[0] == 'z';
    if Text(x) == Text(y) {
      assert Text(x)[2] == Stem(x)[2] && Text(y)[2] == Stem(y)[2];
      SplitStem(Stem(x), Numeral(x.index), Stem(y), Numeral(y.index));
      NumeralInjective(x.index, y.index);
    }
  }

  /** A value with the name that instructions use for it. */
  datatype Value = Value(op: Operand<Name>, value: Vec)

  // --------------------------------------------------------------------------------------- inputs

  /** Lane j of input i; floating-point elements are not reduced. */
  function Element(n: nat, modulus: Option<nat>, i: nat, j: nat): nat
    requires modulus.Some? ==> modulus.value > 0
  {
    if modulus.None? then i * n + j else Numbering.Element(n, 0, modulus.value, i, j)
  }

  ghost predicate AreInputs(inputs: seq<Value>, n: nat) {
    forall i | 0 <= i < |inputs| :: inputs[i].op == Var(Inp(i)) && |inputs[i].value| == n
  }

  ghost predicate AllDifferent(inputs: seq<Value>, n: nat)
    requires AreInputs(inputs, n)
  {
    forall i, j, i', j' | 0 <= i < |inputs| && 0 <= j < n && 0 <= i' < |inputs| && 0 <= j' < n ::
      inputs[i].value[j] == inputs[i'].value[j'] ==> i == i' && j == j'
  }

  /** The inputs. All their elements differ exactly if they are no more than the values of the element type. */
  method GenInputs(n: nat, num: nat, modulus: Option<nat>) returns (inputs: seq<Value>)
    requires modulus.Some? ==> modulus.value > 0
    ensures |inputs| == num && AreInputs(inputs, n)
    ensures forall i, j | 0 <= i < num && 0 <= j < n :: inputs[i].value[j] == Element(n, modulus, i, j) != -1
    ensures AllDifferent(inputs, n) <==> modulus.None? || num * n <= modulus.value
  {
    hide Element;
    inputs := [];
    for i := 0 to num
      invariant |inputs| == i && AreInputs(inputs, n)
      invariant forall i', j | 0 <= i' < i && 0 <= j < n :: inputs[i'].value[j] == Element(n, modulus, i', j)
    {
      var inp: Vec := [];
      for j := 0 to n
        invariant |inp| == j && forall j' | 0 <= j' < j :: inp[j'] == Element(n, modulus, i, j')
      {
        inp := inp + [Element(n, modulus, i, j)];
      }
      inputs := inputs + [Value(Var(Inp(i)), inp)];
    }
    DifferentIffTheyFit(inputs, n, modulus);
  }

  lemma DifferentIffTheyFit(inputs: seq<Value>, n: nat, modulus: Option<nat>)
    requires AreInputs(inputs, n) && (modulus.Some? ==> modulus.value > 0)
    requires forall i, j | 0 <= i < |inputs| && 0 <= j < n :: inputs[i].value[j] == Element(n, modulus, i, j)
    ensures AllDifferent(inputs, n) <==> modulus.None? || |inputs| * n <= modulus.value
  {
    if modulus.Some? {
      var m := modulus.value;
      Numbering.DifferentIffTheyFit(n, 0, m, |inputs|);
      assert forall i, j | 0 <= i < |inputs| && 0 <= j < n :: inputs[i].value[j] == Numbering.Element(n, 0, m, i, j);
      SameDifferences(inputs, n, m);
    } else {
      forall i, j, i', j' | 0 <= i < |inputs| && 0 <= j < n && 0 <= i' < |inputs| && 0 <= j' < n
        ensures inputs[i].value[j] == inputs[i'].value[j'] ==> i == i' && j == j'
      {
        UnreducedDiffer(n, i, j, i', j');
        assert inputs[i].value[j] == Element(n, None, i, j) && inputs[i'].value[j'] == Element(n, None, i', j');
        hide Element;
      }
    }
  }

  lemma SameDifferences(inputs: seq<Value>, n: nat, m: nat)
    requires AreInputs(inputs, n) && m > 0
    requires forall i, j | 0 <= i < |inputs| && 0 <= j < n :: inputs[i].value[j] == Numbering.Element(n, 0, m, i, j)
    ensures AllDifferent(inputs, n) <==> Numbering.AllDifferent(n, 0, m, |inputs|)
  {
    hide Numbering.Element;
    if AllDifferent(inputs, n) {
      forall i, j, i', j' | 0 <= i < |inputs| && 0 <= j < n && 0 <= i' < |inputs| && 0 <= j' < n
        ensures Numbering.Element(n, 0, m, i, j) == Numbering.Element(n, 0, m, i', j') ==> i == i' && j == j'
      {
        assert inputs[i].value[j] == inputs[i'].value[j'] ==> i == i' && j == j';
      }
    }
  }

  lemma UnreducedDiffer(n: nat, i: nat, j: nat, i': nat, j': nat)
    requires j < n && j' < n
    ensures Element(n, None, i, j) == Element(n, None, i', j') ==> i == i' && j == j'
  {
    if i * n + j == i' * n + j' {
      Numbering.PositionUnique(n, i, j, i', j');
    }
  }

  // ----------------------------------------------------------------------------- expected values

  /** ShufInstr.calc_value */
  method CalcShuffle(op0: Vec, op1: Vec, mask: seq<int>) returns (result: Vec)
    requires |op0| == |op1| > 0
    ensures result == ShuffleOf(op0, op1, mask)
  {
    result := [];
    for i := 0 to |mask|
      invariant |result| == i && forall k | 0 <= k < i :: result[k] == ExpectedLane(op0, op1, mask[k])
    {
      var index := mask[i];
      if index < |op0| && index >= 0 {
        result := result + [op0[index]];
      } else if index >= |op0| {
        index := index % |op0|;
        result := result + [op1[index]];
      } else {
        result := result + [-1];
      }
    }
  }

  /** SelectInstr.calc_value */
  method CalcSelect(op0: Vec, op1: Vec, mask: seq<int>) returns (result: Vec)
    requires |op0| == |mask| && |op1| == |mask|
    ensures result == SelectOf(op0, op1, mask)
  {
    result := [];
    for i := 0 to |mask|
      invariant |result| == i
      invariant forall k | 0 <= k < i ::
                  result[k] == if mask[k] == 1 then op0[k] else if mask[k] == 0 then op1[k] else -1
    {
      var index := mask[i];
      if index == 1 {
        result := result + [op0[i]];
      } else if index == 0 {
        result := result + [op1[i]];
      } else {
        result := result + [-1];
      }
    }
  }

  // ------------------------------------------------------------------------------- random choices

  /** A select after the shuffle, merging with an available value or with zeros. */
  datatype Blend = Blend(merge: Option<nat>, mask: seq<int>)

  datatype Turn = Turn(idx0: nat, idx1: nat, mask: seq<int>, blend: Option<Blend>)

  ghost predicate IsTurn(t: Turn, available: nat, n: nat) {
    && t.idx0 < t.idx1 < available && IsShuffleMask(t.mask, n)
    && (t.blend.Some? ==>
          IsSelectMask(t.blend.value.mask, n) &&
          (t.blend.value.merge.Some? ==> t.blend.value.merge.value < available))
  }

  // -------------------------------------------------------------------------------- the generator

  ghost function InputEnv(inputs: seq<Value>): map<Name, Vec> {
    map i | 0 <= i < |inputs| :: Inp(i) := inputs[i].value
  }

  /** The names in use after some turns. */
  ghost predicate InUse(x: Name, num: nat, shufs: nat, sels: nat) {
    match x
    case Inp(i) => i < num
    case Shuf(i) => i < shufs
    case Sel(i) => i < sels
  }

  /** The program runs, and then every available value agrees with what is expected of it. */
  ghost predicate Sound(inputs: seq<Value>, n: nat, insts: seq<Instr<Name>>, available: seq<Value>,
                        shufs: nat, sels: nat, undef: Undef) {
    var r := Run(InputEnv(inputs), n, insts, undef);
    && r.Some?
    && (forall x | x in r.value :: InUse(x, |inputs|, shufs, sels))
    && (forall v | v in available :: Knows(r.value, n, v.op, v.value, None))
  }

  /** ... whatever undef becomes. */
  ghost predicate AlwaysSound(inputs: seq<Value>, n: nat, insts: seq<Instr<Name>>, available: seq<Value>,
                              shufs: nat, sels: nat) {
    forall undef: Undef :: Sound(inputs, n, insts, available, shufs, sels, undef)
  }

  lemma ZeroIsKnown(env: map<Name, Vec>, n: nat)
    ensures Knows(env, n, Zero, Zeros(n), None)
  {
  }

  lemma NothingRun(inputs: seq<Value>, n: nat, undef: Undef)
    requires AreInputs(inputs, n)
    ensures Sound(inputs, n, [], inputs, 0, 0, undef)
  {
  }

  /** The value that an instruction on these operands is expected to have. */
  ghost function ValueOf(inst: Instr<Name>, a: Vec, b: Vec, n: nat): Vec
    requires |a| == |b| == n > 0 && IsMask(inst, n)
  {
    if inst.Shuffle? then ShuffleOf(a, b, inst.mask) else SelectOf(a, b, inst.mask)
  }

  /** A new instruction on known operands is sound. */
  lemma OneMoreInstr(inputs: seq<Value>, n: nat, insts: seq<Instr<Name>>, available: seq<Value>, shufs: nat, sels: nat,
                     undef: Undef, inst: Instr<Name>, a: Value, b: Value)
    requires Sound(inputs, n, insts, available, shufs, sels, undef)
    requires (a in available || a == Value(Zero, Zeros(n))) && (b in available || b == Value(Zero, Zeros(n)))
    requires inst.op0 == a.op && inst.op1 == b.op && n > 0 && IsMask(inst, n) && |a.value| == |b.value| == n
    requires if inst.Shuffle? then inst.name == Shuf(shufs) else inst.name.Sel? && inst.name.index >= sels
    ensures Sound(inputs, n, insts + [inst], available + [Value(Var(inst.name), ValueOf(inst, a.value, b.value, n))],
              if inst.Shuffle? then shufs + 1 else shufs, if inst.Shuffle? then sels else inst.name.index + 1, undef)
  {
    var env := Run(InputEnv(inputs), n, insts, undef).value;
    ZeroIsKnown(env, n);
    assert inst.name !in env;
    hide Run, Execute, Knows, IsMask, ShuffleOf, SelectOf;
    if inst.Shuffle? {
      ShuffleAgrees(env, n, inst, |insts|, undef, a.value, b.value, None);
    } else {
      SelectAgrees(env, n, inst, |insts|, undef, a.value, b.value);
    }
    RunMore(InputEnv(inputs), n, insts, inst, undef);
    var v := Execute(env, n, inst, |insts|, undef).value;
    NowKnown(env, n, inst.name, v, ValueOf(inst, a.value, b.value, n), None);
    forall w | w in available ensures Knows(env[inst.name := v], n, w.op, w.value, None) {
      StillKnows(env, n, inst.name, v, w.op, w.value, None);
    }
  }

  lemma OneMoreAlways(inputs: seq<Value>, n: nat, insts: seq<Instr<Name>>, available: seq<Value>, shufs: nat, sels: nat,
                      inst: Instr<Name>, a: Value, b: Value, shufs': nat, sels': nat)
    requires AlwaysSound(inputs, n, insts, available, shufs, sels)
    requires (a in available || a == Value(Zero, Zeros(n))) && (b in available || b == Value(Zero, Zeros(n)))
    requires inst.op0 == a.op && inst.op1 == b.op && n > 0 && IsMask(inst, n) && |a.value| == |b.value| == n
    requires if inst.Shuffle? then inst.name == Shuf(shufs) else inst.name.Sel? && inst.name.index >= sels
    requires if inst.Shuffle? then shufs' == shufs + 1 && sels' == sels
             else shufs' == shufs && sels' == inst.name.index + 1
    ensures AlwaysSound(inputs, n, insts + [inst],
              available + [Value(Var(inst.name), ValueOf(inst, a.value, b.value, n))], shufs', sels')
  {
    hide Sound, IsMask, ValueOf;
    var available' := available + [Value(Var(inst.name), ValueOf(inst, a.value, b.value, n))];
    forall undef: Undef ensures Sound(inputs, n, insts + [inst], available', shufs', sels', undef) {
      OneMoreInstr(inputs, n, insts, available, shufs, sels, undef, inst, a, b);
    }
  }

  lemma FewerAvailable(inputs: seq<Value>, n: nat, insts: seq<Instr<Name>>, available: seq<Value>, fewer: seq<Value>,
                       shufs: nat, sels: nat)
    requires AlwaysSound(inputs, n, insts, available, shufs, sels)
    requires forall v | v in fewer :: v in available
    ensures AlwaysSound(inputs, n, insts, fewer, shufs, sels)
  {
    forall undef: Undef ensures Sound(inputs, n, insts, fewer, shufs, sels, undef) {
      assert Sound(inputs, n, insts, available, shufs, sels, undef);
    }
  }

  function Without(s: seq<Value>, i: nat): (r: seq<Value>)
    requires i < |s|
    ensures |r| == |s| - 1 && forall k | 0 <= k < |r| :: r[k] == if k < i then s[k] else s[k + 1]
  {
    s[..i] + s[i + 1..]
  }

  // ----------------------------------------------------------------- what the choices make of the inputs

  ghost predicate AreVectors(values: seq<Value>, n: nat) {
    forall k | 0 <= k < |values| :: |values[k].value| == n && values[k].op.Var?
  }

  /** The instructions of turn number k: a shuffle, and a select if there is a blend. */
  ghost function TurnInsts(available: seq<Value>, n: nat, t: Turn, k: nat): (r: seq<Instr<Name>>)
    requires IsTurn(t, |available|, n)
    ensures |r| == if t.blend.Some? then 2 else 1
  {
    var shuffle := Shuffle(Shuf(k), available[t.idx0].op, available[t.idx1].op, t.mask);
    if t.blend.None? then [shuffle]
    else
      var merge := t.blend.value.merge;
      [shuffle, Select(Sel(k), Var(Shuf(k)), if merge.Some? then available[merge.value].op else Zero, t.blend.value.mask)]
  }

  /** The value that turn number k makes. */
  ghost function TurnValue(available: seq<Value>, n: nat, t: Turn, k: nat): (r: Value)
    requires n > 0 && IsTurn(t, |available|, n) && AreVectors(available, n)
    ensures |r.value| == n && r.op == Var(if t.blend.Some? then Sel(k) else Shuf(k))
  {
    var shuffled := ShuffleOf(available[t.idx0].value, available[t.idx1].value, t.mask);
    if t.blend.None? then Value(Var(Shuf(k)), shuffled)
    else
      var merge := t.blend.value.merge;
      var other := if merge.Some? then available[merge.value].value else Zeros(n);
      Value(Var(Sel(k)), SelectOf(shuffled, other, t.blend.value.mask))
  }

  /** The values that are available after it: the two operands of the shuffle are used up. */
  ghost function TurnLeft(available: seq<Value>, n: nat, t: Turn, k: nat): (r: seq<Value>)
    requires n > 0 && IsTurn(t, |available|, n) && AreVectors(available, n)
    ensures |r| == |available| - 1 && AreVectors(r, n)
  {
    Without(Without(available + [TurnValue(available, n, t, k)], t.idx1), t.idx0)
  }

  /** A turn uses up the two operands of its shuffle, adds its own value at the end, and changes nothing else. */
  lemma TurnLeftIs(available: seq<Value>, n: nat, t: Turn, k: nat)
    requires n > 0 && IsTurn(t, |available|, n) && AreVectors(available, n)
    ensures TurnLeft(available, n, t, k) ==
              available[..t.idx0] + available[t.idx0 + 1..t.idx1] + available[t.idx1 + 1..] + [TurnValue(available, n, t, k)]
    ensures multiset(TurnLeft(available, n, t, k)) + multiset{available[t.idx0], available[t.idx1]} ==
              multiset(available) + multiset{TurnValue(available, n, t, k)}
  {
    var a, b, c, v := available[..t.idx0], available[t.idx0 + 1..t.idx1], available[t.idx1 + 1..], TurnValue(available, n, t, k);
    var x, y := available[t.idx0], available[t.idx1];
    LeftIs(available, t.idx0, t.idx1, v);
    assert available == a + [x] + b + [y] + c;
    hide *;
    assert multiset(a + [x] + b + [y] + c) == multiset(a) + multiset{x} + multiset(b) + multiset{y} + multiset(c);
    assert multiset(a + b + c + [v]) == multiset(a) + multiset(b) + multiset(c) + multiset{v};
  }

  lemma LeftIs(available: seq<Value>, i: nat, j: nat, v: Value)
    requires i < j < |available|
    ensures Without(Without(available + [v], j), i) == available[..i] + available[i + 1..j] + available[j + 1..] + [v]
  {
  }

  ghost predicate AreTurns(turns: seq<Turn>, available: nat, n: nat) {
    |turns| < available && forall k | 0 <= k < |turns| :: IsTurn(turns[k], available - k, n)
  }

  /** The values available after all turns, and the instructions made. */
  ghost function Left(start: seq<Value>, n: nat, turns: seq<Turn>): (r: seq<Value>)
    requires n > 0 && AreTurns(turns, |start|, n) && AreVectors(start, n)
    ensures |r| == |start| - |turns| && AreVectors(r, n)
  {
    if |turns| == 0 then start
    else TurnLeft(Left(start, n, turns[..|turns| - 1]), n, turns[|turns| - 1], |turns| - 1)
  }

  ghost function Made(start: seq<Value>, n: nat, turns: seq<Turn>): seq<Instr<Name>>
    requires n > 0 && AreTurns(turns, |start|, n) && AreVectors(start, n)
  {
    if |turns| == 0 then []
    else
      var k := |turns| - 1;
      Made(start, n, turns[..k]) + TurnInsts(Left(start, n, turns[..k]), n, turns[k], k)
  }

  /** The number of turns with a select. */
  ghost function Blends(turns: seq<Turn>): nat {
    if |turns| == 0 then 0
    else Blends(turns[..|turns| - 1]) + if turns[|turns| - 1].blend.Some? then 1 else 0
  }

  /** One shuffle per turn, and one select per blend; the last one makes the value that is left. */
  lemma {:induction false} MadeSize(start: seq<Value>, n: nat, turns: seq<Turn>)
    requires n > 0 && AreTurns(turns, |start|, n) && AreVectors(start, n)
    ensures |Made(start, n, turns)| == |turns| + Blends(turns)
    ensures |turns| > 0 ==>
              var k := |turns| - 1;
              var r := Left(start, n, turns);
              r[|r| - 1] == TurnValue(Left(start, n, turns[..k]), n, turns[k], k)
  {
    hide TurnValue, TurnInsts, TurnLeft, IsTurn, Made, Left;
    if |turns| == 0 {
      NothingMade(start, n, turns);
    } else {
      var k := |turns| - 1;
      assert turns[..k + 1] == turns;
      TurnStep(start, n, turns, k);
      MadeSize(start, n, turns[..k]);
      NewIsLast(Left(start, n, turns[..k]), n, turns[k], k);
    }
  }

  lemma NothingMade(start: seq<Value>, n: nat, turns: seq<Turn>)
    requires n > 0 && AreTurns(turns, |start|, n) && AreVectors(start, n) && |turns| == 0
    ensures Made(start, n, turns) == [] && Blends(turns) == 0
  {
  }

  lemma NewIsLast(available: seq<Value>, n: nat, t: Turn, k: nat)
    requires n > 0 && IsTurn(t, |available|, n) && AreVectors(available, n)
    ensures var r := TurnLeft(available, n, t, k); |r| > 0 && r[|r| - 1] == TurnValue(available, n, t, k)
  {
    hide TurnValue;
    TurnLeftIs(available, n, t, k);
  }

  /** No lane of any mask is undef. */
  ghost predicate NoUndef(turns: seq<Turn>) {
    forall k | 0 <= k < |turns| ::
      Unmarked(turns[k].mask) && (turns[k].blend.Some? ==> Unmarked(turns[k].blend.value.mask))
  }

  ghost predicate AllUnmarked(values: seq<Value>) {
    forall k | 0 <= k < |values| :: Unmarked(values[k].value)
  }

  /** If no lane of the inputs is marked and none of the masks is undef, every lane is checked. */
  lemma {:induction false} NothingIsMarked(start: seq<Value>, n: nat, turns: seq<Turn>)
    requires n > 0 && AreTurns(turns, |start|, n) && AreVectors(start, n)
    requires AllUnmarked(start) && NoUndef(turns)
    ensures AllUnmarked(Left(start, n, turns))
  {
    if |turns| > 0 {
      var k := |turns| - 1;
      NothingIsMarked(start, n, turns[..k]);
      TurnIsUnmarked(Left(start, n, turns[..k]), n, turns[k], k);
    }
  }

  lemma TurnIsUnmarked(available: seq<Value>, n: nat, t: Turn, k: nat)
    requires n > 0 && IsTurn(t, |available|, n) && AreVectors(available, n) && AllUnmarked(available)
    requires Unmarked(t.mask) && (t.blend.Some? ==> Unmarked(t.blend.value.mask))
    ensures AllUnmarked(TurnLeft(available, n, t, k))
  {
    var a, b := available[t.idx0].value, available[t.idx1].value;
    ShuffleIsUnmarked(a, b, t.mask);
    var v := TurnValue(available, n, t, k);
    if t.blend.Some? {
      var mask, merge := t.blend.value.mask, t.blend.value.merge;
      var other := if merge.Some? then available[merge.value].value else Zeros(n);
      var selected := SelectOf(ShuffleOf(a, b, t.mask), other, mask);
      forall i | 0 <= i < n ensures selected[i] != -1 {
        assert mask[i] == 0 || mask[i] == 1;
        assert ShuffleOf(a, b, t.mask)[i] != -1 && other[i] != -1;
      }
    }
    assert AllUnmarked(available + [v]);
  }

  lemma ShuffleIsUnmarked(a: Vec, b: Vec, mask: seq<int>)
    requires |a| == |b| > 0 && Unmarked(a) && Unmarked(b) && IsShuffleMask(mask, |a|) && Unmarked(mask)
    ensures Unmarked(ShuffleOf(a, b, mask))
  {
    forall i | 0 <= i < |mask| ensures ExpectedLane(a, b, mask[i]) != -1 {
      assert mask[i] != -1;
      if mask[i] >= |a| {
        SecondOperand(mask[i], |a|);
      }
    }
  }

  // -------------------------------------------------------------------------------- the generator

  /** One turn of the generator: a shuffle of two available values, perhaps with a select after it. */
  method TakeTurn(ghost start: seq<Value>, n: nat, t: Turn, before: seq<Instr<Name>>, available: seq<Value>, nameIdx: nat,
                  ghost sels: nat)
    returns (insts: seq<Instr<Name>>, inputs: seq<Value>, ghost sels': nat)
    requires n > 0 && IsTurn(t, |available|, n) && sels <= nameIdx && AreVectors(available, n)
    requires AlwaysSound(start, n, before, available, nameIdx, sels)
    ensures insts == before + TurnInsts(available, n, t, nameIdx) && inputs == TurnLeft(available, n, t, nameIdx)
    ensures sels' <= nameIdx + 1 && AlwaysSound(start, n, insts, inputs, nameIdx + 1, sels')
  {
    hide AlwaysSound;
    var op0, op1 := available[t.idx0], available[t.idx1];
    var shuffled := CalcShuffle(op0.value, op1.value, t.mask);
    var shuffle := Shuffle(Shuf(nameIdx), op0.op, op1.op, t.mask);
    var shuffleValue := Value(Var(shuffle.name), shuffled);
    insts := before + [shuffle];
    OneMoreAlways(start, n, before, available, nameIdx, sels, shuffle, op0, op1, nameIdx + 1, sels);
    inputs, sels' := available + [shuffleValue], sels;
    if t.blend.Some? {
      var merge := t.blend.value.merge;
      var op2 := if merge.Some? then available[merge.value] else Value(Zero, Zeros(n));
      var selected := CalcSelect(shuffled, op2.value, t.blend.value.mask);
      var select := Select(Sel(nameIdx), shuffleValue.op, op2.op, t.blend.value.mask);
      var selectValue := Value(Var(select.name), selected);
      ghost var both := available + [shuffleValue] + [selectValue];
      OneMoreAlways(start, n, insts, available + [shuffleValue], nameIdx + 1, sels, select, shuffleValue, op2,
                    nameIdx + 1, nameIdx + 1);
      insts := insts + [select];
      inputs, sels' := available + [selectValue], nameIdx + 1;
      FewerAvailable(start, n, insts, both, inputs, nameIdx + 1, sels');
    }
    ghost var all := inputs;
    inputs := Without(Without(inputs, t.idx1), t.idx0);
    FewerAvailable(start, n, insts, all, inputs, nameIdx + 1, sels');
  }

  lemma TurnStep(start: seq<Value>, n: nat, turns: seq<Turn>, k: nat)
    requires n > 0 && AreTurns(turns, |start|, n) && AreVectors(start, n) && k < |turns|
    ensures AreTurns(turns[..k], |start|, n) && AreTurns(turns[..k + 1], |start|, n)
    ensures |Left(start, n, turns[..k])| == |start| - k && IsTurn(turns[k], |start| - k, n)
    ensures Left(start, n, turns[..k + 1]) == TurnLeft(Left(start, n, turns[..k]), n, turns[k], k)
    ensures Made(start, n, turns[..k + 1]) ==
              Made(start, n, turns[..k]) + TurnInsts(Left(start, n, turns[..k]), n, turns[k], k)
  {
    assert turns[..k + 1][..k] == turns[..k];
  }

  lemma NoTurns(start: seq<Value>, n: nat)
    requires n > 0 && |start| > 0 && AreInputs(start, n)
    ensures AreVectors(start, n) && AreTurns([], |start|, n) && Left(start, n, []) == start && Made(start, n, []) == []
    ensures AlwaysSound(start, n, [], start, 0, 0)
  {
    forall undef: Undef ensures Sound(start, n, [], start, 0, 0, undef) {
      NothingRun(start, n, undef);
    }
  }

  /** The program of the generator runs, and the given value agrees with what is expected of it, whatever undef becomes. */
  ghost predicate ComputesExpected(start: seq<Value>, n: nat, insts: seq<Instr<Name>>, v: Value) {
    v.op.Var? && forall undef: Undef ::
      var r := Run(InputEnv(start), n, insts, undef);
      r.Some? && v.op.name in r.value && Agrees(v.value, r.value[v.op.name], None)
  }

  lemma SoundComputes(start: seq<Value>, n: nat, insts: seq<Instr<Name>>, inputs: seq<Value>, shufs: nat, sels: nat)
    requires AlwaysSound(start, n, insts, inputs, shufs, sels) && |inputs| == 1 && inputs[0].op.Var?
    ensures ComputesExpected(start, n, insts, inputs[0])
  {
    forall undef: Undef
      ensures var r := Run(InputEnv(start), n, insts, undef);
              r.Some? && inputs[0].op.name in r.value && Agrees(inputs[0].value, r.value[inputs[0].op.name], None)
    {
      assert Sound(start, n, insts, inputs, shufs, sels, undef);
      assert inputs[0] in inputs;
    }
  }

  /**
    The generator: the choices determine the instructions and the one value that is left, which the
    last instruction makes; and whatever undef becomes, the program runs (so operands are defined
    before they are used, and no name is defined twice) and that value agrees with its expectation.
    Without undef in the masks, all of its lanes are expected to have a value.
   */
  method GenInsts(start: seq<Value>, n: nat, turns: seq<Turn>) returns (insts: seq<Instr<Name>>, inputs: seq<Value>)
    requires n > 0 && |start| > 0 && AreInputs(start, n) && |turns| == |start| - 1 && AreTurns(turns, |start|, n)
    ensures AreVectors(start, n) && insts == Made(start, n, turns) && inputs == Left(start, n, turns)
    ensures |insts| == |turns| + Blends(turns) && |inputs| == 1
    ensures |turns| > 0 ==>
              inputs[0].op == Var(if turns[|turns| - 1].blend.Some? then Sel(|turns| - 1) else Shuf(|turns| - 1))
    ensures ComputesExpected(start, n, insts, inputs[0])
    ensures AllUnmarked(start) && NoUndef(turns) ==> Unmarked(inputs[0].value)
  {
    hide AlwaysSound, TurnInsts, TurnLeft, Left, Made, AreTurns, IsTurn, AllUnmarked, NoUndef, ComputesExpected;
    insts, inputs := [], start;
    var nameIdx: nat := 0;
    ghost var sels: nat := 0;
    NoTurns(start, n);
    assert turns[..0] == [];
    while |inputs| > 1
      invariant nameIdx < |start| && |inputs| == |start| - nameIdx && sels <= nameIdx && AreVectors(inputs, n)
      invariant nameIdx <= |turns| && AreTurns(turns[..nameIdx], |start|, n)
      invariant inputs == Left(start, n, turns[..nameIdx]) && insts == Made(start, n, turns[..nameIdx])
      invariant AlwaysSound(start, n, insts, inputs, nameIdx, sels)
    {
      TurnStep(start, n, turns, nameIdx);
      insts, inputs, sels := TakeTurn(start, n, turns[nameIdx], insts, inputs, nameIdx, sels);
      nameIdx := nameIdx + 1;
    }
    assert turns[..nameIdx] == turns;
    MadeSize(start, n, turns);
    LastIsMade(start, n, turns);
    SoundComputes(start, n, insts, inputs, nameIdx, sels);
    if AllUnmarked(start) && NoUndef(turns) {
      NothingIsMarked(start, n, turns);
      UnmarkedAt(inputs, 0);
    }
  }

  lemma UnmarkedAt(values: seq<Value>, k: nat)
    requires AllUnmarked(values) && k < |values|
    ensures Unmarked(values[k].value)
  {
  }

  /** The last value left is the one that the last turn makes. */
  lemma LastIsMade(start: seq<Value>, n: nat, turns: seq<Turn>)
    requires n > 0 && AreTurns(turns, |start|, n) && AreVectors(start, n)
    ensures |turns| > 0 ==>
              var r := Left(start, n, turns);
              r[|r| - 1].op == Var(if turns[|turns| - 1].blend.Some? then Sel(|turns| - 1) else Shuf(|turns| - 1))
  {
    if |turns| > 0 {
      MadeSize(start, n, turns);
    }
  }
}
