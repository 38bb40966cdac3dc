/**
  Model of llvm/utils/reduce_pipeline.py: reducing a failing 'opt' pipeline in three steps. 'opt' is
  an unknown deterministic function of the printed pipeline and the contents of its input file.
 */
module ReducePipeline {
  import opened Wrappers
  import opened Pipeline

  type Path = string
  type Ir = string

  // -------------------------------------------------------------------------------- subsequences

  ghost predicate Subsequence(a: seq<Tagged>, b: seq<Tagged>) {
    a == [] || (b != [] && ((a[0] == b[0] && Subsequence(a[1..], b[1..])) || Subsequence(a, b[1..])))
  }

  lemma {:induction false} SubsequenceWiden(a: seq<Tagged>, pre: seq<Tagged>, b: seq<Tagged>)
    requires Subsequence(a, b)
    ensures Subsequence(a, pre + b)
  {
    if pre == [] {
      assert pre + b == b;
    } else {
      SubsequenceWiden(a, pre[1..], b);
      assert (pre + b)[1..] == pre[1..] + b;
    }
  }

  lemma {:induction false} SubsequenceTail(a: seq<Tagged>, b: seq<Tagged>)
    requires a != [] && Subsequence(a, b)
    ensures Subsequence(a[1..], b)
  {
    if a[0] == b[0] && Subsequence(a[1..], b[1..]) {
      SubsequenceWiden(a[1..], [b[0]], b[1..]);
      assert [b[0]] + b[1..] == b;
    } else {
      SubsequenceTail(a, b[1..]);
      SubsequenceWiden(a[1..], [b[0]], b[1..]);
      assert [b[0]] + b[1..] == b;
    }
  }

  lemma {:induction false} SubsequenceTransitive(a: seq<Tagged>, b: seq<Tagged>, c: seq<Tagged>)
    requires Subsequence(a, b) && Subsequence(b, c)
    ensures Subsequence(a, c)
    decreases |c|
  {
    if a != [] {
      if b[0] == c[0] && Subsequence(b[1..], c[1..]) {
        if a[0] == b[0] && Subsequence(a[1..], b[1..]) {
          SubsequenceTransitive(a[1..], b[1..], c[1..]);
        } else {
          SubsequenceTransitive(a, b[1..], c[1..]);
        }
      } else {
        SubsequenceTransitive(a, b, c[1..]);
      }
    }
  }

  lemma {:induction false} SubsequenceConcat(a: seq<Tagged>, b: seq<Tagged>, c: seq<Tagged>)
    requires Subsequence(b, c)
    ensures Subsequence(a + b, a + c)
  {
    if a == [] {
      assert a + b == b && a + c == c;
    } else {
      SubsequenceConcat(a[1..], b, c);
      assert (a + b)[1..] == a[1..] + b && (a + c)[1..] == a[1..] + c;
    }
  }

  /** Removing a block of passes. */
  lemma SubsequenceWithout(ts: seq<Tagged>, i: nat, j: nat)
    requires i <= j <= |ts|
    ensures Subsequence(ts[..i] + ts[j..], ts)
  {
    hide Subsequence;
    assert ts[i..][j - i..] == ts[j..] && ts[..i] + ts[i..] == ts;
    SubsequenceSuffix(ts[i..], j - i);
    SubsequenceConcat(ts[..i], ts[j..], ts[i..]);
  }

  lemma SubsequenceSuffix(ts: seq<Tagged>, j: nat)
    requires j <= |ts|
    ensures Subsequence(ts[j..], ts)
  {
    hide Subsequence;
    assert ts[..j] + ts[j..] == ts;
    SubsequenceSame(ts[j..]);
    SubsequenceWiden(ts[j..], ts[..j], ts[j..]);
  }

  lemma {:induction false} SubsequenceSame(ts: seq<Tagged>)
    ensures Subsequence(ts, ts)
  {
    if ts != [] {
      SubsequenceSame(ts[1..]);
    }
  }

  // -------------------------------------------------------------------------------- the reducer

  /** The runs of 'opt'. An absent input file is None. */
  datatype Opt = Opt(
    exitCode: (string, Option<Ir>) -> int,             // -disable-output
    exitCodeWriting: (string, Option<Ir>) -> int,      // -S -o FILE
    output: (string, Option<Ir>) -> Ir,                // what a successful run writes
    leftover: (string, Option<Ir>, Option<Ir>) -> Option<Ir>) // what a failing run leaves in FILE

  /** The contents of a file; an absent one is None. */
  function Read(files: map<Path, Ir>, path: Path): Option<Ir> {
    if path in files then Some(files[path]) else None
  }

  class Reducer {
    const opt: Opt
    const removeEmptyManagers: bool
    const intermediate0: Path
    const intermediate1: Path
    var files: map<Path, Ir>
    var lst: Pipe
    var llInput: Path
    var expected: int

    constructor (opt: Opt, removeEmptyManagers: bool, intermediate0: Path, intermediate1: Path,
                 files: map<Path, Ir>, lst: Pipe, llInput: Path)
      ensures this.opt == opt && this.removeEmptyManagers == removeEmptyManagers
      ensures this.intermediate0 == intermediate0 && this.intermediate1 == intermediate1
      ensures this.files == files && this.lst == lst && this.llInput == llInput
    {
      this.opt, this.removeEmptyManagers := opt, removeEmptyManagers;
      this.intermediate0, this.intermediate1 := intermediate0, intermediate1;
      this.files, this.lst, this.llInput, this.expected := files, lst, llInput, 0;
    }

    /** The intermediate files are two files of their own, in a fresh directory. */
    ghost predicate Valid()
      reads this
    {
      && WellFormed(lst)
      && intermediate0 != intermediate1 && llInput != intermediate0 && llInput != intermediate1
    }

    ghost function Cleaned(p: Pipe): Pipe {
      if removeEmptyManagers then Prune(p) else p
    }

    /** The passes up to and including position i; the passes after it; all passes but it. */
    ghost function Front(p: Pipe, i: nat): Pipe { Cleaned(Select(p, 0, UpTo(i))) }
    ghost function Back(p: Pipe, i: nat): Pipe { Cleaned(Select(p, 0, After(i))) }
    ghost function Without(p: Pipe, i: nat): Pipe { Cleaned(Select(p, 0, Except(i))) }

    lemma CutPasses(p: Pipe, i: nat)
      requires WellFormed(p)
      ensures WellFormed(Front(p, i)) && WellFormed(Back(p, i))
      ensures i < Count(p) ==> Passes(Front(p, i), []) == Passes(p, [])[..i + 1]
      ensures i < Count(p) ==> Passes(Back(p, i), []) == Passes(p, [])[i + 1..]
      ensures removeEmptyManagers ==> NoEmptyManager(Front(p, i)) && NoEmptyManager(Back(p, i))
      ensures !removeEmptyManagers ==> Join(Front(p, i), Back(p, i)) == p
    {
      JoinSplit(p, 0, i);
      SplitDivides(p, i);
      SelectWellFormed(p, 0, UpTo(i));
      SelectWellFormed(p, 0, After(i));
      CleanedKeeps(Select(p, 0, UpTo(i)));
      CleanedKeeps(Select(p, 0, After(i)));
    }

    lemma WithoutPasses(p: Pipe, i: nat)
      requires WellFormed(p)
      ensures WellFormed(Without(p, i))
      ensures Passes(Without(p, i), []) ==
              if i < Count(p) then Passes(p, [])[..i] + Passes(p, [])[i + 1..] else Passes(p, [])
      ensures removeEmptyManagers ==> NoEmptyManager(Without(p, i))
    {
      RemoveDeletes(p, i);
      SelectWellFormed(p, 0, Except(i));
      CleanedKeeps(Select(p, 0, Except(i)));
    }

    lemma CleanedKeeps(p: Pipe)
      requires WellFormed(p)
      ensures WellFormed(Cleaned(p)) && Passes(Cleaned(p), []) == Passes(p, [])
      ensures removeEmptyManagers ==> NoEmptyManager(Cleaned(p))
    {
      PruneWellFormed(p);
      PruneKeepsPasses(p, []);
    }

    ghost predicate Reproduces(p: Pipe, input: Option<Ir>, code: int)
    {
      opt.exitCode(Print(p), input) == code
    }

    /** Printing never fails on the pipelines that the reducer runs. */
    method PassesText(p: Pipe) returns (text: string)
      requires WellFormed(p)
      ensures text == Print(p)
    {
      WellFormedIsNamed(p);
      var r := ToStr(p);
      return r.value;
    }

    lemma CutsAreNamed(p: Pipe, i: nat)
      requires WellFormed(p)
      ensures Named(p) && Named(Select(p, 0, UpTo(i))) && Named(Select(p, 0, After(i))) && Named(Select(p, 0, Except(i)))
    {
      hide Select;
      SelectWellFormed(p, 0, UpTo(i));
      SelectWellFormed(p, 0, After(i));
      SelectWellFormed(p, 0, Except(i));
      WellFormedIsNamed(p);
      WellFormedIsNamed(Select(p, 0, UpTo(i)));
      WellFormedIsNamed(Select(p, 0, After(i)));
      WellFormedIsNamed(Select(p, 0, Except(i)));
    }

    // ------------------------------------------------------------------------------- step 0

    method Step0() returns (ok: bool)
      requires WellFormed(lst)
      modifies this`expected
      ensures ok ==> expected < 0 && Reproduces(lst, Read(files, llInput), expected)
      ensures !ok ==> opt.exitCode(Print(lst), Read(files, llInput)) >= 0
    {
      var passes := PassesText(lst);
      var returncode := opt.exitCode(passes, Read(files, llInput));
      expected := returncode;
      return returncode < 0;
    }

    // ------------------------------------------------------------------------------- step 1

    /** What a successful run of the front part writes. */
    ghost function FrontOutput(p: Pipe, input: Option<Ir>, i: nat): Option<Ir> {
      Some(opt.output(Print(Front(p, i)), input))
    }

    ghost predicate FrontSucceeds(p: Pipe, input: Option<Ir>, i: nat) {
      opt.exitCodeWriting(Print(Front(p, i)), input) == 0
    }

    /** Running the front part succeeds, and the back part then fails as expected. */
    ghost predicate SplitWorks(p: Pipe, input: Option<Ir>, code: int, i: nat)
    {
      && FrontSucceeds(p, input, i)
      && Reproduces(Back(p, i), FrontOutput(p, input, i), code)
    }

    lemma SplitReproduces(p: Pipe, input: Option<Ir>, i: nat)
      requires WellFormed(p) && SplitWorks(p, input, expected, i)
      ensures WellFormed(Back(p, i)) && Reproduces(Back(p, i), FrontOutput(p, input, i), expected)
    {
      CutPasses(p, i);
    }

    /** The number of leading split points that work. */
    ghost predicate IsLead(p: Pipe, input: Option<Ir>, code: int, m: nat) {
      && m <= Count(p) && (forall k | 0 <= k < m :: SplitWorks(p, input, code, k))
      && (m < Count(p) ==> !SplitWorks(p, input, code, m))
    }

    /** How many passes step 1 takes off: those up to the last of these split points, unless nothing is left then. */
    ghost function TakenOff(p: Pipe, m: nat): nat {
      if m > 0 && |Back(p, m - 1)| > 0 then m else 0
    }

    /** The pipeline, and its input, when n passes are taken off. */
    ghost function Rest(p: Pipe, n: nat): Pipe {
      if n > 0 then Back(p, n - 1) else p
    }

    ghost function RestInput(p: Pipe, input: Option<Ir>, n: nat): Option<Ir> {
      if n > 0 then FrontOutput(p, input, n - 1) else input
    }

    /** Runs 'opt' with an output file, which it writes if it succeeds. */
    method RunWriting(passes: string, input: Path, intermediate: Path) returns (returncode: int)
      modifies this`files
      ensures returncode == opt.exitCodeWriting(passes, Read(old(files), input))
      ensures forall path | path != intermediate :: Read(files, path) == Read(old(files), path)
      ensures returncode == 0 ==> Read(files, intermediate) == Some(opt.output(passes, Read(old(files), input)))
    {
      var source := Read(files, input);
      returncode := opt.exitCodeWriting(passes, source);
      var result := if returncode == 0 then Some(opt.output(passes, source))
                    else opt.leftover(passes, source, Read(files, intermediate));
      match result
      case Some(ir) => files := files[intermediate := ir];
      case None => files := files - {intermediate};
    }

    /** The two intermediate files are used in turn. */
    function Intermediate(idx: nat): Path {
      if idx % 2 != 0 then intermediate0 else intermediate1
    }

    lemma IntermediatesAlternate(idx: nat)
      requires Valid()
      ensures Intermediate(idx) != llInput
      ensures idx > 0 ==> Intermediate(idx) != Intermediate(idx - 1)
    {
    }

    /** One split point: runs the front part into the intermediate file, and the back part on it. */
    method TrySplit(idx: nat, intermediate: Path) returns (lstB: Pipe, works: bool)
      requires intermediate != llInput && WellFormed(lst)
      modifies this`files
      ensures lstB == Back(lst, idx) && works == SplitWorks(lst, Read(files, llInput), expected, idx)
      ensures forall path | path != intermediate :: Read(files, path) == Read(old(files), path)
      ensures works ==> Read(files, intermediate) == FrontOutput(lst, Read(files, llInput), idx)
    {
      hide Pipeline.Print, Pipeline.Select, Pipeline.Prune, Pipeline.WellFormed, Pipeline.Named, Passes, Read;
      CutsAreNamed(lst, idx);
      CutPasses(lst, idx);
      var lstA;
      lstA, lstB := Split(lst, idx);
      if removeEmptyManagers {
        lstA := PruneInt(lstA);
        lstB := PruneInt(lstB);
      }
      var passesA := PassesText(lstA);
      var codeA := RunWriting(passesA, llInput, intermediate);
      var passesB := PassesText(lstB);
      var codeB := opt.exitCode(passesB, Read(files, intermediate));
      works := codeA == 0 && codeB == expected;
    }

    /**
      Moves the split point forward over the leading split points that work, and goes on with the
      last back part and the intermediate file it was run on. An empty back part is not adopted.
     */
    method Step1() returns (ghost m: nat)
      requires Valid() && Reproduces(lst, Read(files, llInput), expected)
      modifies this`files, this`lst, this`llInput
      ensures WellFormed(lst) && Reproduces(lst, Read(files, llInput), expected)
      ensures IsLead(old(lst), Read(old(files), old(llInput)), expected, m)
      ensures lst == Rest(old(lst), TakenOff(old(lst), m))
      ensures Read(files, llInput) == RestInput(old(lst), Read(old(files), old(llInput)), TakenOff(old(lst), m))
      ensures TakenOff(old(lst), m) == 0 ==> llInput == old(llInput)
    {
      hide Pipeline.Print, Pipeline.WellFormed, SplitWorks, FrontOutput, Back, Reproduces, Read, Intermediate;
      ghost var input := Read(files, llInput);
      WellFormedIsNamed(lst);
      var prevLstB: Option<Pipe> := None;
      var prevIntermediate: Path := "";
      var cnt := CountPasses(lst);
      var idx := 0;
      while idx < cnt
        modifies this`files
        invariant Read(files, llInput) == input
        invariant 0 <= idx <= cnt == Count(lst)
        invariant forall k | 0 <= k < idx :: SplitWorks(lst, input, expected, k)
        invariant prevLstB.Some? <==> idx > 0
        invariant idx > 0 ==>
                    && prevLstB == Some(Back(lst, idx - 1))
                    && prevIntermediate == Intermediate(idx - 1)
                    && Read(files, prevIntermediate) == FrontOutput(lst, input, idx - 1)
      {
        var intermediate := Intermediate(idx);
        IntermediatesAlternate(idx);
        var lstB, works := TrySplit(idx, intermediate);
        if !works {
          break;
        }
        prevLstB := Some(lstB);
        prevIntermediate := intermediate;
        idx := idx + 1;
      }
      m := idx;
      if prevLstB.Some? && |prevLstB.value| > 0 {
        SplitReproduces(lst, input, m - 1);
        lst := prevLstB.value;
        llInput := prevIntermediate;
      }
    }

    // ------------------------------------------------------------------------------- step 2

    /** Step 2 never proposes the empty pipeline. */
    lemma FrontIsNotEmpty(p: Pipe, i: nat)
      requires WellFormed(p) && i < Count(p)
      ensures |Front(p, i)| > 0
    {
      CutPasses(p, i);
    }

    /** The leading parts from position e on reproduce the error, and the next shorter one does not. */
    ghost predicate IsTail(p: Pipe, input: Option<Ir>, code: int, e: nat) {
      && e <= Count(p) && (forall k | e <= k < Count(p) :: Reproduces(Front(p, k), input, code))
      && (e > 0 ==> !Reproduces(Front(p, e - 1), input, code))
    }

    /** The shortest of these leading parts. */
    ghost function Leading(p: Pipe, e: nat): Pipe {
      if e < Count(p) then Front(p, e) else p
    }

    /** Removes passes from the end as long as the error is reproduced. */
    method Step2() returns (ghost e: nat)
      requires WellFormed(lst) && Reproduces(lst, Read(files, llInput), expected)
      modifies this`lst
      ensures WellFormed(lst) && Reproduces(lst, Read(files, llInput), expected)
      ensures IsTail(old(lst), Read(files, llInput), expected, e) && lst == Leading(old(lst), e)
    {
      hide Pipeline.Print, Pipeline.Select, Pipeline.Prune, Pipeline.WellFormed, Pipeline.Named, Passes, Read;
      var prevLstA: Option<Pipe> := None;
      WellFormedIsNamed(lst);
      var cnt := CountPasses(lst);
      var idx := cnt;
      while idx > 0
        invariant lst == old(lst) && 0 <= idx <= cnt == Count(lst)
        invariant prevLstA == if idx < cnt then Some(Front(lst, idx)) else None
        invariant forall k | idx <= k < cnt :: Reproduces(Front(lst, k), Read(files, llInput), expected)
      {
        CutsAreNamed(lst, idx - 1);
        CutPasses(lst, idx - 1);
        var lstA, lstB := Split(lst, idx - 1);
        if removeEmptyManagers {
          lstA := PruneInt(lstA);
        }
        var passes := PassesText(lstA);
        if opt.exitCode(passes, Read(files, llInput)) != expected {
          break;
        }
        prevLstA := Some(lstA);
        idx := idx - 1;
      }
      e := idx;
      if idx < cnt {
        CutPasses(lst, idx);
        FrontIsNotEmpty(lst, idx);
      }
      if prevLstA.Some? && |prevLstA.value| > 0 {
        lst := prevLstA.value;
      }
    }

    // ------------------------------------------------------------------------------- step 3

    /** No pass can be removed any more. */
    ghost predicate Irreducible(p: Pipe, input: Option<Ir>, code: int)
    {
      forall i | 0 <= i < Count(p) :: !Reproduces(Without(p, i), input, code)
    }

    /** One sweep from the given position on: every removal that reproduces the error is made at once. */
    ghost function SweepFrom(p: Pipe, input: Option<Ir>, code: int, idx: nat, cnt: nat): Pipe
      decreases cnt - idx
    {
      if idx >= cnt then p
      else
        var candidate := Without(p, idx);
        SweepFrom(if Reproduces(candidate, input, code) then candidate else p, input, code, idx + 1, cnt)
    }

    /** Sweeps until there is nothing left to remove. */
    ghost function Swept(p: Pipe, input: Option<Ir>, code: int): Pipe
      decreases Count(p)
    {
      if Irreducible(p, input, code) then p
      else
        var next := SweepFrom(p, input, code, 0, Count(p));
        if Count(next) < Count(p) then Swept(next, input, code) else next
    }

    lemma SweptStep(p: Pipe, input: Option<Ir>, code: int)
      ensures Irreducible(p, input, code) ==> Swept(p, input, code) == p
      ensures !Irreducible(p, input, code) && Count(SweepFrom(p, input, code, 0, Count(p))) < Count(p) ==>
                Swept(p, input, code) == Swept(SweepFrom(p, input, code, 0, Count(p)), input, code)
    {
    }

    /**
      Sweeps over the pipeline, removing one pass at a time, until a sweep removes nothing. Positions
      past the end of a pipeline that shrank during the sweep remove nothing and count as progress;
      the sweeps still end, because every sweep with progress has removed a pass.
     */
    method Step3()
      requires WellFormed(lst) && Reproduces(lst, Read(files, llInput), expected)
      modifies this`lst
      ensures WellFormed(lst) && Reproduces(lst, Read(files, llInput), expected)
      ensures Irreducible(lst, Read(files, llInput), expected)
      ensures Subsequence(Passes(lst, []), Passes(old(lst), []))
      ensures lst == Swept(old(lst), Read(files, llInput), expected)
    {
      hide Pipeline.Print, Pipeline.WellFormed, Reproduces, Irreducible, Swept, SweepFrom, Read, Subsequence, Passes;
      SubsequenceSame(Passes(lst, []));
      while true
        invariant WellFormed(lst) && Reproduces(lst, Read(files, llInput), expected)
        invariant Swept(lst, Read(files, llInput), expected) == Swept(old(lst), Read(files, llInput), expected)
        invariant Subsequence(Passes(lst, []), Passes(old(lst), []))
        decreases Count(lst)
      {
        ghost var before := Passes(lst, []);
        SweptStep(lst, Read(files, llInput), expected);
        var keepGoing := Sweep();
        SubsequenceTransitive(Passes(lst, []), before, Passes(old(lst), []));
        if !keepGoing {
          break;
        }
      }
    }

    /** One sweep; the positions are those of the pipeline at its start. */
    method Sweep() returns (keepGoing: bool)
      requires WellFormed(lst) && Reproduces(lst, Read(files, llInput), expected)
      modifies this`lst
      ensures WellFormed(lst) && Reproduces(lst, Read(files, llInput), expected)
      ensures Subsequence(Passes(lst, []), Passes(old(lst), []))
      ensures keepGoing ==> Count(lst) < Count(old(lst))
      ensures !keepGoing ==> lst == old(lst)
      ensures keepGoing <==> !Irreducible(old(lst), Read(files, llInput), expected)
      ensures lst == SweepFrom(old(lst), Read(files, llInput), expected, 0, Count(old(lst)))
    {
      hide Pipeline.Print, Pipeline.Select, Pipeline.Prune, Pipeline.WellFormed, Pipeline.Named, Passes, Read, Subsequence;
      ghost var start := Passes(lst, []);
      SubsequenceSame(start);
      WellFormedIsNamed(lst);
      keepGoing := false;
      var cnt := CountPasses(lst);
      for idx := 0 to cnt
        invariant WellFormed(lst) && Reproduces(lst, Read(files, llInput), expected)
        invariant Subsequence(Passes(lst, []), start)
        invariant keepGoing ==> Count(lst) < cnt
        invariant !keepGoing ==> lst == old(lst)
        invariant keepGoing ==> exists i :: 0 <= i < cnt && Reproduces(Without(old(lst), i), Read(files, llInput), expected)
        invariant SweepFrom(lst, Read(files, llInput), expected, idx, cnt) ==
                  SweepFrom(old(lst), Read(files, llInput), expected, 0, cnt)
        invariant !keepGoing ==> forall i | 0 <= i < idx :: !Reproduces(Without(lst, i), Read(files, llInput), expected)
      {
        CutsAreNamed(lst, idx);
        RemovalShrinks(lst, idx, start);
        var candLst := Remove(lst, idx);
        if removeEmptyManagers {
          candLst := PruneInt(candLst);
        }
        var passes := PassesText(candLst);
        if opt.exitCode(passes, Read(files, llInput)) == expected {
          lst := candLst;
          keepGoing := true;
        }
      }
    }

    lemma RemovalShrinks(p: Pipe, i: nat, start: seq<Tagged>)
      requires WellFormed(p) && Subsequence(Passes(p, []), start)
      ensures WellFormed(Without(p, i)) && Subsequence(Passes(Without(p, i), []), start)
      ensures Count(Without(p, i)) == if i < Count(p) then Count(p) - 1 else Count(p)
    {
      WithoutPasses(p, i);
      var ts := Passes(p, []);
      assert |Passes(Without(p, i), [])| == Count(Without(p, i));
      if i < Count(p) {
        SubsequenceWithout(ts, i, i + 1);
        SubsequenceTransitive(Passes(Without(p, i), []), ts, start);
      }
    }

    // ---------------------------------------------------------------------------- all steps

    /** The passes from position n on, up to and including the one e positions later. */
    ghost function Middle(p: Pipe, n: nat, e: nat): seq<Tagged>
      requires n <= Count(p)
    {
      var ts := Passes(p, [])[n..];
      ts[..Min(e + 1, |ts|)]
    }

    /**
      The final pipeline, run on the final input, fails like the original one did, and no pass can be
      removed from it. Its passes are a subsequence of those that the first two steps leave: without the
      passes up to the last of the m leading split points that work, and without those after position e.
      The input is what the n passes taken off made of the original one.
     */
    method Run() returns (ok: bool, ghost m: nat, ghost n: nat, ghost e: nat)
      requires Valid()
      modifies this
      ensures ok <==> opt.exitCode(Print(old(lst)), Read(old(files), old(llInput))) < 0
      ensures ok ==> expected == opt.exitCode(Print(old(lst)), Read(old(files), old(llInput)))
      ensures ok ==> Reproduces(lst, Read(files, llInput), expected) && Irreducible(lst, Read(files, llInput), expected)
      ensures ok ==> IsLead(old(lst), Read(old(files), old(llInput)), expected, m) && n == TakenOff(old(lst), m)
      ensures ok ==> Read(files, llInput) == RestInput(old(lst), Read(old(files), old(llInput)), n)
      ensures ok ==> IsTail(Rest(old(lst), n), Read(files, llInput), expected, e)
      ensures ok ==> lst == Swept(Leading(Rest(old(lst), n), e), Read(files, llInput), expected)
      ensures ok ==> n <= Count(old(lst)) && Subsequence(Passes(lst, []), Middle(old(lst), n, e))
    {
      hide Pipeline.Print, Pipeline.WellFormed, Passes, Subsequence, Read, Irreducible, IsLead, IsTail, Reproduces, Swept;
      hide TakenOff, Rest, RestInput, Leading, Pipeline.Count;
      PrintedCode(lst, Read(files, llInput));
      ok := Step0();
      if !ok {
        m, n, e := 0, 0, 0;
        return;
      }
      ghost var original := lst;
      m := Step1();
      n := TakenOff(original, m);
      RestPasses(original, Read(old(files), old(llInput)), expected, m);
      ghost var second := lst;
      e := Step2();
      LeadingPasses(original, n, second, e);
      Step3();
    }

    lemma PrintedCode(p: Pipe, input: Option<Ir>)
      ensures Reproduces(p, input, opt.exitCode(Print(p), input))
    {
    }

    lemma RestPasses(p: Pipe, input: Option<Ir>, code: int, m: nat)
      requires WellFormed(p) && IsLead(p, input, code, m)
      ensures TakenOff(p, m) <= Count(p) && Passes(Rest(p, TakenOff(p, m)), []) == Passes(p, [])[TakenOff(p, m)..]
      ensures Count(Rest(p, TakenOff(p, m))) == Count(p) - TakenOff(p, m)
    {
      hide Passes, SplitWorks, Back, Pipeline.WellFormed;
      var n := TakenOff(p, m);
      if n > 0 {
        CutPasses(p, n - 1);
      }
      assert |Passes(Rest(p, n), [])| == Count(Rest(p, n));
    }

    lemma LeadingPasses(p: Pipe, n: nat, second: Pipe, e: nat)
      requires WellFormed(second) && n <= Count(p) && Passes(second, []) == Passes(p, [])[n..]
      ensures Passes(Leading(second, e), []) == Middle(p, n, e)
    {
      hide Passes, Front, Pipeline.WellFormed;
      assert |Passes(second, [])| == Count(second);
      if e < Count(second) {
        CutPasses(second, e);
      }
    }
  }
}
