/**
  Model of the frame of llvm/utils/update_mca_test_checks.py: grouping the aligned blocks of all run
  lines by block number and text, writing the check lines of every block number, and what each run
  line finds in all of them.
 */
module McaOutput {
  import opened Wrappers
  import opened Lexicographic
  import opened McaAlign
  import opened McaPrefixes
  import opened McaBreakDown
  import opened McaBlocks

  // ------------------------------------------------------------------------------------- grouping

  /** The position of the entry for a text, or the number of entries. */
  function IndexOf(infos: seq<Entry>, text: Text): (i: nat)
    ensures i <= |infos| && (i < |infos| ==> infos[i].text == text)
    ensures forall j | 0 <= j < i :: infos[j].text != text
  {
    if |infos| == 0 || infos[0].text == text then 0 else 1 + IndexOf(infos[1..], text)
  }

  /** block_infos[block_num][block_text].append(set(prefixes)) */
  function Enter(infos: seq<Entry>, text: Text, s: set<Prefix>): seq<Entry> {
    var i := IndexOf(infos, text);
    if i < |infos| then infos[i := Entry(text, infos[i].sets + [s])] else infos + [Entry(text, [s])]
  }

  /** The entries of block number b, from the first n run lines. */
  ghost function EntriesAt(lists: seq<Blocks>, prefixes: seq<set<Prefix>>, b: nat, n: nat): (infos: seq<Entry>)
    requires n <= |lists| == |prefixes|
    ensures forall i | 0 <= i < |infos| :: infos[i].sets != []
  {
    if n == 0 then []
    else
      var before := EntriesAt(lists, prefixes, b, n - 1);
      if b < |lists[n - 1]| then Enter(before, lists[n - 1][b], prefixes[n - 1]) else before
  }

  /** The common prefix, if there is one, is a prefix of every run line. */
  ghost predicate CommonIn(prefixes: seq<set<Prefix>>, common: Prefix) {
    common != "" ==> forall q | 0 <= q < |prefixes| :: common in prefixes[q]
  }

  lemma EntriesOfRun(lists: seq<Blocks>, prefixes: seq<set<Prefix>>, b: nat, n: nat)
    requires n <= |lists| == |prefixes|
    ensures n == 0 ==> EntriesAt(lists, prefixes, b, n) == []
    ensures n > 0 ==>
              var before := EntriesAt(lists, prefixes, b, n - 1);
              EntriesAt(lists, prefixes, b, n) ==
                if b < |lists[n - 1]| then Enter(before, lists[n - 1][b], prefixes[n - 1]) else before
  {
    hide Enter;
  }

  /** The prefix sets of the run lines, among the first n, that have the text at this number, in order. */
  ghost function SetsFor(lists: seq<Blocks>, prefixes: seq<set<Prefix>>, b: nat, n: nat, text: Text): seq<set<Prefix>>
    requires n <= |lists| == |prefixes|
  {
    if n == 0 then []
    else
      SetsFor(lists, prefixes, b, n - 1, text) + if b < |lists[n - 1]| && lists[n - 1][b] == text then [prefixes[n - 1]] else []
  }

  ghost predicate AreEntries(infos: seq<Entry>, lists: seq<Blocks>, prefixes: seq<set<Prefix>>, b: nat, n: nat)
    requires n <= |lists| == |prefixes|
  {
    && (forall i | 0 <= i < |infos| :: infos[i].sets == SetsFor(lists, prefixes, b, n, infos[i].text))
    && forall text | (forall i | 0 <= i < |infos| :: infos[i].text != text) :: SetsFor(lists, prefixes, b, n, text) == []
  }

  lemma EnterIs(infos: seq<Entry>, text: Text, s: set<Prefix>, i: nat)
    requires forall j, k | 0 <= j < k < |infos| :: infos[j].text != infos[k].text
    requires i < |Enter(infos, text, s)|
    ensures var e := Enter(infos, text, s)[i];
            if i < |infos| then e == Entry(infos[i].text, infos[i].sets + if infos[i].text == text then [s] else [])
            else e == Entry(text, [s]) && forall j | 0 <= j < |infos| :: infos[j].text != text
    ensures |infos| <= |Enter(infos, text, s)|
    ensures exists j :: 0 <= j < |Enter(infos, text, s)| && Enter(infos, text, s)[j].text == text
  {
    var at := IndexOf(infos, text);
    assert Enter(infos, text, s)[at].text == text;
    if i < |infos| {
      assert infos[i].sets + [] == infos[i].sets;
    }
  }

  lemma SetsStep(lists: seq<Blocks>, prefixes: seq<set<Prefix>>, b: nat, n: nat, text: Text)
    requires 0 < n <= |lists| == |prefixes|
    ensures SetsFor(lists, prefixes, b, n, text) == SetsFor(lists, prefixes, b, n - 1, text) +
              if b < |lists[n - 1]| && lists[n - 1][b] == text then [prefixes[n - 1]] else []
  {
  }

  lemma EnteredAre(infos: seq<Entry>, lists: seq<Blocks>, prefixes: seq<set<Prefix>>, b: nat, n: nat)
    requires 0 < n <= |lists| == |prefixes| && AreEntries(infos, lists, prefixes, b, n - 1) && b < |lists[n - 1]|
    requires forall j, k | 0 <= j < k < |infos| :: infos[j].text != infos[k].text
    ensures AreEntries(Enter(infos, lists[n - 1][b], prefixes[n - 1]), lists, prefixes, b, n)
  {
    hide SetsFor, Enter;
    var text, s := lists[n - 1][b], prefixes[n - 1];
    var after := Enter(infos, text, s);
    forall i | 0 <= i < |after| ensures after[i].sets == SetsFor(lists, prefixes, b, n, after[i].text) {
      EnterIs(infos, text, s, i);
      SetsStep(lists, prefixes, b, n, after[i].text);
    }
    forall other | (forall i | 0 <= i < |after| :: after[i].text != other) ensures SetsFor(lists, prefixes, b, n, other) == [] {
      EnterSize(infos, text, s);
      EnterIs(infos, text, s, 0);
      SetsStep(lists, prefixes, b, n, other);
      forall i | 0 <= i < |infos| ensures infos[i].text != other {
        EnterIs(infos, text, s, i);
      }
    }
  }

  lemma EnterSize(infos: seq<Entry>, text: Text, s: set<Prefix>)
    ensures |Enter(infos, text, s)| > 0 && |Enter(infos, text, s)| >= |infos|
  {
  }

  /** The entries are exactly the different texts of the run lines, each with the prefix sets of its run lines. */
  lemma {:induction false} EntriesAre(lists: seq<Blocks>, prefixes: seq<set<Prefix>>, b: nat, n: nat)
    requires n <= |lists| == |prefixes|
    ensures AreEntries(EntriesAt(lists, prefixes, b, n), lists, prefixes, b, n)
  {
    hide EntriesAt, Enter, AreEntries, SetsFor;
    EntriesOfRun(lists, prefixes, b, n);
    if n > 0 {
      EntriesAre(lists, prefixes, b, n - 1);
      EveryRunIsEntered(lists, prefixes, b, n - 1, "");
      var before := EntriesAt(lists, prefixes, b, n - 1);
      if b < |lists[n - 1]| {
        EnteredAre(before, lists, prefixes, b, n);
      } else {
        NotEntered(before, lists, prefixes, b, n);
      }
    } else {
      NoEntries(lists, prefixes, b);
    }
  }

  lemma NotEntered(infos: seq<Entry>, lists: seq<Blocks>, prefixes: seq<set<Prefix>>, b: nat, n: nat)
    requires 0 < n <= |lists| == |prefixes| && AreEntries(infos, lists, prefixes, b, n - 1) && b >= |lists[n - 1]|
    ensures AreEntries(infos, lists, prefixes, b, n)
  {
    hide SetsFor;
    forall text ensures SetsFor(lists, prefixes, b, n, text) == SetsFor(lists, prefixes, b, n - 1, text) {
      SetsStep(lists, prefixes, b, n, text);
    }
  }

  lemma NoEntries(lists: seq<Blocks>, prefixes: seq<set<Prefix>>, b: nat)
    requires |lists| == |prefixes|
    ensures AreEntries([], lists, prefixes, b, 0)
  {
  }

  ghost predicate HasEntry(infos: seq<Entry>, i: int, k: int, text: Text, s: set<Prefix>) {
    0 <= i < |infos| && 0 <= k < |infos[i].sets| && infos[i].text == text && infos[i].sets[k] == s
  }

  /** The prefixes s are entered for the text. */
  ghost predicate IsEntered(infos: seq<Entry>, text: Text, s: set<Prefix>) {
    exists i, k :: HasEntry(infos, i, k, text, s)
  }

  lemma EnterKeeps(infos: seq<Entry>, text: Text, s: set<Prefix>, common: Prefix)
    requires WellFormed(infos, common) && (common != "" ==> common in s)
    ensures WellFormed(Enter(infos, text, s), common) && IsEntered(Enter(infos, text, s), text, s)
  {
    var i := IndexOf(infos, text);
    var k := if i < |infos| then |infos[i].sets| else 0;
    assert HasEntry(Enter(infos, text, s), i, k, text, s);
  }

  lemma StillEntered(infos: seq<Entry>, text: Text, s: set<Prefix>, t: Text, u: set<Prefix>)
    requires IsEntered(infos, t, u)
    ensures IsEntered(Enter(infos, text, s), t, u)
  {
    var i, k :| HasEntry(infos, i, k, t, u);
    assert HasEntry(Enter(infos, text, s), i, k, t, u);
  }

  lemma {:induction false} EveryRunIsEntered(lists: seq<Blocks>, prefixes: seq<set<Prefix>>, b: nat, n: nat, common: Prefix)
    requires n <= |lists| == |prefixes| && CommonIn(prefixes, common)
    ensures WellFormed(EntriesAt(lists, prefixes, b, n), common)
    ensures forall r | 0 <= r < n && b < |lists[r]| :: IsEntered(EntriesAt(lists, prefixes, b, n), lists[r][b], prefixes[r])
  {
    EntriesOfRun(lists, prefixes, b, n);
    if n > 0 {
      EveryRunIsEntered(lists, prefixes, b, n - 1, common);
      hide EntriesAt, Enter, WellFormed, IsEntered;
      var before, after := EntriesAt(lists, prefixes, b, n - 1), EntriesAt(lists, prefixes, b, n);
      if b < |lists[n - 1]| {
        EnterKeeps(before, lists[n - 1][b], prefixes[n - 1], common);
        forall r | 0 <= r < n - 1 && b < |lists[r]| ensures IsEntered(after, lists[r][b], prefixes[r]) {
          StillEntered(before, lists[n - 1][b], prefixes[n - 1], lists[r][b], prefixes[r]);
        }
      }
    }
  }

  method GroupBlocks(lists: seq<Blocks>, prefixes: seq<set<Prefix>>, b: nat) returns (infos: seq<Entry>)
    requires |lists| == |prefixes|
    ensures infos == EntriesAt(lists, prefixes, b, |lists|)
  {
    infos := [];
    EntriesOfRun(lists, prefixes, b, 0);
    hide Enter, EntriesAt;
    for r := 0 to |lists|
      invariant infos == EntriesAt(lists, prefixes, b, r)
    {
      EntriesOfRun(lists, prefixes, b, r + 1);
      if b < |lists[r]| {
        infos := Enter(infos, lists[r][b], prefixes[r]);
      }
    }
  }

  // ------------------------------------------------------------------------ what a run line sees

  /** The lines of some blocks, one after the other. */
  ghost function Lines(blocks: Blocks): seq<string> {
    if |blocks| == 0 then [] else Lines(blocks[..|blocks| - 1]) + blocks[|blocks| - 1]
  }

  lemma {:induction false} LinesOfNonEmpty(blocks: Blocks)
    ensures Lines(NonEmpty(blocks)) == Lines(blocks)
  {
    if |blocks| > 0 {
      var front, last := blocks[..|blocks| - 1], blocks[|blocks| - 1];
      LinesOfNonEmpty(front);
      if last == [] {
        assert NonEmpty(blocks) == NonEmpty(front) && Lines(front) + last == Lines(front);
      } else {
        var kept := NonEmpty(front) + [last];
        assert kept[..|kept| - 1] == NonEmpty(front);
      }
    }
  }

  /** The block of a list at a number; past its end there is none. */
  ghost function BlockAt(blocks: Blocks, b: nat): Block {
    if b < |blocks| then blocks[b] else []
  }

  ghost function LinesBefore(blocks: Blocks, n: nat): seq<string> {
    if n == 0 then [] else LinesBefore(blocks, n - 1) + BlockAt(blocks, n - 1)
  }

  lemma {:induction false} LinesOfAll(blocks: Blocks, n: nat)
    ensures LinesBefore(blocks, n) == Lines(if n < |blocks| then blocks[..n] else blocks)
  {
    if n > 0 {
      LinesOfAll(blocks, n - 1);
      if n <= |blocks| {
        assert blocks[..n][..n - 1] == blocks[..n - 1];
        assert n == |blocks| ==> blocks[..n] == blocks;
      } else {
        assert Lines(blocks) + [] == Lines(blocks);
      }
    }
  }

  /** At this block number the run line has exactly one of the prefixes chosen for its text. */
  ghost predicate OnePrefixAt(lists: seq<Blocks>, prefixes: seq<set<Prefix>>, b: nat, q: nat)
    requires q < |lists| == |prefixes| && b < |lists[q]|
  {
    var infos := EntriesAt(lists, prefixes, b, |lists|);
    exists i, k :: HasEntry(infos, i, k, lists[q][b], prefixes[q]) && HasOnePrefix(infos, i, k)
  }

  /**
    The condition, on the blocks and the prefixes of all run lines, for run line q to find its block at
    this number: it has exactly one of the prefixes chosen for the block, or the block is empty. If it has
    no block here, then no text may be written under one of its prefixes.
   */
  ghost predicate FindsBlock(lists: seq<Blocks>, prefixes: seq<set<Prefix>>, common: Prefix, b: nat, q: nat)
    requires q < |lists| == |prefixes|
  {
    if b < |lists[q]| then lists[q][b] == [] || OnePrefixAt(lists, prefixes, b, q)
    else Unseen(EntriesAt(lists, prefixes, b, |lists|), common, prefixes[q])
  }

  lemma OwnBlockIsSeen(lists: seq<Blocks>, prefixes: seq<set<Prefix>>, b: nat, q: nat, common: Prefix, checks: seq<Check>)
    requires q < |lists| == |prefixes| && b < |lists[q]| && CommonIn(prefixes, common)
    requires ShowsTexts(EntriesAt(lists, prefixes, b, |lists|), common, checks)
    ensures Shown(checks, prefixes[q]) == lists[q][b] <==> lists[q][b] == [] || OnePrefixAt(lists, prefixes, b, q)
  {
    var infos := EntriesAt(lists, prefixes, b, |lists|);
    EveryRunIsEntered(lists, prefixes, b, |lists|, common);
    hide EntriesAt, HasOnePrefix;
    forall i, k | HasEntry(infos, i, k, lists[q][b], prefixes[q]) ensures SeesItsText(infos, checks, i, k) {
    }
    var i, k :| HasEntry(infos, i, k, lists[q][b], prefixes[q]);
  }

  /** At each number, a run line is shown exactly its block if and only if the condition holds. */
  lemma BlockIsSeen(lists: seq<Blocks>, prefixes: seq<set<Prefix>>, b: nat, q: nat, common: Prefix, checks: seq<Check>)
    requires q < |lists| == |prefixes| && CommonIn(prefixes, common)
    requires ShowsTexts(EntriesAt(lists, prefixes, b, |lists|), common, checks)
    ensures Shown(checks, prefixes[q]) == BlockAt(lists[q], b) <==> FindsBlock(lists, prefixes, common, b, q)
  {
    if b < |lists[q]| {
      OwnBlockIsSeen(lists, prefixes, b, q, common, checks);
    } else {
      hide SeesItsText, NoOther, WrittenUnder;
    }
  }

  function Longest(lists: seq<Blocks>): (n: nat)
    ensures forall r | 0 <= r < |lists| :: |lists[r]| <= n
  {
    if |lists| == 0 then 0
    else
      var n := Longest(lists[..|lists| - 1]);
      if |lists[|lists| - 1]| > n then |lists[|lists| - 1]| else n
  }

  /** It is the length of one of the lists, unless there are none. */
  lemma {:induction false} LongestIsLength(lists: seq<Blocks>)
    ensures Longest(lists) == 0 || exists r :: 0 <= r < |lists| && |lists[r]| == Longest(lists)
  {
    if |lists| > 0 {
      var front := lists[..|lists| - 1];
      LongestIsLength(front);
      if r :| 0 <= r < |front| && |front[r]| == Longest(front) {
        assert lists[r] == front[r];
      }
    }
  }

  /** All texts at all block numbers are captured by some prefix. */
  ghost predicate AllCaptured(lists: seq<Blocks>, prefixes: seq<set<Prefix>>)
    requires |lists| == |prefixes|
  {
    forall b | 0 <= b < Longest(lists) :: Captured(EntriesAt(lists, prefixes, b, |lists|))
  }

  /** The check lines of each block number show the texts at that number. */
  ghost predicate ShowsRuns(lists: seq<Blocks>, prefixes: seq<set<Prefix>>, common: Prefix, parts: seq<seq<Check>>)
    requires |lists| == |prefixes|
  {
    && |parts| == Longest(lists)
    && forall b | 0 <= b < |parts| :: ShowsTexts(EntriesAt(lists, prefixes, b, |lists|), common, parts[b])
  }

  /** The check lines of each block number; an error if some text is not captured by any prefix. */
  method WriteAll(lists: seq<Blocks>, prefixes: seq<set<Prefix>>, common: Prefix)
    returns (r: Result<seq<seq<Check>>, string>)
    requires |lists| == |prefixes| && CommonIn(prefixes, common)
    ensures r.Ok? <==> AllCaptured(lists, prefixes)
    ensures r.Ok? ==> ShowsRuns(lists, prefixes, common, r.value) && forall b | 0 <= b < |r.value| :: Grouped(r.value[b], common)
  {
    hide ShowsTexts, WellFormed, EntriesAt, Captured, Grouped;
    var parts: seq<seq<Check>> := [];
    for b := 0 to Longest(lists)
      invariant |parts| == b && forall c | 0 <= c < b :: Grouped(parts[c], common)
      invariant forall c | 0 <= c < b :: Captured(EntriesAt(lists, prefixes, c, |lists|))
      invariant forall c | 0 <= c < b :: ShowsTexts(EntriesAt(lists, prefixes, c, |lists|), common, parts[c])
    {
      var infos := GroupBlocks(lists, prefixes, b);
      EveryRunIsEntered(lists, prefixes, b, |lists|, common);
      var checks := CheckLines(infos, common);
      if checks.Err? {
        return Err(checks.error);
      }
      parts := parts + [checks.value];
    }
    return Ok(parts);
  }

  // ------------------------------------------------------------------------------ all of the script

  /** What is written: the check lines of all block numbers, one after the other. */
  ghost function Joined(parts: seq<seq<Check>>): seq<Check> {
    if |parts| == 0 then [] else Joined(parts[..|parts| - 1]) + parts[|parts| - 1]
  }

  lemma {:induction false} JoinedShows(parts: seq<seq<Check>>, s: set<Prefix>, blocks: Blocks)
    requires forall b | 0 <= b < |parts| :: Shown(parts[b], s) == BlockAt(blocks, b)
    ensures Shown(Joined(parts), s) == LinesBefore(blocks, |parts|)
  {
    if |parts| > 0 {
      var front := parts[..|parts| - 1];
      JoinedShows(front, s, blocks);
      ShownAppend(Joined(front), parts[|parts| - 1], s);
    }
  }

  /** Empty blocks at the end, up to the given length. */
  ghost function Padded(lists: seq<Blocks>, n: nat): (padded: seq<Blocks>)
    ensures |padded| == |lists|
  {
    seq(|lists|, q requires 0 <= q < |lists| => lists[q] + Empties(if |lists[q]| < n then n - |lists[q]| else 0))
  }

  lemma PaddedKeeps(lists: seq<Blocks>, n: nat)
    ensures SameBlocks(lists, Padded(lists, n))
  {
    forall q | 0 <= q < |lists| ensures NonEmpty(Padded(lists, n)[q]) == NonEmpty(lists[q]) {
      var k := if |lists[q]| < n then n - |lists[q]| else 0;
      NonEmptyConcat(lists[q], Empties(k));
      EmptiesMeasures(k);
    }
  }

  method Pad(lists: seq<Blocks>, n: nat) returns (padded: seq<Blocks>)
    ensures padded == Padded(lists, n)
  {
    padded := [];
    for q := 0 to |lists|
      invariant |padded| == q && padded == Padded(lists, n)[..q]
    {
      padded := padded + [lists[q] + Empties(if |lists[q]| < n then n - |lists[q]| else 0)];
    }
  }

  /** The lists of all run lines, aligned, and then padded to the length of the longest one before that. */
  ghost function Prepared(outputs: seq<Blocks>): (lists: seq<Blocks>)
    ensures |lists| == |outputs|
  {
    RunsAreLinedUp(outputs);
    Padded(AlignedRuns(outputs), Longest(outputs))
  }

  /** They still hold the blocks of the run lines. */
  lemma PreparedKeeps(outputs: seq<Blocks>)
    ensures SameBlocks(outputs, Prepared(outputs))
  {
    RunsAreLinedUp(outputs);
    PaddedKeeps(AlignedRuns(outputs), Longest(outputs));
  }

  /** If the outputs are lined up from the start, then every run line has a block at every number. */
  lemma LinedUpHasAllBlocks(outputs: seq<Blocks>, q: nat)
    requires LinedUp(outputs) && q < |outputs|
    ensures |Prepared(outputs)[q]| == Longest(outputs)
  {
    RunsAreLinedUp(outputs);
    hide LinedUp, AlignedRuns;
  }

  /**
    From the output blocks of all run lines to the check lines of each block number. At each number, a run
    line is shown exactly its block, or nothing where it has none, if and only if the condition holds. If
    it holds at all numbers, then the run line finds in all check lines the lines of its own output, in order.
   */
  method CheckRuns(outputs: seq<Blocks>, prefixes: seq<set<Prefix>>, common: Prefix)
    returns (r: Result<seq<seq<Check>>, string>)
    requires |outputs| == |prefixes| && CommonIn(prefixes, common)
    ensures r.Ok? <==> AllCaptured(Prepared(outputs), prefixes)
    ensures r.Ok? ==> ShowsRuns(Prepared(outputs), prefixes, common, r.value)
    ensures r.Ok? ==> forall b | 0 <= b < |r.value| :: Grouped(r.value[b], common)
    ensures r.Ok? ==> forall q, b | 0 <= q < |outputs| && 0 <= b < |r.value| ::
                        Shown(r.value[b], prefixes[q]) == BlockAt(Prepared(outputs)[q], b) <==>
                        FindsBlock(Prepared(outputs), prefixes, common, b, q)
    ensures r.Ok? ==> forall q | 0 <= q < |outputs| && FindsAll(outputs, prefixes, common, q) ::
                        Shown(Joined(r.value), prefixes[q]) == Lines(outputs[q])
  {
    hide ShowsTexts, EntriesAt, FindsBlock, AllCaptured, CommonIn, Longest, Grouped;
    var aligned := AlignRuns(outputs);
    var lists := Pad(aligned, Longest(outputs));
    assert lists == Prepared(outputs);
    r := WriteAll(lists, prefixes, common);
    if r.Ok? {
      forall q, b | 0 <= q < |outputs| && 0 <= b < |r.value|
        ensures Shown(r.value[b], prefixes[q]) == BlockAt(lists[q], b) <==> FindsBlock(lists, prefixes, common, b, q)
      {
        BlockIsSeen(lists, prefixes, b, q, common, r.value[b]);
      }
      forall q | 0 <= q < |outputs| && FindsAll(outputs, prefixes, common, q)
        ensures Shown(Joined(r.value), prefixes[q]) == Lines(outputs[q])
      {
        OwnLinesAreShown(outputs, prefixes, r.value, q);
      }
    }
  }

  /** The condition holds for the run line at every block number. */
  ghost predicate FindsAll(outputs: seq<Blocks>, prefixes: seq<set<Prefix>>, common: Prefix, q: nat)
    requires q < |outputs| == |prefixes|
  {
    forall b | 0 <= b < Longest(Prepared(outputs)) :: FindsBlock(Prepared(outputs), prefixes, common, b, q)
  }

  lemma OwnLinesAreShown(outputs: seq<Blocks>, prefixes: seq<set<Prefix>>, parts: seq<seq<Check>>, q: nat)
    requires q < |outputs| == |prefixes| && |parts| == Longest(Prepared(outputs))
    requires forall b | 0 <= b < |parts| :: Shown(parts[b], prefixes[q]) == BlockAt(Prepared(outputs)[q], b)
    ensures Shown(Joined(parts), prefixes[q]) == Lines(outputs[q])
  {
    var blocks := Prepared(outputs)[q];
    JoinedShows(parts, prefixes[q], blocks);
    LinesOfAll(blocks, |parts|);
    PreparedKeeps(outputs);
    LinesOfNonEmpty(blocks);
    LinesOfNonEmpty(outputs[q]);
  }

  /** The text of a single run line is shown to all run lines with the first of its prefixes. */
  lemma LoneTextIsShown(text: Text, s: set<Prefix>, p: Prefix, u: set<Prefix>, common: Prefix, checks: seq<Check>)
    requires IsLeast(p, s) && p in u && ShowsTexts([Entry(text, [s])], common, checks)
    ensures Shown(checks, u) == text
  {
    var infos := [Entry(text, [s])];
    forall q ensures q !in Others(infos, 0) {
      OthersMember(infos, 0, 1, q);
    }
    assert Pruned(infos, 0)[0] == s;
    assert Groups(infos, 0) == [s];
    forall q ensures IsFirst([s], q) <==> q == p {
      if IsFirst([s], q) {
        LeastIsUnique(p, q, s);
      }
      assert IsLeast(p, [s][0]);
    }
    assert WrittenUnder(infos, 0, u) == {p};
    assert NoOther(infos, 0, u);
    assert Repeat(text, 1) == text by {
      assert Repeat(text, 0) + text == text;
    }
  }

  // ------------------------------------------------------------------------------------ the example

  lemma BothEntries(lists: seq<Blocks>, prefixes: seq<set<Prefix>>, b: nat)
    requires |lists| == |prefixes| == 2 && b < |lists[0]| && b < |lists[1]|
    ensures EntriesAt(lists, prefixes, b, 2) ==
              if lists[0][b] == lists[1][b] then [Entry(lists[0][b], prefixes)]
              else [Entry(lists[0][b], [prefixes[0]]), Entry(lists[1][b], [prefixes[1]])]
  {
    var one := Entry(lists[0][b], [prefixes[0]]);
    assert EntriesAt(lists, prefixes, b, 0) == [];
    assert EntriesAt(lists, prefixes, b, 1) == Enter([], lists[0][b], prefixes[0]) == [one];
    assert EntriesAt(lists, prefixes, b, 2) == Enter([one], lists[1][b], prefixes[1]);
    assert [one][0].text == one.text;
    assert [prefixes[0]] + [prefixes[1]] == prefixes;
  }

  lemma LoneEntry(lists: seq<Blocks>, prefixes: seq<set<Prefix>>, b: nat)
    requires |lists| == |prefixes| == 2 && |lists[1]| <= b < |lists[0]|
    ensures EntriesAt(lists, prefixes, b, 2) == [Entry(lists[0][b], [prefixes[0]])]
  {
    assert EntriesAt(lists, prefixes, b, 0) == [];
    assert EntriesAt(lists, prefixes, b, 1) == Enter([], lists[0][b], prefixes[0]);
  }

  /** A text of both run lines, with a common prefix, is seen by the second one. */
  lemma SharedText(lists: seq<Blocks>, prefixes: seq<set<Prefix>>, b: nat, common: Prefix)
    requires |lists| == |prefixes| == 2 && b < |lists[0]| && b < |lists[1]| && lists[0][b] == lists[1][b]
    requires common in prefixes[0] && common in prefixes[1]
    ensures OnePrefixAt(lists, prefixes, b, 1) && Captured(EntriesAt(lists, prefixes, b, 2))
  {
    BothEntries(lists, prefixes, b);
    var infos := EntriesAt(lists, prefixes, b, 2);
    OthersMember(infos, 0, 1, common);
    SharedPrefixSuffices(infos, 0, 1, common);
    assert HasEntry(infos, 0, 1, lists[1][b], prefixes[1]);
    assert CanBeTold(infos, 0, infos[0].sets[0]);
  }

  /** A text of the second run line only is seen by it if it has a prefix that the first one has not. */
  lemma OwnText(lists: seq<Blocks>, prefixes: seq<set<Prefix>>, b: nat, own: Prefix)
    requires |lists| == |prefixes| == 2 && b < |lists[0]| && b < |lists[1]| && lists[0][b] == [] && lists[1][b] != []
    requires own !in prefixes[0] && own in prefixes[1]
    ensures OnePrefixAt(lists, prefixes, b, 1) && Captured(EntriesAt(lists, prefixes, b, 2))
  {
    BothEntries(lists, prefixes, b);
    var infos := EntriesAt(lists, prefixes, b, 2);
    OthersMember(infos, 1, 2, own);
    SharedPrefixSuffices(infos, 1, 0, own);
    assert HasEntry(infos, 1, 0, lists[1][b], prefixes[1]);
    assert CanBeTold(infos, 1, infos[1].sets[0]);
  }

  /** A text of the first run line only, where the second one has no block. */
  lemma LoneText(lists: seq<Blocks>, prefixes: seq<set<Prefix>>, b: nat, p: Prefix, checks: seq<Check>, common: Prefix)
    requires |lists| == |prefixes| == 2 && |lists[1]| <= b < |lists[0]| && IsLeast(p, prefixes[0]) && p in prefixes[1]
    ensures Captured(EntriesAt(lists, prefixes, b, 2))
    ensures ShowsTexts(EntriesAt(lists, prefixes, b, 2), common, checks) ==> Shown(checks, prefixes[1]) == lists[0][b]
  {
    LoneEntry(lists, prefixes, b);
    var infos := EntriesAt(lists, prefixes, b, 2);
    OthersMember(infos, 0, 1, p);
    assert CanBeTold(infos, 0, infos[0].sets[0]);
    if ShowsTexts(infos, common, checks) {
      LoneTextIsShown(lists[0][b], prefixes[0], p, prefixes[1], common, checks);
    }
  }

  /**
    Lists may differ in length after the alignment. Then a run line without a block at some number may
    find there a text that is not its own: for the outputs X, Y, W and X, Z, Y of two run lines, nothing is
    wrong with the prefixes, and the second run line is shown X, Z, Y and W.
   */
  lemma ForeignTextIsShown(x: Text, y: Text, z: Text, w: Text)
    requires FourBlocks(x, y, z, w)
    ensures var (outputs, prefixes) := ([[x, y, w], [x, z, y]], [{"ALL", "FOO"}, {"ALL", "BAR"}]);
            && AllCaptured(Prepared(outputs), prefixes)
            && forall parts | ShowsRuns(Prepared(outputs), prefixes, "ALL", parts) ::
                 Shown(Joined(parts), {"ALL", "BAR"}) == x + z + y + w
  {
    ExampleIsPrepared(x, y, z, w);
    ExampleIsWritten([[x, [], y, w], [x, z, y]], [{"ALL", "FOO"}, {"ALL", "BAR"}]);
    hide Prepared, AllCaptured, ShowsRuns;
  }

  lemma LongestOfTwo(a: Blocks, b: Blocks)
    ensures Longest([a, b]) == Max(|a|, |b|)
  {
    assert [a, b][..1] == [a];
    assert Longest([a][..0]) == 0;
  }

  lemma ExampleIsPrepared(x: Text, y: Text, z: Text, w: Text)
    requires FourBlocks(x, y, z, w)
    ensures Prepared([[x, y, w], [x, z, y]]) == [[x, [], y, w], [x, z, y]]
  {
    ExampleAlignment(x, y, z, w);
    hide AlignedRuns;
    LongestOfTwo([x, y, w], [x, z, y]);
    hide Longest;
    var lists := [[x, [], y, w], [x, z, y]];
    forall q | 0 <= q < 2 ensures Padded(lists, 3)[q] == lists[q] {
    }
  }

  lemma ExampleIsWritten(lists: seq<Blocks>, prefixes: seq<set<Prefix>>)
    requires |lists| == 2 && |lists[0]| == 4 && |lists[1]| == 3 && prefixes == [{"ALL", "FOO"}, {"ALL", "BAR"}]
    requires lists[0][0] == lists[1][0] && lists[0][1] == [] && lists[1][1] != [] && lists[0][2] == lists[1][2]
    ensures AllCaptured(lists, prefixes)
    ensures forall parts | ShowsRuns(lists, prefixes, "ALL", parts) ::
              Shown(Joined(parts), {"ALL", "BAR"}) == lists[1][0] + lists[1][1] + lists[1][2] + lists[0][3]
  {
    hide EntriesAt, Captured, ShowsTexts, OnePrefixAt, Longest, ShowsRuns, AllCaptured;
    ExampleAt(lists, prefixes);
    assert IsLeast("ALL", prefixes[0]) by {
      assert Less("ALL", "FOO");
    }
    ExampleIsCaptured(lists, prefixes);
    forall parts | ShowsRuns(lists, prefixes, "ALL", parts)
      ensures Shown(Joined(parts), prefixes[1]) == lists[1][0] + lists[1][1] + lists[1][2] + lists[0][3]
    {
      ExampleIsShown(lists, prefixes, parts);
    }
  }

  lemma ExampleIsCaptured(lists: seq<Blocks>, prefixes: seq<set<Prefix>>)
    requires |lists| == |prefixes| == 2 && |lists[0]| == 4 && |lists[1]| == 3
    requires forall b | 0 <= b < 3 :: Captured(EntriesAt(lists, prefixes, b, 2))
    requires IsLeast("ALL", prefixes[0]) && "ALL" in prefixes[1]
    ensures AllCaptured(lists, prefixes)
  {
    hide EntriesAt, Captured, ShowsTexts, IsLeast;
    LoneText(lists, prefixes, 3, "ALL", [], "ALL");
    LongestOfTwo(lists[0], lists[1]);
    assert lists == [lists[0], lists[1]];
    hide Longest;
  }

  lemma ExampleAt(lists: seq<Blocks>, prefixes: seq<set<Prefix>>)
    requires |lists| == 2 && |lists[0]| == 4 && |lists[1]| == 3 && prefixes == [{"ALL", "FOO"}, {"ALL", "BAR"}]
    requires lists[0][0] == lists[1][0] && lists[0][1] == [] && lists[1][1] != [] && lists[0][2] == lists[1][2]
    ensures forall b | 0 <= b < 3 :: OnePrefixAt(lists, prefixes, b, 1) && Captured(EntriesAt(lists, prefixes, b, 2))
  {
    hide OnePrefixAt, Captured, EntriesAt;
    SharedText(lists, prefixes, 0, "ALL");
    OwnText(lists, prefixes, 1, "BAR");
    SharedText(lists, prefixes, 2, "ALL");
  }

  lemma ExampleIsShown(lists: seq<Blocks>, prefixes: seq<set<Prefix>>, parts: seq<seq<Check>>)
    requires |lists| == |prefixes| == 2 && |lists[0]| == 4 && |lists[1]| == 3 && CommonIn(prefixes, "ALL")
    requires ShowsRuns(lists, prefixes, "ALL", parts)
    requires forall b | 0 <= b < 3 :: OnePrefixAt(lists, prefixes, b, 1)
    requires IsLeast("ALL", prefixes[0]) && "ALL" in prefixes[1]
    ensures Shown(Joined(parts), prefixes[1]) == lists[1][0] + lists[1][1] + lists[1][2] + lists[0][3]
  {
    hide ShowsTexts, OnePrefixAt, EntriesAt, IsLeast, Captured;
    LongestOfTwo(lists[0], lists[1]);
    assert lists == [lists[0], lists[1]];
    hide Longest;
    LoneText(lists, prefixes, 3, "ALL", parts[3], "ALL");
    var shown := lists[1] + [lists[0][3]];
    forall b | 0 <= b < 4 ensures Shown(parts[b], prefixes[1]) == BlockAt(shown, b) {
      if b < 3 {
        BlockIsSeen(lists, prefixes, b, 1, "ALL", parts[b]);
      }
    }
    JoinedShows(parts, prefixes[1], shown);
    FourLines(shown);
  }

  lemma FourLines(blocks: Blocks)
    requires |blocks| == 4
    ensures LinesBefore(blocks, 4) == blocks[0] + blocks[1] + blocks[2] + blocks[3]
  {
    assert LinesBefore(blocks, 1) == blocks[0];
    assert LinesBefore(blocks, 2) == blocks[0] + blocks[1];
  }
}
