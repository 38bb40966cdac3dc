/**
  Model of _break_down_block in llvm/utils/update_mca_test_checks.py, and of what FileCheck run
  lines see of its output: texts of equal length are interleaved line by line, lines common to all
  of them under a common prefix, the others in batches, one prefix at a time.
 */
module McaBreakDown {
  import opened Lexicographic
  import opened McaPrefixes

  /** One line of output: a check line for a prefix. */
  datatype Check = Check(prefix: Prefix, line: string)

  type Batch = map<Prefix, seq<Check>>

  // ------------------------------------------------------------------------- what a run line sees

  /** The lines a run line with these prefixes has to match, in order. */
  ghost function Shown(checks: seq<Check>, tags: set<Prefix>): seq<string> {
    if |checks| == 0 then []
    else
      var last := checks[|checks| - 1];
      Shown(checks[..|checks| - 1], tags) + if last.prefix in tags then [last.line] else []
  }

  lemma {:induction false} ShownAppend(a: seq<Check>, b: seq<Check>, tags: set<Prefix>)
    ensures Shown(a + b, tags) == Shown(a, tags) + Shown(b, tags)
  {
    if |b| == 0 {
      assert a + b == a;
    } else {
      assert (a + b)[..|a + b| - 1] == a + b[..|b| - 1];
      ShownAppend(a, b[..|b| - 1], tags);
    }
  }

  ghost predicate AllTagged(checks: seq<Check>, p: Prefix) {
    forall k | 0 <= k < |checks| :: checks[k].prefix == p
  }

  lemma {:induction false} TaggedShown(checks: seq<Check>, p: Prefix, tags: set<Prefix>)
    requires AllTagged(checks, p)
    ensures p in tags ==> |Shown(checks, tags)| == |checks| && Shown(checks, tags) == Shown(checks, {p})
    ensures p !in tags ==> Shown(checks, tags) == []
  {
    if |checks| > 0 {
      TaggedShown(checks[..|checks| - 1], p, tags);
    }
  }

  /** What two disjoint sets of prefixes see adds up. */
  lemma {:induction false} ShownAddsUp(checks: seq<Check>, s: set<Prefix>, t: set<Prefix>)
    requires s !! t
    ensures |Shown(checks, s + t)| == |Shown(checks, s)| + |Shown(checks, t)|
  {
    if |checks| > 0 {
      ShownAddsUp(checks[..|checks| - 1], s, t);
    }
  }

  ghost predicate TagsAmong(checks: seq<Check>, tags: set<Prefix>) {
    forall k | 0 <= k < |checks| :: checks[k].prefix in tags
  }

  /** Prefixes that tag no line make no difference. */
  lemma {:induction false} OnlyTagsMatter(checks: seq<Check>, all: set<Prefix>, s: set<Prefix>, t: set<Prefix>)
    requires TagsAmong(checks, all) && s * all == t * all
    ensures Shown(checks, s) == Shown(checks, t)
  {
    if |checks| > 0 {
      var last := checks[|checks| - 1];
      OnlyTagsMatter(checks[..|checks| - 1], all, s, t);
      assert last.prefix in s <==> last.prefix in s * all;
      assert last.prefix in t <==> last.prefix in t * all;
    }
  }

  // -------------------------------------------------------------------- the order of the check lines

  /** The prefixes from position i on do not descend, up to the next line with the common prefix. */
  ghost predicate InOrder(checks: seq<Check>, common: Prefix, i: int, j: int)
    requires 0 <= i < j < |checks|
  {
    (forall k | i <= k <= j :: checks[k].prefix != common) ==> !Less(checks[j].prefix, checks[i].prefix)
  }

  /** Between lines with the common prefix, the lines are grouped by their prefixes, in the order of these. */
  ghost predicate Grouped(checks: seq<Check>, common: Prefix) {
    forall i, j | 0 <= i < j < |checks| :: InOrder(checks, common, i, j)
  }

  /** Nothing is written after the last line with the common prefix. */
  ghost predicate Closed(checks: seq<Check>, common: Prefix) {
    checks == [] || checks[|checks| - 1].prefix == common
  }

  ghost predicate Climbs(checks: seq<Check>) {
    forall i, j | 0 <= i < j < |checks| :: !Less(checks[j].prefix, checks[i].prefix)
  }

  lemma GroupedNothing(common: Prefix)
    ensures Grouped([], common) && Closed([], common)
  {
  }

  lemma GroupedAppend(a: seq<Check>, b: seq<Check>, common: Prefix)
    requires Grouped(a, common) && Closed(a, common) && Climbs(b)
    ensures Grouped(a + b, common)
  {
    var c := a + b;
    forall i, j | 0 <= i < j < |c| ensures InOrder(c, common, i, j) {
      if j < |a| {
        assert InOrder(a, common, i, j);
        assert forall k | i <= k <= j :: c[k] == a[k];
      } else if i < |a| {
        assert c[|a| - 1] == a[|a| - 1];
      } else {
        assert c[i] == b[i - |a|] && c[j] == b[j - |a|];
      }
    }
  }

  lemma GroupedCommon(a: seq<Check>, common: Prefix, line: string)
    requires Grouped(a, common)
    ensures Grouped(a + [Check(common, line)], common) && Closed(a + [Check(common, line)], common)
  {
    var c := a + [Check(common, line)];
    forall i, j | 0 <= i < j < |c| ensures InOrder(c, common, i, j) {
      if j < |a| {
        assert InOrder(a, common, i, j);
        assert forall k | i <= k <= j :: c[k] == a[k];
      }
    }
  }

  // ------------------------------------------------------------------------------------- batches

  function Pending(batch: Batch, p: Prefix): seq<Check> {
    if p in batch then batch[p] else []
  }

  ghost predicate WellTagged(batch: Batch) {
    forall p | p in batch :: AllTagged(batch[p], p)
  }

  /** The batches of the given prefixes, one after the other. */
  ghost function Emptied(batch: Batch, keys: seq<Prefix>): seq<Check>
    requires forall k | 0 <= k < |keys| :: keys[k] in batch
  {
    if |keys| == 0 then [] else Emptied(batch, keys[..|keys| - 1]) + batch[keys[|keys| - 1]]
  }

  lemma BatchShows(checks: seq<Check>, batch: seq<Check>, q: Prefix, tags: set<Prefix>, p: Prefix)
    requires AllTagged(batch, q) && p in tags && (q in tags ==> q == p)
    ensures Shown(checks + batch, tags) == Shown(checks, tags) + if q == p then Shown(batch, {p}) else []
  {
    ShownAppend(checks, batch, tags);
    TaggedShown(batch, q, tags);
  }

  lemma FrontKeys(keys: seq<Prefix>, p: Prefix)
    requires |keys| > 0 && Ascending(keys)
    ensures Ascending(keys[..|keys| - 1]) && keys[|keys| - 1] !in keys[..|keys| - 1]
    ensures p in keys <==> p in keys[..|keys| - 1] || p == keys[|keys| - 1]
    ensures forall q | q in keys[..|keys| - 1] :: q in keys
  {
    AscendingIsNew(keys, |keys| - 1);
    assert keys == keys[..|keys| - 1] + [keys[|keys| - 1]];
  }

  lemma {:induction false} EmptiedShows(batch: Batch, keys: seq<Prefix>, tags: set<Prefix>, p: Prefix)
    requires forall k | 0 <= k < |keys| :: keys[k] in batch
    requires WellTagged(batch) && Ascending(keys) && p in tags
    requires forall q | q in keys && q in tags :: q == p
    ensures Shown(Emptied(batch, keys), tags) == if p in keys then Shown(batch[p], {p}) else []
  {
    if |keys| > 0 {
      var front, last := keys[..|keys| - 1], keys[|keys| - 1];
      FrontKeys(keys, p);
      hide Shown, AllTagged, Ascending;
      EmptiedShows(batch, front, tags, p);
      BatchShows(Emptied(batch, front), batch[last], last, tags, p);
    }
  }

  lemma {:induction false} EmptiedTags(batch: Batch, keys: seq<Prefix>)
    requires forall k | 0 <= k < |keys| :: keys[k] in batch
    requires WellTagged(batch)
    ensures TagsAmong(Emptied(batch, keys), batch.Keys)
  {
    if |keys| > 0 {
      EmptiedTags(batch, keys[..|keys| - 1]);
    }
  }

  /** The lines of the batches come in the order of their prefixes. */
  lemma {:induction false} EmptiedClimbs(batch: Batch, keys: seq<Prefix>)
    requires forall k | 0 <= k < |keys| :: keys[k] in batch
    requires WellTagged(batch) && Ascending(keys)
    ensures Climbs(Emptied(batch, keys))
    ensures forall i | 0 <= i < |Emptied(batch, keys)| :: Emptied(batch, keys)[i].prefix in keys
  {
    if |keys| > 0 {
      var n := |keys| - 1;
      EmptiedClimbs(batch, keys[..n]);
      var front: seq<Check>, last: seq<Check> := Emptied(batch, keys[..n]), batch[keys[n]];
      var whole: seq<Check> := front + last;
      hide Emptied, Less;
      forall i, j | 0 <= i < j < |whole| ensures !Less(whole[j].prefix, whole[i].prefix) {
        if i < |front| {
          LessForward(keys, n, front[i].prefix);
          if j >= |front| {
            assert whole[j] == last[j - |front|];
          }
        } else {
          assert whole[i] == last[i - |front|] && whole[j] == last[j - |front|];
          LessIrreflexive(keys[n]);
        }
      }
      forall i | 0 <= i < |whole| ensures whole[i].prefix in keys {
        if i < |front| {
          assert front[i].prefix in keys[..n];
        } else {
          assert whole[i] == last[i - |front|];
        }
      }
      EmptiedLast(batch, keys);
    }
  }

  lemma EmptiedLast(batch: Batch, keys: seq<Prefix>)
    requires |keys| > 0 && forall k | 0 <= k < |keys| :: keys[k] in batch
    ensures Emptied(batch, keys) == Emptied(batch, keys[..|keys| - 1]) + batch[keys[|keys| - 1]]
  {
  }

  lemma LessForward(keys: seq<Prefix>, n: nat, p: Prefix)
    requires Ascending(keys) && n < |keys| && p in keys[..n]
    ensures !Less(keys[n], p)
  {
    var k :| 0 <= k < n && keys[k] == p;
    if Less(keys[n], p) {
      LessTransitive(p, keys[n], p);
      LessIrreflexive(p);
    }
  }

  /** The flushed lines show, under any tags that select one prefix only, the batch of that prefix. */
  ghost predicate IsFlushed(flushed: seq<Check>, batch: Batch) {
    && TagsAmong(flushed, batch.Keys)
    && forall tags: set<Prefix>, p | p in tags && tags * batch.Keys <= {p} ::
         Shown(flushed, tags) == Shown(Pending(batch, p), {p})
  }

  /** The flushed lines are the batches in the order of their prefixes. */
  ghost predicate IsEmptied(flushed: seq<Check>, batch: Batch) {
    exists keys :: IsSorted(keys, batch.Keys) && flushed == Emptied(batch, keys)
  }

  lemma IsEmptiedClimbs(flushed: seq<Check>, batch: Batch)
    requires WellTagged(batch) && IsEmptied(flushed, batch)
    ensures Climbs(flushed)
  {
    var keys :| IsSorted(keys, batch.Keys) && flushed == Emptied(batch, keys);
    assert forall k | 0 <= k < |keys| :: keys[k] in keys && keys[k] in batch;
    hide Less, Emptied, WellTagged, Climbs;
    EmptiedClimbs(batch, keys);
  }

  /** Moves all batches to the output, in the order of their prefixes. */
  method Flush(result: seq<Check>, batch: Batch) returns (r: seq<Check>)
    requires WellTagged(batch)
    ensures exists flushed :: r == result + flushed && IsFlushed(flushed, batch) && IsEmptied(flushed, batch)
  {
    var keys := Sorted(batch.Keys);
    FlushedIs(batch, keys);
    r := AppendBatches(result, batch, keys);
    hide *;
    assert r == result + Emptied(batch, keys);
  }

  method AppendBatches(result: seq<Check>, batch: Batch, keys: seq<Prefix>) returns (r: seq<Check>)
    requires forall k | 0 <= k < |keys| :: keys[k] in batch
    ensures r == result + Emptied(batch, keys)
  {
    hide Emptied;
    r := result;
    EmptiedNothing(batch);
    assert keys[..0] == [];
    for k := 0 to |keys|
      invariant r == result + Emptied(batch, keys[..k])
    {
      EmptiedStep(batch, keys, k);
      r := r + batch[keys[k]];
    }
    assert keys[..|keys|] == keys;
  }

  lemma EmptiedNothing(batch: Batch)
    ensures Emptied(batch, []) == []
  {
  }

  lemma EmptiedStep(batch: Batch, keys: seq<Prefix>, k: nat)
    requires k < |keys| && forall j | 0 <= j < |keys| :: keys[j] in batch
    ensures Emptied(batch, keys[..k + 1]) == Emptied(batch, keys[..k]) + batch[keys[k]]
  {
    assert keys[..k + 1][..k] == keys[..k];
  }

  lemma FlushedIs(batch: Batch, keys: seq<Prefix>)
    requires WellTagged(batch) && IsSorted(keys, batch.Keys)
    ensures forall k | 0 <= k < |keys| :: keys[k] in batch
    ensures IsFlushed(Emptied(batch, keys), batch) && IsEmptied(Emptied(batch, keys), batch)
  {
    assert forall k | 0 <= k < |keys| :: keys[k] in keys && keys[k] in batch;
    var flushed := Emptied(batch, keys);
    EmptiedTags(batch, keys);
    hide Emptied, Shown, WellTagged;
    forall tags: set<Prefix>, p | p in tags && tags * batch.Keys <= {p}
      ensures Shown(flushed, tags) == Shown(Pending(batch, p), {p})
    {
      forall q | q in keys && q in tags ensures q == p {
        assert q in tags * batch.Keys;
      }
      EmptiedShows(batch, keys, tags, p);
      ShownNothing({p});
    }
  }

  lemma ShownNothing(tags: set<Prefix>)
    ensures Shown([], tags) == []
  {
  }

  // --------------------------------------------------------------------------------- adding lines

  ghost predicate Disjoint(infos: seq<Assigned>) {
    forall i, j, p | 0 <= i < |infos| && 0 <= j < |infos| && i != j && p in infos[i].prefixes ::
      p !in infos[j].prefixes
  }

  ghost predicate EachOnce(infos: seq<Assigned>) {
    forall i | 0 <= i < |infos| :: Ascending(infos[i].prefixes)
  }

  ghost function NewFor(q: Prefix, prefixes: seq<Prefix>, line: string): seq<Check> {
    if q in prefixes then [Check(q, line)] else []
  }

  /** The line has been added to the batch of every prefix of the list, and to no other. */
  ghost predicate Added(b: Batch, batch: Batch, prefixes: seq<Prefix>, line: string) {
    && WellTagged(b) && b.Keys == batch.Keys + (set p | p in prefixes)
    && forall q :: Pending(b, q) == Pending(batch, q) + NewFor(q, prefixes, line)
  }

  lemma AddedAt(b: Batch, batch: Batch, prefixes: seq<Prefix>, p: Prefix, line: string, q: Prefix)
    requires p !in prefixes && Pending(b, q) == Pending(batch, q) + NewFor(q, prefixes, line)
    ensures Pending(b[p := Pending(b, p) + [Check(p, line)]], q) == Pending(batch, q) + NewFor(q, prefixes + [p], line)
  {
  }

  lemma TaggedOneMore(b: Batch, p: Prefix, line: string)
    requires WellTagged(b)
    ensures WellTagged(b[p := Pending(b, p) + [Check(p, line)]])
  {
  }

  lemma AddedOneMore(b: Batch, batch: Batch, prefixes: seq<Prefix>, p: Prefix, line: string)
    requires Added(b, batch, prefixes, line) && p !in prefixes
    ensures Added(b[p := Pending(b, p) + [Check(p, line)]], batch, prefixes + [p], line)
  {
    TaggedOneMore(b, p, line);
    hide Pending, NewFor, WellTagged;
    forall q {
      AddedAt(b, batch, prefixes, p, line, q);
    }
  }

  /** Adds a line to the batches of all prefixes of one text. */
  method AddFor(batch: Batch, prefixes: seq<Prefix>, line: string) returns (b: Batch)
    requires WellTagged(batch) && Ascending(prefixes)
    ensures Added(b, batch, prefixes, line)
  {
    b := batch;
    assert Added(b, batch, prefixes[..0], line);
    hide Added;
    for k := 0 to |prefixes|
      invariant Added(b, batch, prefixes[..k], line)
    {
      assert prefixes[..k + 1] == prefixes[..k] + [prefixes[k]];
      AscendingIsNew(prefixes, k);
      AddedOneMore(b, batch, prefixes[..k], prefixes[k], line);
      b := b[prefixes[k] := Pending(b, prefixes[k]) + [Check(prefixes[k], line)]];
    }
    assert prefixes[..|prefixes|] == prefixes;
  }

  ghost predicate SameLength(infos: seq<Assigned>) {
    forall i, j | 0 <= i < |infos| && 0 <= j < |infos| :: |infos[i].text| == |infos[j].text|
  }

  ghost predicate IsOwn(infos: seq<Assigned>, i: int, p: Prefix) {
    0 <= i < |infos| && p in infos[i].prefixes
  }

  /** The prefixes of all texts. */
  ghost function AllPrefixes(infos: seq<Assigned>): set<Prefix> {
    set i, p | 0 <= i < |infos| && p in infos[i].prefixes :: p
  }

  /** Adds line n of every text to the batches of its prefixes. */
  method AddLine(infos: seq<Assigned>, n: nat, batch: Batch) returns (b: Batch)
    requires WellTagged(batch) && Disjoint(infos) && EachOnce(infos)
    requires forall i | 0 <= i < |infos| :: n < |infos[i].text|
    requires batch.Keys <= AllPrefixes(infos)
    ensures WellTagged(b) && b.Keys <= AllPrefixes(infos)
    ensures forall i, p | IsOwn(infos, i, p) :: Pending(b, p) == Pending(batch, p) + [Check(p, infos[i].text[n])]
  {
    b := batch;
    for m := 0 to |infos|
      invariant WellTagged(b) && b.Keys <= AllPrefixes(infos)
      invariant forall i, p | IsOwn(infos, i, p) :: Pending(b, p) ==
                  Pending(batch, p) + if i < m then [Check(p, infos[i].text[n])] else []
    {
      ghost var before := b;
      b := AddFor(b, infos[m].prefixes, infos[m].text[n]);
      forall i, p | IsOwn(infos, i, p)
        ensures Pending(b, p) == Pending(batch, p) + if i < m + 1 then [Check(p, infos[i].text[n])] else []
      {
        assert i != m ==> p !in infos[m].prefixes;
        assert Pending(b, p) == Pending(before, p) + NewFor(p, infos[m].prefixes, infos[m].text[n]);
      }
    }
  }

  // ------------------------------------------------------------------------------ the break-down

  /** Line n is the same in all texts. */
  predicate CommonLine(infos: seq<Assigned>, n: nat)
    requires infos != [] && SameLength(infos) && n < |infos[0].text|
  {
    forall i | 0 <= i < |infos| :: infos[i].text[n] == infos[0].text[n]
  }

  /** The common lines among the first n. */
  ghost function CommonLines(infos: seq<Assigned>, n: nat): (r: seq<string>)
    requires infos != [] && SameLength(infos) && n <= |infos[0].text|
    ensures |r| <= n
  {
    if n == 0 then []
    else CommonLines(infos, n - 1) + if CommonLine(infos, n - 1) then [infos[0].text[n - 1]] else []
  }

  lemma {:induction false} FewerCommonLines(infos: seq<Assigned>, n: nat, k: nat)
    requires infos != [] && SameLength(infos) && k < n <= |infos[0].text| && !CommonLine(infos, k)
    ensures |CommonLines(infos, n)| < n
  {
    if k < n - 1 {
      FewerCommonLines(infos, n - 1, k);
    }
  }

  /** Output and batches together hold exactly the first n lines of every text. */
  ghost predicate Accounted(infos: seq<Assigned>, common: Prefix, result: seq<Check>, batch: Batch, n: nat)
    requires infos != [] && SameLength(infos) && n <= |infos[0].text|
  {
    && WellTagged(batch) && batch.Keys <= AllPrefixes(infos)
    && TagsAmong(result, AllPrefixes(infos) + {common})
    && Shown(result, {common}) == CommonLines(infos, n)
    && forall i, p | IsOwn(infos, i, p) ::
         Shown(result, {common, p}) + Shown(Pending(batch, p), {p}) == infos[i].text[..n]
  }

  lemma FlushKeepsLines(result: seq<Check>, batch: Batch, flushed: seq<Check>, common: Prefix, p: Prefix)
    requires IsFlushed(flushed, batch) && common !in batch
    ensures Shown(result + flushed, {common, p}) == Shown(result, {common, p}) + Shown(Pending(batch, p), {p})
    ensures Shown(result + flushed, {common}) == Shown(result, {common})
  {
    ShownAppend(result, flushed, {common, p});
    ShownAppend(result, flushed, {common});
    assert {common, p} * batch.Keys <= {p};
    assert {common} * batch.Keys <= {common};
    assert Shown(flushed, {common}) == Shown(Pending(batch, common), {common});
  }

  /** Flushing moves no line in or out of what any run line sees. */
  lemma FlushKeepsAccount(infos: seq<Assigned>, common: Prefix, result: seq<Check>, batch: Batch, n: nat,
                          flushed: seq<Check>)
    requires infos != [] && SameLength(infos) && n <= |infos[0].text| && common !in AllPrefixes(infos)
    requires Accounted(infos, common, result, batch, n)
    requires IsFlushed(flushed, batch)
    ensures Accounted(infos, common, result + flushed, map[], n)
  {
    assert common !in batch;
    assert TagsAmong(result + flushed, AllPrefixes(infos) + {common});
    hide IsFlushed, AllPrefixes, CommonLines, TagsAmong;
    FlushKeepsLines(result, batch, flushed, common, common);
    forall i, p | IsOwn(infos, i, p)
      ensures Shown(result + flushed, {common, p}) + Shown(Pending(map[], p), {p}) == infos[i].text[..n]
    {
      FlushKeepsLines(result, batch, flushed, common, p);
    }
  }

  lemma CommonStep(infos: seq<Assigned>, common: Prefix, result: seq<Check>, n: nat)
    requires infos != [] && SameLength(infos) && n < |infos[0].text| && CommonLine(infos, n)
    requires Accounted(infos, common, result, map[], n)
    ensures Accounted(infos, common, result + [Check(common, infos[0].text[n])], map[], n + 1)
  {
    var added := [Check(common, infos[0].text[n])];
    ShownAppend(result, added, {common});
    forall i, p | IsOwn(infos, i, p)
      ensures Shown(result + added, {common, p}) + Shown(Pending(map[], p), {p}) == infos[i].text[..n + 1]
    {
      ShownAppend(result, added, {common, p});
      assert |infos[i].text| == |infos[0].text|;
      assert infos[i].text[n] == infos[0].text[n];
      assert infos[i].text[..n + 1] == infos[i].text[..n] + [infos[0].text[n]];
    }
  }

  lemma NothingAccounted(infos: seq<Assigned>, common: Prefix)
    requires infos != [] && SameLength(infos)
    ensures Accounted(infos, common, [], map[], 0)
  {
  }

  lemma AccountIsTidy(infos: seq<Assigned>, common: Prefix, result: seq<Check>, batch: Batch, n: nat)
    requires infos != [] && SameLength(infos) && n <= |infos[0].text|
    requires Accounted(infos, common, result, batch, n)
    ensures WellTagged(batch) && batch.Keys <= AllPrefixes(infos)
  {
  }

  /** Before a common line, everything that is pending is flushed. */
  method Synchronize(infos: seq<Assigned>, common: Prefix, result: seq<Check>, batch: Batch, ghost n: nat)
    returns (r: seq<Check>)
    requires infos != [] && SameLength(infos) && n < |infos[0].text| && CommonLine(infos, n)
    requires WellTagged(batch) && common !in AllPrefixes(infos) && Accounted(infos, common, result, batch, n)
    requires Grouped(result, common) && Closed(result, common)
    ensures Accounted(infos, common, r + [Check(common, infos[0].text[n])], map[], n + 1) && Grouped(r, common)
  {
    hide Accounted, IsFlushed, IsEmptied, AllPrefixes, WellTagged, Grouped, Closed, Climbs;
    r := Flush(result, batch);
    ghost var flushed :| r == result + flushed && IsFlushed(flushed, batch) && IsEmptied(flushed, batch);
    IsEmptiedClimbs(flushed, batch);
    GroupedAppend(result, flushed, common);
    FlushKeepsAccount(infos, common, result, batch, n, flushed);
    CommonStep(infos, common, r, n);
  }

  lemma AddedLine(pending: seq<Check>, p: Prefix, line: string)
    ensures Shown(pending + [Check(p, line)], {p}) == Shown(pending, {p}) + [line]
  {
    ShownAppend(pending, [Check(p, line)], {p});
  }

  lemma PrivateStep(infos: seq<Assigned>, common: Prefix, result: seq<Check>, batch: Batch, b: Batch, n: nat)
    requires infos != [] && SameLength(infos) && n < |infos[0].text| && !CommonLine(infos, n)
    requires Accounted(infos, common, result, batch, n)
    requires forall i | 0 <= i < |infos| :: n < |infos[i].text|
    requires WellTagged(b) && b.Keys <= AllPrefixes(infos)
    requires forall i, p | IsOwn(infos, i, p) :: Pending(b, p) == Pending(batch, p) + [Check(p, infos[i].text[n])]
    ensures Accounted(infos, common, result, b, n + 1)
  {
    hide AllPrefixes, WellTagged, Pending, TagsAmong;
    assert CommonLines(infos, n + 1) == CommonLines(infos, n);
    forall i, p | IsOwn(infos, i, p)
      ensures Shown(result, {common, p}) + Shown(Pending(b, p), {p}) == infos[i].text[..n + 1]
    {
      hide CommonLines, CommonLine, SameLength;
      AddedLine(Pending(batch, p), p, infos[i].text[n]);
      assert infos[i].text[..n + 1] == infos[i].text[..n] + [infos[i].text[n]];
    }
  }

  /** The common prefix and one prefix of a text together show that text, in full and in order. */
  ghost predicate ShowsAll(infos: seq<Assigned>, common: Prefix, result: seq<Check>)
    requires infos != [] && SameLength(infos)
  {
    && TagsAmong(result, AllPrefixes(infos) + {common})
    && Shown(result, {common}) == CommonLines(infos, |infos[0].text|)
    && forall i, p | IsOwn(infos, i, p) :: Shown(result, {common, p}) == infos[i].text
  }

  /**
    The break-down is given up (an empty result) if the first lines differ, or at a line to be
    told apart when the first text has no prefix. Otherwise it shows every text in full.
   */
  method BreakDown(infos: seq<Assigned>, common: Prefix) returns (result: seq<Check>)
    requires infos != [] && SameLength(infos) && |infos[0].text| > 0
    requires Disjoint(infos) && EachOnce(infos) && common !in AllPrefixes(infos)
    ensures result != [] <==>
              CommonLine(infos, 0) &&
              (infos[0].prefixes != [] || forall n | 0 <= n < |infos[0].text| :: CommonLine(infos, n))
    ensures result != [] ==> ShowsAll(infos, common, result) && Grouped(result, common)
  {
    if !CommonLine(infos, 0) {
      return [];
    }
    result := [];
    var batch: Batch := map[];
    NothingAccounted(infos, common);
    hide Accounted, TagsAmong, AllPrefixes, CommonLines, Shown, Pending, WellTagged, Grouped, Closed, Climbs, IsFlushed, IsEmptied;
    GroupedNothing(common);
    for n := 0 to |infos[0].text|
      invariant Accounted(infos, common, result, batch, n) && Grouped(result, common) && Closed(result, common)
      invariant n > 0 ==> |result| > 0
      invariant |infos[0].prefixes| > 0 || forall k | 0 <= k < n :: CommonLine(infos, k)
    {
      AccountIsTidy(infos, common, result, batch, n);
      if CommonLine(infos, n) {
        result := Synchronize(infos, common, result, batch, n);
        GroupedCommon(result, common, infos[0].text[n]);
        result := result + [Check(common, infos[0].text[n])];
        batch := map[];
      } else {
        if |infos[0].prefixes| == 0 {
          return [];
        }
        var b := AddLine(infos, n, batch);
        PrivateStep(infos, common, result, batch, b, n);
        batch := b;
      }
    }
    AccountIsTidy(infos, common, result, batch, |infos[0].text|);
    var r := Flush(result, batch);
    ghost var flushed :| r == result + flushed && IsFlushed(flushed, batch) && IsEmptied(flushed, batch);
    IsEmptiedClimbs(flushed, batch);
    GroupedAppend(result, flushed, common);
    FlushKeepsAccount(infos, common, result, batch, |infos[0].text|, flushed);
    AccountsForAll(infos, common, r);
    result := r;
  }

  lemma AccountsForAll(infos: seq<Assigned>, common: Prefix, result: seq<Check>)
    requires infos != [] && SameLength(infos) && Accounted(infos, common, result, map[], |infos[0].text|)
    ensures ShowsAll(infos, common, result)
  {
    forall i, p | IsOwn(infos, i, p) ensures Shown(result, {common, p}) == infos[i].text {
      assert Pending(map[], p) == [];
      assert infos[i].text[..|infos[0].text|] == infos[i].text;
    }
  }
}
