/**
  Model of llvm/utils/check_ninja_deps.py: a topological sort with in-degree counters, the
  ancestor sets built along it, and the cross-check of recorded dependencies against them.

  The graph keeps its edges as a list, so parallel edges and cycles are allowed.
 */
module NinjaDeps {
  import opened Wrappers
  import Sublists

  type Vertex = string
  type Label = string
  type Pair = (Label, Label)    // a target and a file

  datatype Edge = Edge(src: Vertex, dst: Vertex)

  datatype Graph = Graph(nodes: set<Vertex>, edges: seq<Edge>, labels: map<Vertex, Label>) {
    ghost predicate Valid() {
      && labels.Keys == nodes
      && forall e | e in edges :: e.src in nodes && e.dst in nodes
    }

    ghost predicate HasEdge(u: Vertex, v: Vertex) {
      Edge(u, v) in edges
    }
  }

  // ---------------------------------------------------------------- reachability and schedules

  ghost predicate Linked(g: Graph, p: seq<Vertex>) {
    forall i | 0 <= i < |p| - 1 :: g.HasEdge(p[i], p[i + 1])
  }

  ghost predicate IsPath(g: Graph, p: seq<Vertex>) {
    |p| >= 2 && Linked(g, p)
  }

  ghost predicate IsPathBetween(g: Graph, p: seq<Vertex>, u: Vertex, v: Vertex) {
    IsPath(g, p) && p[0] == u && p[|p| - 1] == v
  }

  /** u is a proper ancestor of v: a path of at least one edge leads from u to v. */
  ghost predicate Reaches(g: Graph, u: Vertex, v: Vertex) {
    exists p :: IsPathBetween(g, p, u, v)
  }

  ghost predicate Acyclic(g: Graph) {
    forall v | v in g.nodes :: !Reaches(g, v, v)
  }

  ghost predicate TaintedBy(g: Graph, c: Vertex, v: Vertex) {
    Reaches(g, c, c) && (c == v || Reaches(g, c, v))
  }

  /** v lies on a cycle or can be reached from one. */
  ghost predicate Tainted(g: Graph, v: Vertex) {
    exists c :: TaintedBy(g, c, v)
  }

  ghost predicate Distinct<T>(s: seq<T>) {
    forall i, j | 0 <= i < j < |s| :: s[i] != s[j]
  }

  /** v may be listed next: it is new, and all of its predecessors are listed. */
  ghost predicate MayFollow(g: Graph, listed: seq<Vertex>, v: Vertex) {
    v !in listed && forall u | g.HasEdge(u, v) :: u in listed
  }

  /** Every vertex is listed at most once, and after all of its predecessors. */
  ghost predicate Legal(g: Graph, s: seq<Vertex>) {
    s == [] || (Legal(g, s[..|s| - 1]) && MayFollow(g, s[..|s| - 1], s[|s| - 1]))
  }

  /** A legal build order of the whole graph. */
  ghost predicate IsSchedule(g: Graph, s: seq<Vertex>) {
    Legal(g, s) && forall v :: v in s <==> v in g.nodes
  }

  ghost predicate Before<T>(s: seq<T>, x: T, y: T) {
    exists i, j | 0 <= i < j < |s| :: s[i] == x && s[j] == y
  }

  lemma AppendIsLegal(g: Graph, s: seq<Vertex>, v: Vertex)
    requires Legal(g, s) && v !in s && forall u | g.HasEdge(u, v) :: u in s
    ensures Legal(g, s + [v])
  {
    assert (s + [v])[..|s|] == s;
  }

  lemma {:induction false} LegalAt(g: Graph, s: seq<Vertex>, j: nat)
    requires Legal(g, s) && j < |s|
    ensures Legal(g, s[..j]) && s[j] !in s[..j] && forall u | g.HasEdge(u, s[j]) :: u in s[..j]
  {
    if j < |s| - 1 {
      LegalAt(g, s[..|s| - 1], j);
      assert s[..|s| - 1][..j] == s[..j];
    }
  }

  lemma EdgeReaches(g: Graph, u: Vertex, v: Vertex)
    requires g.HasEdge(u, v)
    ensures Reaches(g, u, v)
  {
    assert IsPathBetween(g, [u, v], u, v);
  }

  lemma ReachesTransitive(g: Graph, u: Vertex, v: Vertex, w: Vertex)
    requires Reaches(g, u, v) && Reaches(g, v, w)
    ensures Reaches(g, u, w)
  {
    var p :| IsPathBetween(g, p, u, v);
    var q :| IsPathBetween(g, q, v, w);
    assert IsPathBetween(g, p + q[1..], u, w);
  }

  lemma LastStep(g: Graph, u: Vertex, v: Vertex) returns (w: Vertex)
    requires Reaches(g, u, v)
    ensures g.HasEdge(w, v) && (u == w || Reaches(g, u, w))
  {
    var p :| IsPathBetween(g, p, u, v);
    w := p[|p| - 2];
    if |p| > 2 {
      assert IsPathBetween(g, p[..|p| - 1], u, w);
    }
  }

  lemma {:induction false} PathEarlier(g: Graph, s: seq<Vertex>, j: nat, p: seq<Vertex>)
    requires Legal(g, s) && j < |s| && IsPath(g, p) && p[|p| - 1] == s[j]
    ensures p[0] in s[..j]
    decreases |p|
  {
    var w := p[|p| - 2];
    LegalAt(g, s, j);
    assert g.HasEdge(w, s[j]);
    if |p| > 2 {
      var k :| 0 <= k < j && s[k] == w;
      PathEarlier(g, s, k, p[..|p| - 1]);
      assert s[..k] <= s[..j];
    }
  }

  /** In a legal order every proper ancestor of a vertex is listed earlier. */
  lemma AncestorsEarlier(g: Graph, s: seq<Vertex>, j: nat, u: Vertex)
    requires Legal(g, s) && j < |s| && Reaches(g, u, s[j])
    ensures u in s[..j]
  {
    var p :| IsPathBetween(g, p, u, s[j]);
    PathEarlier(g, s, j, p);
  }

  /** A legal order never contains a vertex on, or behind, a cycle. */
  lemma ListedIsUntainted(g: Graph, s: seq<Vertex>, j: nat)
    requires Legal(g, s) && j < |s|
    ensures !Tainted(g, s[j])
  {
    if c :| TaintedBy(g, c, s[j]) {
      if c != s[j] {
        AncestorsEarlier(g, s, j, c);
      }
      var k :| 0 <= k <= j && s[k] == c;
      AncestorsEarlier(g, s, k, c);
      LegalAt(g, s, k);
      assert false;
    }
  }

  // ------------------------------------------------------------------ vertices never output

  lemma {:induction false} DistinctBound<T>(s: seq<T>, u: set<T>)
    requires Distinct(s) && forall x | x in s :: x in u
    ensures |s| <= |u|
  {
    if s != [] {
      DistinctBound(s[1..], u - {s[0]});
    }
  }

  ghost predicate HasPredecessorIn(g: Graph, s: set<Vertex>, v: Vertex) {
    exists u :: u in s && g.HasEdge(u, v)
  }

  /** A path without repetition in the given set. */
  ghost predicate IsWalk(g: Graph, stuck: set<Vertex>, p: seq<Vertex>) {
    p != [] && Distinct(p) && Linked(g, p) && forall v | v in p :: v in stuck
  }

  lemma CloseCycle(g: Graph, u: Vertex, p: seq<Vertex>)
    requires Linked(g, p) && u in p && g.HasEdge(u, p[0])
    ensures Tainted(g, p[|p| - 1])
  {
    var k :| 0 <= k < |p| && p[k] == u;
    var cycle := [u] + p[..k + 1];
    assert IsPathBetween(g, cycle, u, u);
    if k < |p| - 1 {
      assert IsPathBetween(g, p[k..], u, p[|p| - 1]);
    }
    assert TaintedBy(g, u, p[|p| - 1]);
  }

  lemma ExtendWalk(g: Graph, stuck: set<Vertex>, u: Vertex, p: seq<Vertex>)
    requires IsWalk(g, stuck, p) && u in stuck && u !in p && g.HasEdge(u, p[0])
    ensures IsWalk(g, stuck, [u] + p) && |[u] + p| <= |stuck| && ([u] + p)[|[u] + p| - 1] == p[|p| - 1]
  {
    DistinctBound([u] + p, stuck);
  }

  lemma PredecessorOf(g: Graph, stuck: set<Vertex>, p: seq<Vertex>) returns (u: Vertex)
    requires forall v | v in stuck :: HasPredecessorIn(g, stuck, v)
    requires IsWalk(g, stuck, p)
    ensures u in stuck && g.HasEdge(u, p[0]) && Linked(g, p)
  {
    assert HasPredecessorIn(g, stuck, p[0]);
    u :| u in stuck && g.HasEdge(u, p[0]);
  }

  lemma {:induction false} WalkBack(g: Graph, stuck: set<Vertex>, p: seq<Vertex>)
    requires forall v | v in stuck :: HasPredecessorIn(g, stuck, v)
    requires IsWalk(g, stuck, p) && |p| <= |stuck| && |p| > 0
    ensures Tainted(g, p[|p| - 1])
    decreases |stuck| - |p|
  {
    var u := PredecessorOf(g, stuck, p);
    hide IsWalk, Tainted, HasPredecessorIn, Linked;
    if u in p {
      CloseCycle(g, u, p);
    } else {
      ExtendWalk(g, stuck, u, p);
      WalkBack(g, stuck, [u] + p);
    }
  }

  /** If no vertex of a finite set can be output next, a cycle leads to every one of them. */
  lemma StuckIsTainted(g: Graph, stuck: set<Vertex>, v: Vertex)
    requires forall w | w in stuck :: HasPredecessorIn(g, stuck, w)
    requires v in stuck
    ensures Tainted(g, v)
  {
    DistinctBound([v], stuck);
    assert [v][|[v]| - 1] == v;
    WalkBack(g, stuck, [v]);
  }

  // ------------------------------------------------------------------------- in-degree counters

  function OutNeighbors(edges: seq<Edge>, v: Vertex): seq<Vertex> {
    if edges == [] then []
    else (if edges[0].src == v then [edges[0].dst] else []) + OutNeighbors(edges[1..], v)
  }

  function InNeighbors(edges: seq<Edge>, v: Vertex): (ws: seq<Vertex>)
    ensures forall w :: w in ws <==> Edge(w, v) in edges
  {
    if edges == [] then []
    else (if edges[0].dst == v then [edges[0].src] else []) + InNeighbors(edges[1..], v)
  }

  function InDegree(g: Graph, v: Vertex): nat {
    |InNeighbors(g.edges, v)|
  }

  /** Edges into w, with multiplicity, whose source has not been output yet. */
  ghost function Pending(edges: seq<Edge>, w: Vertex, done: set<Vertex>): nat {
    if edges == [] then 0
    else (if edges[0].dst == w && edges[0].src !in done then 1 else 0) + Pending(edges[1..], w, done)
  }

  ghost function Occurrences(ws: seq<Vertex>, w: Vertex): nat {
    if ws == [] then 0 else (if ws[0] == w then 1 else 0) + Occurrences(ws[1..], w)
  }

  lemma {:induction false} PendingInitially(edges: seq<Edge>, w: Vertex)
    ensures Pending(edges, w, {}) == |InNeighbors(edges, w)|
  {
    if edges != [] {
      PendingInitially(edges[1..], w);
    }
  }

  lemma {:induction false} PendingZero(edges: seq<Edge>, w: Vertex, done: set<Vertex>)
    ensures Pending(edges, w, done) == 0 <==> forall u | Edge(u, w) in edges :: u in done
  {
    if edges != [] {
      PendingZero(edges[1..], w, done);
      assert edges == [edges[0]] + edges[1..];
      assert edges[0].dst == w ==> Edge(edges[0].src, w) in edges;
    }
  }

  lemma {:induction false} PendingAfterOutput(edges: seq<Edge>, w: Vertex, done: set<Vertex>, v: Vertex)
    requires v !in done
    ensures Pending(edges, w, done) == Pending(edges, w, done + {v}) + Occurrences(OutNeighbors(edges, v), w)
  {
    if edges != [] {
      PendingAfterOutput(edges[1..], w, done, v);
      if edges[0].src == v {
        assert OutNeighbors(edges, v) == [edges[0].dst] + OutNeighbors(edges[1..], v);
        assert OutNeighbors(edges, v)[1..] == OutNeighbors(edges[1..], v);
      } else {
        assert OutNeighbors(edges, v) == OutNeighbors(edges[1..], v);
      }
    }
  }

  lemma {:induction false} OutNeighborsAreNodes(edges: seq<Edge>, v: Vertex, nodes: set<Vertex>)
    requires forall e | e in edges :: e.dst in nodes
    ensures forall w | w in OutNeighbors(edges, v) :: w in nodes
  {
    if edges != [] {
      OutNeighborsAreNodes(edges[1..], v, nodes);
    }
  }

  /**
    The state of the counters: `rest` are the successors of the last output vertex whose counters
    have not been decremented yet.
   */
  ghost predicate Counted(g: Graph, ideg: map<Vertex, int>, ready: set<Vertex>, done: set<Vertex>, rest: seq<Vertex>) {
    && ideg.Keys == g.nodes
    && (forall w | w in g.nodes :: ideg[w] == Pending(g.edges, w, done) + Occurrences(rest, w))
    && (forall w | w in g.nodes && w in done :: ideg[w] == 0)
    && (forall w :: w in ready <==> w in g.nodes && w !in done && ideg[w] == 0)
  }

  lemma CountedInitially(g: Graph, ideg: map<Vertex, int>, ready: set<Vertex>)
    requires ideg.Keys == g.nodes && forall w | w in g.nodes :: ideg[w] == InDegree(g, w)
    requires forall w :: w in ready <==> w in g.nodes && ideg[w] == 0
    ensures Counted(g, ideg, ready, {}, [])
  {
    forall w { PendingInitially(g.edges, w); }
  }

  lemma CountedAfterOutput(g: Graph, ideg: map<Vertex, int>, ready: set<Vertex>, done: set<Vertex>, v: Vertex)
    requires Counted(g, ideg, ready, done, []) && v in ready
    ensures Counted(g, ideg, ready - {v}, done + {v}, OutNeighbors(g.edges, v))
  {
    forall w { PendingAfterOutput(g.edges, w, done, v); }
  }

  lemma CountedAfterDecrement(g: Graph, ideg: map<Vertex, int>, ready: set<Vertex>, done: set<Vertex>, w: Vertex,
                              rest: seq<Vertex>)
    requires w in g.nodes && Counted(g, ideg, ready, done, [w] + rest)
    ensures ideg[w] == 1 ==> Counted(g, ideg[w := ideg[w] - 1], ready + {w}, done, rest)
    ensures ideg[w] != 1 ==> Counted(g, ideg[w := ideg[w] - 1], ready, done, rest)
  {
    assert ([w] + rest)[1..] == rest;
    forall v | v in g.nodes ensures Occurrences([w] + rest, v) == (if v == w then 1 else 0) + Occurrences(rest, v) {}
  }

  lemma PrefixStep<T>(s: seq<T>, k: nat)
    requires k < |s|
    ensures s[..k + 1] == s[..k] + [s[k]]
  {
  }

  lemma SuffixStep<T>(s: seq<T>, k: nat)
    requires k < |s|
    ensures s[k..] == [s[k]] + s[k + 1..]
  {
  }

  lemma ExtendOrder(g: Graph, order: seq<Vertex>, done: set<Vertex>, v: Vertex)
    requires Legal(g, order)
    requires forall w :: w in done <==> w in order
    requires v !in done && Pending(g.edges, v, done) == 0
    ensures Legal(g, order + [v])
  {
    PendingZero(g.edges, v, done);
    AppendIsLegal(g, order, v);
  }

  /**
    The vertices yielded by toposort, in order: exactly those that no cycle leads to, each once
    and after all of its predecessors.
   */
  method Toposort(g: Graph) returns (order: seq<Vertex>)
    requires g.Valid()
    ensures Legal(g, order)
    ensures forall v :: v in order <==> v in g.nodes && !Tainted(g, v)
  {
    var ideg: map<Vertex, int> := map v | v in g.nodes :: InDegree(g, v);
    var ready := set v | v in g.nodes && ideg[v] == 0;
    order := [];
    ghost var done: set<Vertex> := {};
    CountedInitially(g, ideg, ready);
    hide Counted, Legal, Tainted, InDegree, OutNeighbors, Pending;

    while ready != {}
      invariant done <= g.nodes && forall v :: v in done <==> v in order
      invariant Counted(g, ideg, ready, done, [])
      invariant Legal(g, order)
      decreases g.nodes - done
    {
      var v :| v in ready;
      ReadyIsNext(g, ideg, ready, done, v);
      ExtendOrder(g, order, done, v);
      CountedAfterOutput(g, ideg, ready, done, v);
      order := order + [v];
      ready := ready - {v};
      done := done + {v};

      var nbrs := OutNeighbors(g.edges, v);
      OutNeighborsAreNodes(g.edges, v, g.nodes);
      HasCounters(g, ideg, ready, done, nbrs);
      for k := 0 to |nbrs|
        invariant ideg.Keys == g.nodes && Counted(g, ideg, ready, done, nbrs[k..])
      {
        var w := nbrs[k];
        SuffixStep(nbrs, k);
        CountedAfterDecrement(g, ideg, ready, done, w, nbrs[k + 1..]);
        ideg := ideg[w := ideg[w] - 1];
        if ideg[w] == 0 {
          ready := ready + {w};
        }
      }
      assert nbrs[|nbrs|..] == [];
    }
    NothingReady(g, ideg, done);
    OrderIsExact(g, order, done);
  }

  lemma HasCounters(g: Graph, ideg: map<Vertex, int>, ready: set<Vertex>, done: set<Vertex>, rest: seq<Vertex>)
    requires Counted(g, ideg, ready, done, rest)
    ensures ideg.Keys == g.nodes
  {
  }

  lemma ReadyIsNext(g: Graph, ideg: map<Vertex, int>, ready: set<Vertex>, done: set<Vertex>, v: Vertex)
    requires Counted(g, ideg, ready, done, []) && v in ready
    ensures v in g.nodes && v !in done && Pending(g.edges, v, done) == 0
  {
  }

  lemma NothingReady(g: Graph, ideg: map<Vertex, int>, done: set<Vertex>)
    requires Counted(g, ideg, {}, done, [])
    ensures forall v | v in g.nodes && Pending(g.edges, v, done) == 0 :: v in done
  {
  }

  /** When nothing is ready, the output is all that no cycle leads to. */
  lemma OrderIsExact(g: Graph, order: seq<Vertex>, done: set<Vertex>)
    requires g.Valid() && Legal(g, order)
    requires forall v :: v in done <==> v in order
    requires done <= g.nodes && forall v | v in g.nodes && Pending(g.edges, v, done) == 0 :: v in done
    ensures forall v :: v in order <==> v in g.nodes && !Tainted(g, v)
  {
    forall j | 0 <= j < |order| ensures !Tainted(g, order[j]) {
      ListedIsUntainted(g, order, j);
    }
    var stuck := g.nodes - done;
    forall w | w in stuck ensures HasPredecessorIn(g, stuck, w) {
      PendingZero(g.edges, w, done);
      var u :| Edge(u, w) in g.edges && u !in done;
      assert g.HasEdge(u, w);
    }
    forall v | v in stuck ensures Tainted(g, v) {
      StuckIsTainted(g, stuck, v);
    }
  }

  // ------------------------------------------------------------------------------ ancestor sets

  ghost function AncestorLabels(g: Graph, v: Vertex): set<Label>
    requires g.Valid()
  {
    set u | u in g.nodes && Reaches(g, u, v) :: g.labels[u]
  }

  ghost function SelfAndAncestorLabels(g: Graph, v: Vertex): set<Label>
    requires g.Valid() && v in g.nodes
  {
    {g.labels[v]} + AncestorLabels(g, v)
  }

  /** The ancestors of v are its predecessors and their ancestors. */
  lemma AncestorStep(g: Graph, v: Vertex, l: Label)
    requires g.Valid() && v in g.nodes
    ensures l in SelfAndAncestorLabels(g, v) <==>
            l == g.labels[v] || exists w :: g.HasEdge(w, v) && l in SelfAndAncestorLabels(g, w)
  {
    if u :| u in g.nodes && Reaches(g, u, v) && g.labels[u] == l {
      var w := LastStep(g, u, v);
      assert l in SelfAndAncestorLabels(g, w);
    }
    forall w | g.HasEdge(w, v) && l in SelfAndAncestorLabels(g, w) ensures l in AncestorLabels(g, v) {
      EdgeReaches(g, w, v);
      if l != g.labels[w] {
        var u :| u in g.nodes && Reaches(g, u, w) && g.labels[u] == l;
        ReachesTransitive(g, u, w, v);
      }
    }
  }

  ghost function LabelsThrough(g: Graph, ws: seq<Vertex>): set<Label>
    requires g.Valid() && forall w | w in ws :: w in g.nodes
  {
    if ws == [] then {}
    else LabelsThrough(g, ws[..|ws| - 1]) + SelfAndAncestorLabels(g, ws[|ws| - 1])
  }

  lemma {:induction false} LabelsThroughMember(g: Graph, ws: seq<Vertex>, l: Label)
    requires g.Valid() && forall w | w in ws :: w in g.nodes
    ensures l in LabelsThrough(g, ws) <==> exists w :: w in ws && l in SelfAndAncestorLabels(g, w)
  {
    if ws != [] {
      LabelsThroughMember(g, ws[..|ws| - 1], l);
    }
  }

  lemma AncestorUnion(g: Graph, v: Vertex, ws: seq<Vertex>)
    requires g.Valid() && v in g.nodes
    requires forall w | w in ws :: w in g.nodes
    requires forall w :: w in ws <==> g.HasEdge(w, v)
    ensures {g.labels[v]} + LabelsThrough(g, ws) == SelfAndAncestorLabels(g, v)
  {
    forall l ensures l in {g.labels[v]} + LabelsThrough(g, ws) <==> l in SelfAndAncestorLabels(g, v) {
      AncestorStep(g, v, l);
      LabelsThroughMember(g, ws, l);
    }
  }

  ghost predicate AncestorsSoFar(g: Graph, vs: seq<Vertex>, a: map<Vertex, set<Label>>)
    requires g.Valid()
  {
    && a.Keys <= g.nodes
    && (forall v :: v in a <==> v in vs)
    && forall v | v in a :: a[v] == SelfAndAncestorLabels(g, v)
  }

  lemma AncestorsSoFarExtended(g: Graph, vs: seq<Vertex>, a: map<Vertex, set<Label>>, v: Vertex,
                                av: set<Label>, ws: seq<Vertex>)
    requires g.Valid() && AncestorsSoFar(g, vs, a) && v in g.nodes
    requires (forall w | w in ws :: w in g.nodes) && forall w :: w in ws <==> g.HasEdge(w, v)
    requires av == {g.labels[v]} + LabelsThrough(g, ws)
    ensures AncestorsSoFar(g, vs + [v], a[v := av])
    ensures av - {g.labels[v]} == AncestorLabels(g, v) - {g.labels[v]}
  {
    AncestorUnion(g, v, ws);
  }

  lemma NothingSoFar(g: Graph, a: map<Vertex, set<Label>>)
    requires g.Valid() && a == map[]
    ensures AncestorsSoFar(g, [], a)
  {
  }

  lemma PredecessorsListed(g: Graph, vs: seq<Vertex>, k: nat, ws: seq<Vertex>)
    requires Legal(g, vs) && k < |vs|
    requires forall w | w in ws :: g.HasEdge(w, vs[k])
    ensures forall w | w in ws :: w in vs[..k]
  {
    LegalAt(g, vs, k);
  }

  /** The inner loop of ancestors: the label of a vertex together with its predecessors' entries. */
  method GatherAncestors(g: Graph, ghost listed: seq<Vertex>, a: map<Vertex, set<Label>>, vm: Label, ws: seq<Vertex>)
    returns (av: set<Label>)
    requires g.Valid() && AncestorsSoFar(g, listed, a) && forall w | w in ws :: w in g.nodes && w in listed
    ensures av == {vm} + LabelsThrough(g, ws)
  {
    av := {vm};
    for i := 0 to |ws|
      invariant av == {vm} + LabelsThrough(g, ws[..i])
    {
      assert ws[..i + 1][..i] == ws[..i];
      av := av + a[ws[i]];
    }
    assert ws[..|ws|] == ws;
  }

  /**
    The pairs yielded by ancestors: one per vertex of the topological order, with the labels of
    all its proper ancestors except its own label. No predecessor's entry is ever missing.
   */
  method Ancestors(g: Graph) returns (pairs: seq<(Label, set<Label>)>, order: seq<Vertex>)
    requires g.Valid()
    ensures Legal(g, order)
    ensures forall v :: v in order <==> v in g.nodes && !Tainted(g, v)
    ensures |pairs| == |order|
    ensures forall k | 0 <= k < |order| ::
              pairs[k] == (g.labels[order[k]], AncestorLabels(g, order[k]) - {g.labels[order[k]]})
  {
    var a: map<Vertex, set<Label>> := map[];
    pairs := [];
    NothingSoFar(g, a);
    hide AncestorsSoFar, AncestorLabels, Legal, Tainted;
    var vs := Toposort(g);
    order := vs;
    for k := 0 to |vs|
      invariant AncestorsSoFar(g, vs[..k], a)
      invariant |pairs| == k
      invariant forall i | 0 <= i < k ::
                  pairs[i] == (g.labels[vs[i]], AncestorLabels(g, vs[i]) - {g.labels[vs[i]]})
    {
      var v := vs[k];
      var vm := g.labels[v];
      var ws := InNeighbors(g.edges, v);
      PredecessorsListed(g, vs, k, ws);
      var av := GatherAncestors(g, vs[..k], a, vm, ws);
      AncestorsSoFarExtended(g, vs[..k], a, v, av, ws);
      a := a[v := av];
      PrefixStep(vs, k);
      pairs := pairs + [(vm, a[v] - {vm})];
    }
  }

  // --------------------------------------------------------------- ancestry and build schedules

  ghost function Keep(s: seq<Vertex>, part: set<Vertex>): (r: seq<Vertex>)
    ensures forall v :: v in r <==> v in s && v in part
  {
    if s == [] then []
    else
      var last := s[|s| - 1];
      Keep(s[..|s| - 1], part) + if last in part then [last] else []
  }

  /** Delaying all vertices outside `part` keeps an order legal if `part` needs nothing outside it. */
  lemma {:induction false} KeepIsLegal(g: Graph, base: seq<Vertex>, s: seq<Vertex>, part: set<Vertex>)
    requires Legal(g, base)
    requires Legal(g, s)
    requires forall v | v in base :: v !in part
    requires forall u, v | v in s && v in part && g.HasEdge(u, v) :: u in base || u in part
    ensures Legal(g, base + Keep(s, part))
  {
    if s == [] {
      assert base + Keep(s, part) == base;
    } else {
      var rest, last := s[..|s| - 1], s[|s| - 1];
      KeepIsLegal(g, base, rest, part);
      if last in part {
        var r := base + Keep(rest, part);
        assert base + Keep(s, part) == r + [last];
        forall u | g.HasEdge(u, last) ensures u in r {
          assert u in s[..|s| - 1];
        }
        AppendIsLegal(g, r, last);
      } else {
        assert base + Keep(s, part) == base + Keep(rest, part);
      }
    }
  }

  ghost function NeededFor(g: Graph, t: Vertex): set<Vertex> {
    set u | u in g.nodes && (u == t || Reaches(g, u, t))
  }

  lemma NeededIsClosed(g: Graph, t: Vertex, u: Vertex, v: Vertex)
    requires g.Valid() && v in NeededFor(g, t) && g.HasEdge(u, v)
    ensures u in NeededFor(g, t)
  {
    EdgeReaches(g, u, v);
    if v != t {
      ReachesTransitive(g, u, v, t);
    }
  }

  /** Building only what t needs is legal. */
  lemma NeededIsLegal(g: Graph, order: seq<Vertex>, t: Vertex)
    requires g.Valid() && Legal(g, order)
    ensures Legal(g, Keep(order, NeededFor(g, t)))
  {
    var needed := NeededFor(g, t);
    forall u, v | v in needed && g.HasEdge(u, v) ensures u in needed {
      NeededIsClosed(g, t, u, v);
    }
    hide NeededFor;
    KeepIsLegal(g, [], order, needed);
    assert [] + Keep(order, needed) == Keep(order, needed);
  }

  /** What t needs first, and everything else after it, is a legal order of the same vertices. */
  lemma NeededFirst(g: Graph, s: seq<Vertex>, t: Vertex)
    requires g.Valid() && IsSchedule(g, s)
    ensures IsSchedule(g, Keep(s, NeededFor(g, t)) + Keep(s, g.nodes - NeededFor(g, t)))
  {
    NeededIsLegal(g, s, t);
    hide Reaches, NeededFor, Legal, Keep;
    var needed := NeededFor(g, t);
    KeepIsLegal(g, Keep(s, needed), s, g.nodes - needed);
  }

  /** If d is no ancestor of t, some legal build order runs t before d. */
  lemma UnorderedSchedule(g: Graph, s: seq<Vertex>, t: Vertex, d: Vertex) returns (r: seq<Vertex>)
    requires g.Valid() && IsSchedule(g, s) && t in g.nodes && d in g.nodes
    requires t != d && !Reaches(g, d, t)
    ensures IsSchedule(g, r) && Before(r, t, d)
  {
    hide Legal, Reaches, Keep;
    var needed := NeededFor(g, t);
    var first, second := Keep(s, needed), Keep(s, g.nodes - needed);
    r := first + second;
    NeededFirst(g, s, t);
    assert t in first && d in second;
    hide IsSchedule, NeededFor;
    var i :| 0 <= i < |first| && first[i] == t;
    var j :| 0 <= j < |second| && second[j] == d;
    assert r[i] == t && r[|first| + j] == d;
  }

  /** On an acyclic graph: d may be built after t exactly when d is not an ancestor of t. */
  lemma AncestryDecidesOrder(g: Graph, s: seq<Vertex>, t: Vertex, d: Vertex)
    requires g.Valid() && IsSchedule(g, s) && t in g.nodes && d in g.nodes && t != d
    ensures !Reaches(g, d, t) <==> exists r :: IsSchedule(g, r) && Before(r, t, d)
  {
    if !Reaches(g, d, t) {
      var r := UnorderedSchedule(g, s, t, d);
    } else if r :| IsSchedule(g, r) && Before(r, t, d) {
      var i, j :| 0 <= i < j < |r| && r[i] == t && r[j] == d;
      AncestorsEarlier(g, r, i, d);
      LegalAt(g, r, j);
      assert false;
    }
  }

  /** A legal build, perhaps of a part of the graph, that builds t and has not built d before it. */
  ghost predicate BuiltWithout(g: Graph, r: seq<Vertex>, t: Vertex, d: Vertex) {
    Legal(g, r) && exists k :: 0 <= k < |r| && r[k] == t && d !in r[..k]
  }

  /** On any graph: t can be built without d exactly if no cycle reaches t and d is not an ancestor of t. */
  lemma WithoutUnlessAncestor(g: Graph, order: seq<Vertex>, t: Vertex, d: Vertex)
    requires g.Valid() && Legal(g, order) && t in g.nodes
    requires forall v :: v in order <==> v in g.nodes && !Tainted(g, v)
    ensures (exists r :: BuiltWithout(g, r, t, d)) <==> !Tainted(g, t) && !Reaches(g, d, t)
  {
    if r :| BuiltWithout(g, r, t, d) {
      var k :| 0 <= k < |r| && r[k] == t && d !in r[..k];
      ListedIsUntainted(g, r, k);
      if Reaches(g, d, t) {
        AncestorsEarlier(g, r, k, d);
      }
    }
    if !Tainted(g, t) && !Reaches(g, d, t) {
      PartialBuild(g, order, t, d);
    }
  }

  /** A partial build that lacks d. */
  lemma PartialBuild(g: Graph, order: seq<Vertex>, t: Vertex, d: Vertex)
    requires g.Valid() && Legal(g, order) && t in g.nodes && t in order && !Reaches(g, d, t)
    ensures exists r :: BuiltWithout(g, r, t, d)
  {
    hide Legal, Reaches, Keep;
    var r := Keep(order, NeededFor(g, t));
    NeededIsLegal(g, order, t);
    var k :| 0 <= k < |r| && r[k] == t;
    LegalAt(g, r, k);
    assert d in r[..k] ==> d in r;
    assert BuiltWithout(g, r, t, d);
  }

  // ---------------------------------------------------------------------------- the cross-check

  type Table = map<Label, set<Label>>

  /** At most one vertex carries the label. */
  ghost predicate Unambiguous(g: Graph, l: Label)
    requires g.Valid()
  {
    forall u, v | u in g.nodes && v in g.nodes && g.labels[u] == l && g.labels[v] == l :: u == v
  }

  /** A generated file: the label of a vertex that has at least one predecessor. */
  ghost predicate Generated(g: Graph, l: Label)
    requires g.Valid()
  {
    exists v, u :: v in g.nodes && g.labels[v] == l && g.HasEdge(u, v)
  }

  ghost predicate Known(g: Graph, l: Label)
    requires g.Valid()
  {
    exists v :: v in g.nodes && g.labels[v] == l
  }

  /** Some legal build order builds file t before file d. */
  ghost predicate MayPrecede(g: Graph, t: Label, d: Label)
    requires g.Valid()
  {
    exists u, v, s :: u in g.nodes && v in g.nodes && g.labels[u] == t && g.labels[v] == d
                      && IsSchedule(g, s) && Before(s, u, v)
  }

  /** What is to be reported: file d is generated, and some legal build has not built it before target t. */
  ghost predicate MissingDependency(g: Graph, t: Label, d: Label)
    requires g.Valid()
  {
    Generated(g, d) &&
    exists u, v, r :: u in g.nodes && v in g.nodes && g.labels[u] == t && g.labels[v] == d && BuiltWithout(g, r, u, v)
  }

  /** The ancestor table, as far as unambiguous labels go. */
  ghost predicate IsTable(g: Graph, table: Table)
    requires g.Valid()
  {
    && (forall v | v in g.nodes && !Tainted(g, v) :: g.labels[v] in table)
    && (forall l | l in table ::
          exists v :: v in g.nodes && !Tainted(g, v) && g.labels[v] == l && table[l] == AncestorLabels(g, v) - {l})
  }

  // ------------------------------------------------------------- names that label several vertices

  /** The last vertex of the order that carries the label. */
  ghost predicate IsLast(g: Graph, order: seq<Vertex>, l: Label, k: int)
    requires g.Valid()
  {
    && 0 <= k < |order| && order[k] in g.nodes && g.labels[order[k]] == l
    && forall j | k < j < |order| && order[j] in g.nodes :: g.labels[order[j]] != l
  }

  /** The ancestor table in full: under each label, the entry of the last vertex that carries it. */
  ghost predicate HasLast(g: Graph, order: seq<Vertex>, table: Table)
    requires g.Valid()
  {
    && (forall l | l in table :: exists k :: IsLast(g, order, l, k))
    && forall l, k | IsLast(g, order, l, k) :: l in table && table[l] == AncestorLabels(g, order[k]) - {l}
  }

  /** A legal build, perhaps of a part of the graph, that builds v and no file with this label before it. */
  ghost predicate BuiltWithoutAny(g: Graph, v: Vertex, l: Label)
    requires g.Valid()
  {
    exists r: seq<Vertex>, k: nat :: k < |r| && r[k] == v && Legal(g, r) && !Carried(g, r[..k], l)
  }

  /** Some vertex of the list carries the label. */
  ghost predicate Carried(g: Graph, s: seq<Vertex>, l: Label)
    requires g.Valid()
  {
    exists u :: u in s && u in g.nodes && g.labels[u] == l
  }

  lemma NeededBefore(g: Graph, order: seq<Vertex>, v: Vertex) returns (r: seq<Vertex>, k: nat)
    requires g.Valid() && Legal(g, order) && v in order && v in g.nodes
    ensures Legal(g, r) && k < |r| && r[k] == v && forall u | u in r[..k] :: Reaches(g, u, v)
  {
    hide Legal, Reaches, Keep;
    r := Keep(order, NeededFor(g, v));
    NeededIsLegal(g, order, v);
    k :| 0 <= k < |r| && r[k] == v;
    LegalAt(g, r, k);
    forall u | u in r[..k] ensures Reaches(g, u, v) {
      assert u in r;
    }
  }

  /** No ancestor of a vertex carries a label exactly if the vertex can be built without any file of that label. */
  lemma AncestorsCarry(g: Graph, order: seq<Vertex>, v: Vertex, l: Label)
    requires g.Valid() && Legal(g, order) && v in order && v in g.nodes
    ensures l !in AncestorLabels(g, v) <==> BuiltWithoutAny(g, v, l)
  {
    if l !in AncestorLabels(g, v) {
      var r, k := NeededBefore(g, order, v);
      hide Legal, Reaches;
      assert !Carried(g, r[..k], l);
    } else {
      hide Legal, Reaches;
      var u :| u in g.nodes && Reaches(g, u, v) && g.labels[u] == l;
      forall r: seq<Vertex>, k: nat | k < |r| && r[k] == v && Legal(g, r) ensures Carried(g, r[..k], l) {
        AncestorsEarlier(g, r, k, u);
      }
    }
  }

  /** The dependency is reported, for any labels, when the sort has yielded this order. */
  ghost predicate Reportable(g: Graph, order: seq<Vertex>, t: Label, d: Label)
    requires g.Valid()
  {
    Generated(g, d) && exists k :: IsLast(g, order, t, k) && (t == d || BuiltWithoutAny(g, order[k], d))
  }

  lemma LastDecides(g: Graph, order: seq<Vertex>, table: Table, targets: set<Label>, t: Label, d: Label)
    requires g.Valid() && Legal(g, order) && HasLast(g, order, table)
    requires forall l :: l in targets <==> Generated(g, l)
    ensures Reportable(g, order, t, d) <==> d in targets && t in table && d !in table[t]
  {
    forall k | IsLast(g, order, t, k)
      ensures t in table && (d !in table[t] <==> t == d || BuiltWithoutAny(g, order[k], d))
    {
      AncestorsCarry(g, order, order[k], d);
    }
    hide Generated, Legal, AncestorLabels, BuiltWithoutAny;
  }

  /** The reports for all recorded pairs, whatever their labels: those that some order of the sort leads to. */
  ghost predicate ReportsLast(g: Graph, deps: seq<Pair>, errors: seq<Pair>)
    requires g.Valid()
  {
    exists order: seq<Vertex> :: Legal(g, order) && (forall v :: v in order <==> v in g.nodes && !Tainted(g, v))
      && Sublists.IsSublist(deps, (p: Pair) => Reportable(g, order, p.0, p.1), errors)
  }

  lemma ReportsAreLast(g: Graph, order: seq<Vertex>, table: Table, targets: set<Label>, deps: seq<Pair>,
                       errors: seq<Pair>)
    requires g.Valid() && Legal(g, order) && HasLast(g, order, table)
    requires forall v :: v in order <==> v in g.nodes && !Tainted(g, v)
    requires targets == set v | v in g.nodes && InDegree(g, v) > 0 :: g.labels[v]
    requires Sublists.IsSublist(deps, Fails(table, targets), errors)
    ensures ReportsLast(g, deps, errors)
  {
    hide Legal, HasLast, Tainted, Reportable;
    TargetsAreGenerated(g, targets);
    var reportable := (p: Pair) => Reportable(g, order, p.0, p.1);
    forall p: Pair | p in deps ensures Fails(table, targets)(p) == reportable(p) {
      LastDecides(g, order, table, targets, p.0, p.1);
    }
    Sublists.SameProperty(deps, Fails(table, targets), reportable, errors);
  }

  // ------------------------------------------------------------------------- the recorded listing

  function DependencyName(line: string): Option<Label> {
    if |line| >= 4 && line[..4] == "    " then Some(line[4..]) else None
  }

  /** line.split(":", 1)[0] */
  function UpToColon(line: string): (name: string)
    ensures ':' !in name && name <= line && (':' in line ==> |name| < |line| && line[|name|] == ':')
  {
    if line == [] || line[0] == ':' then [] else [line[0]] + UpToColon(line[1..])
  }

  /** The target named by the last target line of the listing. */
  ghost function CurrentTarget(lines: seq<string>): Option<Label> {
    if lines == [] then None
    else
      var last := lines[|lines| - 1];
      if DependencyName(last).None? && ':' in last then Some(UpToColon(last))
      else CurrentTarget(lines[..|lines| - 1])
  }

  /** The (target, file) pairs of the listing; an error if a file precedes every target. */
  ghost function RecordedDeps(lines: seq<string>): Result<seq<Pair>, string> {
    if lines == [] then Ok([])
    else
      var before := RecordedDeps(lines[..|lines| - 1]);
      var name := DependencyName(lines[|lines| - 1]);
      if before.Err? || name.None? then before
      else match CurrentTarget(lines[..|lines| - 1])
        case None => Err("Source file appeared before target")
        case Some(target) => Ok(before.value + [(target, name.value)])
  }

  lemma OneMoreLine(lines: seq<string>, line: string)
    ensures CurrentTarget(lines + [line]) ==
              if DependencyName(line).None? && ':' in line then Some(UpToColon(line)) else CurrentTarget(lines)
    ensures RecordedDeps(lines).Ok? && DependencyName(line).None? ==> RecordedDeps(lines + [line]) == RecordedDeps(lines)
    ensures RecordedDeps(lines).Ok? && DependencyName(line).Some? && CurrentTarget(lines).Some? ==>
              RecordedDeps(lines + [line]) ==
                Ok(RecordedDeps(lines).value + [(CurrentTarget(lines).value, DependencyName(line).value)])
    ensures DependencyName(line).Some? && CurrentTarget(lines).None? ==> RecordedDeps(lines + [line]).Err?
  {
    assert (lines + [line])[..|lines + [line]| - 1] == lines;
  }

  /** A stanza of the listing: a target with some information, and the files it was found to depend on. */
  datatype Stanza = Stanza(target: Label, info: string, files: seq<Label>)

  ghost predicate IsTarget(name: Label) {
    ':' !in name && !("    " <= name)
  }

  /** Its first line, one line per file, and an empty line. */
  ghost function StanzaLines(s: Stanza): seq<string> {
    [s.target + ":" + s.info] + seq(|s.files|, i requires 0 <= i < |s.files| => "    " + s.files[i]) + [""]
  }

  ghost function StanzaPairs(s: Stanza): seq<Pair> {
    seq(|s.files|, i requires 0 <= i < |s.files| => (s.target, s.files[i]))
  }

  ghost function Listing(stanzas: seq<Stanza>): seq<string> {
    if stanzas == [] then [] else Listing(stanzas[..|stanzas| - 1]) + StanzaLines(stanzas[|stanzas| - 1])
  }

  ghost function PairsOf(stanzas: seq<Stanza>): seq<Pair> {
    if stanzas == [] then [] else PairsOf(stanzas[..|stanzas| - 1]) + StanzaPairs(stanzas[|stanzas| - 1])
  }

  lemma HeaderNamesTarget(target: Label, info: string)
    requires IsTarget(target)
    ensures var line := target + ":" + info; DependencyName(line).None? && ':' in line && UpToColon(line) == target
  {
    var line := target + ":" + info;
    assert line[|target|] == ':';
    assert forall i | 0 <= i < |target| :: line[i] == target[i];
    var name := UpToColon(line);
    assert |name| == |target| by {
      assert forall i | 0 <= i < |name| :: name[i] == line[i] != ':';
    }
    assert name == line[..|target|] == target;
    assert |target| >= 4 ==> target[..4] == line[..4];
    assert |target| < 4 <= |line| ==> line[..4][|target|] == ':';
  }

  lemma FileIsNamed(file: Label)
    ensures DependencyName("    " + file) == Some(file)
  {
    assert ("    " + file)[..4] == "    " && ("    " + file)[4..] == file;
  }

  lemma EmptyLine()
    ensures DependencyName("").None?
  {
  }

  lemma {:induction false} FilesAreRead(before: seq<string>, s: Stanza, k: nat)
    requires k <= |s.files| && RecordedDeps(before).Ok? && CurrentTarget(before) == Some(s.target)
    ensures var lines := before + StanzaLines(s)[1..k + 1];
            CurrentTarget(lines) == Some(s.target) &&
            RecordedDeps(lines) == Ok(RecordedDeps(before).value + StanzaPairs(s)[..k])
  {
    hide RecordedDeps, CurrentTarget, DependencyName;
    if k == 0 {
      assert before + StanzaLines(s)[1..1] == before;
      assert RecordedDeps(before).value + StanzaPairs(s)[..0] == RecordedDeps(before).value;
    } else {
      FilesAreRead(before, s, k - 1);
      FileIsNamed(s.files[k - 1]);
      OneMoreLine(before + StanzaLines(s)[1..k], "    " + s.files[k - 1]);
      assert before + StanzaLines(s)[1..k + 1] == (before + StanzaLines(s)[1..k]) + ["    " + s.files[k - 1]];
      var value, read := RecordedDeps(before).value, StanzaPairs(s)[..k - 1];
      assert StanzaPairs(s)[..k] == read + [(s.target, s.files[k - 1])];
      assert value + (read + [(s.target, s.files[k - 1])]) == value + read + [(s.target, s.files[k - 1])];
    }
  }

  lemma StanzaIsRead(before: seq<string>, s: Stanza)
    requires IsTarget(s.target) && RecordedDeps(before).Ok?
    ensures RecordedDeps(before + StanzaLines(s)) == Ok(RecordedDeps(before).value + StanzaPairs(s))
  {
    hide RecordedDeps, CurrentTarget, DependencyName, IsTarget, UpToColon, StanzaPairs, StanzaLines;
    var header, n := s.target + ":" + s.info, |s.files|;
    HeaderNamesTarget(s.target, s.info);
    OneMoreLine(before, header);
    StanzaParts(before, s);
    FilesAreRead(before + [header], s, n);
    EmptyLine();
    OneMoreLine(before + [header] + StanzaLines(s)[1..n + 1], "");
  }

  lemma StanzaParts(before: seq<string>, s: Stanza)
    ensures |StanzaLines(s)| == |s.files| + 2 && StanzaPairs(s)[..|s.files|] == StanzaPairs(s)
    ensures before + StanzaLines(s) == before + [s.target + ":" + s.info] + StanzaLines(s)[1..|s.files| + 1] + [""]
  {
  }

  /** What is read from a listing of stanzas are exactly their (target, file) pairs, in order. */
  lemma {:induction false} ListingIsRead(stanzas: seq<Stanza>)
    requires forall k | 0 <= k < |stanzas| :: IsTarget(stanzas[k].target)
    ensures RecordedDeps(Listing(stanzas)) == Ok(PairsOf(stanzas))
  {
    if stanzas != [] {
      var n := |stanzas| - 1;
      ListingIsRead(stanzas[..n]);
      StanzaIsRead(Listing(stanzas[..n]), stanzas[n]);
    }
  }

  ghost predicate NamesTarget(line: string) {
    ':' in line && !("    " <= line)
  }

  ghost predicate Premature(lines: seq<string>, k: int) {
    0 <= k < |lines| && "    " <= lines[k] && forall j | 0 <= j < k :: !NamesTarget(lines[j])
  }

  lemma IndentedIsFile(line: string)
    ensures DependencyName(line).Some? <==> "    " <= line
  {
  }

  lemma {:induction false} TargetIsKnown(lines: seq<string>)
    ensures CurrentTarget(lines).Some? <==> exists j :: 0 <= j < |lines| && NamesTarget(lines[j])
  {
    if lines != [] {
      var n := |lines| - 1;
      TargetIsKnown(lines[..n]);
      IndentedIsFile(lines[n]);
      hide UpToColon;
      if j :| 0 <= j < n && NamesTarget(lines[..n][j]) {
        assert NamesTarget(lines[j]);
      }
    }
  }

  /** The listing is refused exactly if some file line has no target line before it. */
  lemma {:induction false} RefusedIff(lines: seq<string>)
    ensures RecordedDeps(lines).Err? <==> exists k :: Premature(lines, k)
  {
    if lines != [] {
      var n := |lines| - 1;
      RefusedIff(lines[..n]);
      TargetIsKnown(lines[..n]);
      IndentedIsFile(lines[n]);
      if k :| Premature(lines[..n], k) {
        assert Premature(lines, k);
      }
      if k :| Premature(lines, k) {
        assert k < n ==> Premature(lines[..n], k);
      }
      if RecordedDeps(lines).Err? && RecordedDeps(lines[..n]).Ok? {
        assert Premature(lines, n);
      }
    }
  }

  ghost predicate Decides(g: Graph, table: Table, targets: set<Label>, t: Label, d: Label)
    requires g.Valid()
  {
    MissingDependency(g, t, d) <==> d in targets && t in table && d !in table[t]
  }

  lemma EntryDecides(g: Graph, table: Table, u: Vertex, v: Vertex)
    requires g.Valid() && IsTable(g, table) && u in g.nodes && v in g.nodes
    requires g.labels[u] in table && g.labels[u] != g.labels[v]
    requires Unambiguous(g, g.labels[u]) && Unambiguous(g, g.labels[v])
    ensures g.labels[v] in table[g.labels[u]] <==> Reaches(g, v, u)
  {
  }

  /** The script's condition is a statement about all legal builds, on any graph. */
  lemma TableDecides(g: Graph, order: seq<Vertex>, table: Table, targets: set<Label>, t: Label, d: Label)
    requires g.Valid() && Legal(g, order) && IsTable(g, table)
    requires forall v :: v in order <==> v in g.nodes && !Tainted(g, v)
    requires forall l :: l in targets <==> Generated(g, l)
    requires Unambiguous(g, t) && Unambiguous(g, d)
    ensures Decides(g, table, targets, t, d)
  {
    if Generated(g, d) && Known(g, t) {
      var u :| u in g.nodes && g.labels[u] == t;
      var v :| v in g.nodes && g.labels[v] == d;
      WithoutUnlessAncestor(g, order, u, v);
      assert MissingDependency(g, t, d) <==> exists r :: BuiltWithout(g, r, u, v);
      assert t in table <==> !Tainted(g, u);
      if t == d {
        assert Reaches(g, u, u) ==> TaintedBy(g, u, u);
      } else if t in table {
        EntryDecides(g, table, u, v);
      }
    }
  }

  /** A generated file that is recorded as depending on itself is reported unless a cycle leads to it. */
  lemma SelfIsMissing(g: Graph, order: seq<Vertex>, v: Vertex)
    requires g.Valid() && Legal(g, order) && v in g.nodes && Unambiguous(g, g.labels[v])
    requires forall w :: w in order <==> w in g.nodes && !Tainted(g, w)
    ensures MissingDependency(g, g.labels[v], g.labels[v]) <==> Generated(g, g.labels[v]) && !Tainted(g, v)
  {
    WithoutUnlessAncestor(g, order, v, v);
    hide Legal, Generated;
    assert Reaches(g, v, v) ==> TaintedBy(g, v, v);
    hide Tainted, Reaches, BuiltWithout;
  }

  /** A target that only cycles lead to is never reported. */
  lemma BehindCyclesIsPassedOver(g: Graph, t: Label, d: Label)
    requires g.Valid() && forall u | u in g.nodes && g.labels[u] == t :: Tainted(g, u)
    ensures !MissingDependency(g, t, d)
  {
    if MissingDependency(g, t, d) {
      var u, v, r :| u in g.nodes && v in g.nodes && g.labels[u] == t && g.labels[v] == d && BuiltWithout(g, r, u, v);
      var k :| 0 <= k < |r| && r[k] == u;
      ListedIsUntainted(g, r, k);
    }
  }

  /** On an acyclic graph it is enough to look at complete build orders. */
  lemma MissingIsUnordered(g: Graph, s: seq<Vertex>, t: Label, d: Label)
    requires g.Valid() && IsSchedule(g, s) && Unambiguous(g, t) && Unambiguous(g, d) && t != d
    ensures MissingDependency(g, t, d) <==> Generated(g, d) && MayPrecede(g, t, d)
  {
    forall v ensures v in s <==> v in g.nodes && !Tainted(g, v) {
      if v in s {
        var j :| 0 <= j < |s| && s[j] == v;
        ListedIsUntainted(g, s, j);
      }
    }
    forall u, v | u in g.nodes && v in g.nodes && g.labels[u] == t && g.labels[v] == d
      ensures (exists r :: BuiltWithout(g, r, u, v)) <==> exists r :: IsSchedule(g, r) && Before(r, u, v)
    {
      WithoutUnlessAncestor(g, s, u, v);
      AncestryDecidesOrder(g, s, u, v);
    }
  }

  /** The script's test of a recorded dependency against its table. */
  ghost function Fails(table: Table, targets: set<Label>): Pair -> bool {
    (p: Pair) => p.1 in targets && p.0 in table && p.1 !in table[p.0]
  }

  /**
    The errors are recorded dependencies in the order of the listing; one between two files that have
    labels of their own is among them exactly if it is missing.
   */
  ghost predicate ReportsMissing(g: Graph, deps: seq<Pair>, errors: seq<Pair>)
    requires g.Valid()
  {
    exists reported: Pair -> bool :: Sublists.IsSublist(deps, reported, errors) && DecidesAll(g, deps, reported)
  }

  ghost predicate DecidesAll(g: Graph, deps: seq<Pair>, reported: Pair -> bool)
    requires g.Valid()
  {
    forall p | p in deps && Unambiguous(g, p.0) && Unambiguous(g, p.1) ::
      reported(p) <==> MissingDependency(g, p.0, p.1)
  }

  lemma ReportsAreMissing(g: Graph, order: seq<Vertex>, table: Table, targets: set<Label>, deps: seq<Pair>,
                          errors: seq<Pair>)
    requires g.Valid() && Legal(g, order) && IsTable(g, table)
    requires forall v :: v in order <==> v in g.nodes && !Tainted(g, v)
    requires targets == set v | v in g.nodes && InDegree(g, v) > 0 :: g.labels[v]
    requires Sublists.IsSublist(deps, Fails(table, targets), errors)
    ensures ReportsMissing(g, deps, errors)
  {
    hide Legal, IsTable, Unambiguous, Tainted, MissingDependency;
    TargetsAreGenerated(g, targets);
    forall p | p in deps && Unambiguous(g, p.0) && Unambiguous(g, p.1)
      ensures Fails(table, targets)(p) <==> MissingDependency(g, p.0, p.1)
    {
      TableDecides(g, order, table, targets, p.0, p.1);
    }
    assert DecidesAll(g, deps, Fails(table, targets));
  }

  /** If all recorded files have labels of their own, the errors are exactly the missing dependencies, in order. */
  lemma {:induction false} ReportedAreMissing(g: Graph, deps: seq<Pair>, errors: seq<Pair>)
    requires g.Valid() && ReportsMissing(g, deps, errors)
    requires forall p | p in deps :: Unambiguous(g, p.0) && Unambiguous(g, p.1)
    ensures Sublists.IsSublist(deps, (p: Pair) => MissingDependency(g, p.0, p.1), errors)
  {
    var reported: Pair -> bool :| Sublists.IsSublist(deps, reported, errors) && DecidesAll(g, deps, reported);
    Sublists.SameProperty(deps, reported, (p: Pair) => MissingDependency(g, p.0, p.1), errors);
  }

  /** An acyclic graph has a legal build order: the topological sort itself. */
  lemma AcyclicIsScheduled(g: Graph, order: seq<Vertex>)
    requires g.Valid() && Acyclic(g)
    requires Legal(g, order)
    requires forall v :: v in order <==> v in g.nodes && !Tainted(g, v)
    ensures IsSchedule(g, order)
  {
    forall v | v in g.nodes ensures !Tainted(g, v) {
      if c :| TaintedBy(g, c, v) {
        var w := LastStep(g, c, c);
      }
    }
  }

  lemma TargetsAreGenerated(g: Graph, targets: set<Label>)
    requires g.Valid() && targets == set v | v in g.nodes && InDegree(g, v) > 0 :: g.labels[v]
    ensures forall l :: l in targets <==> Generated(g, l)
  {
    forall l | Generated(g, l) ensures l in targets {
      var v, u :| v in g.nodes && g.labels[v] == l && g.HasEdge(u, v);
      assert u in InNeighbors(g.edges, v);
    }
    forall l | l in targets ensures Generated(g, l) {
      var v :| v in g.nodes && InDegree(g, v) > 0 && g.labels[v] == l;
      assert g.HasEdge(InNeighbors(g.edges, v)[0], v);
    }
  }

  lemma {:induction false} RecordedDepsFails(lines: seq<string>, k: nat)
    requires k <= |lines| && RecordedDeps(lines[..k]).Err?
    ensures RecordedDeps(lines).Err?
  {
    if k == |lines| {
      assert lines[..k] == lines;
    } else {
      assert lines[..|lines| - 1][..k] == lines[..k];
      RecordedDepsFails(lines[..|lines| - 1], k);
    }
  }

  /** The table of ancestor labels by label; a label carried by several vertices keeps the last one. */
  method BuildTable(g: Graph) returns (table: Table, order: seq<Vertex>)
    requires g.Valid()
    ensures Legal(g, order)
    ensures forall v :: v in order <==> v in g.nodes && !Tainted(g, v)
    ensures IsTable(g, table) && HasLast(g, order, table)
  {
    hide Legal, Tainted, AncestorLabels, IsTable, HasLast;
    var pairs;
    pairs, order := Ancestors(g);
    table := map[];
    for k := 0 to |pairs|
      invariant forall i | 0 <= i < k :: pairs[i].0 in table
      invariant forall l | l in table :: exists i :: IsLastPair(pairs[..k], i, l, table[l])
    {
      ghost var before, seen := table, pairs[..k + 1];
      table := table[pairs[k].0 := pairs[k].1];
      forall l | l in table ensures exists i :: IsLastPair(seen, i, l, table[l]) {
        if l != pairs[k].0 {
          var i :| IsLastPair(pairs[..k], i, l, before[l]);
          assert IsLastPair(seen, i, l, table[l]);
        } else {
          assert IsLastPair(seen, k, l, table[l]);
        }
      }
    }
    assert pairs[..|pairs|] == pairs;
    PairsHaveLast(g, order, pairs, table);
    LastIsTable(g, order, table);
  }

  /** The pair at position i is the last one for the label. */
  ghost predicate IsLastPair(pairs: seq<(Label, set<Label>)>, i: int, l: Label, ls: set<Label>) {
    0 <= i < |pairs| && pairs[i] == (l, ls) && forall j | i < j < |pairs| :: pairs[j].0 != l
  }

  lemma PairsHaveLast(g: Graph, order: seq<Vertex>, pairs: seq<(Label, set<Label>)>, table: Table)
    requires g.Valid() && |pairs| == |order| && forall k | 0 <= k < |order| :: order[k] in g.nodes
    requires forall k | 0 <= k < |order| ::
               pairs[k] == (g.labels[order[k]], AncestorLabels(g, order[k]) - {g.labels[order[k]]})
    requires forall i | 0 <= i < |pairs| :: pairs[i].0 in table
    requires forall l | l in table :: exists i :: IsLastPair(pairs, i, l, table[l])
    ensures HasLast(g, order, table)
  {
    hide AncestorLabels;
    forall l | l in table ensures exists k :: IsLast(g, order, l, k) {
      var i :| IsLastPair(pairs, i, l, table[l]);
      assert IsLast(g, order, l, i);
    }
    forall l, k | IsLast(g, order, l, k) ensures l in table && table[l] == AncestorLabels(g, order[k]) - {l} {
      assert pairs[k].0 in table;
      var i :| IsLastPair(pairs, i, l, table[l]);
      assert i == k;
    }
  }

  lemma LastIsTable(g: Graph, order: seq<Vertex>, table: Table)
    requires g.Valid() && HasLast(g, order, table) && forall v :: v in order <==> v in g.nodes && !Tainted(g, v)
    ensures IsTable(g, table)
  {
    hide AncestorLabels, Tainted;
    forall v | v in g.nodes && !Tainted(g, v) ensures g.labels[v] in table {
      var i :| 0 <= i < |order| && order[i] == v;
      LastExists(g, order, i);
    }
    forall l | l in table
      ensures exists v :: v in g.nodes && !Tainted(g, v) && g.labels[v] == l && table[l] == AncestorLabels(g, v) - {l}
    {
      var k :| IsLast(g, order, l, k);
      assert order[k] in order;
    }
  }

  lemma {:induction false} LastExists(g: Graph, order: seq<Vertex>, i: nat)
    requires g.Valid() && i < |order| && order[i] in g.nodes
    ensures exists k :: IsLast(g, order, g.labels[order[i]], k)
    decreases |order| - i
  {
    var l := g.labels[order[i]];
    if j :| i < j < |order| && order[j] in g.nodes && g.labels[order[j]] == l {
      LastExists(g, order, j);
    } else {
      assert IsLast(g, order, l, i);
    }
  }

  /**
    The whole check: the errors reported, in the order of the listing. Between files that have labels
    of their own, they are exactly the missing dependencies, on any graph. If a target labels several
    vertices, then the last one in some topological order counts, and if a file does, then all of them.
   */
  method CheckDependencies(g: Graph, lines: seq<string>) returns (r: Result<seq<Pair>, string>)
    requires g.Valid()
    ensures r.Ok? <==> !exists k :: Premature(lines, k)
    ensures r.Ok? <==> RecordedDeps(lines).Ok?
    ensures r.Ok? ==> ReportsMissing(g, RecordedDeps(lines).value, r.value)
    ensures r.Ok? ==> ReportsLast(g, RecordedDeps(lines).value, r.value)
    ensures r.Ok? ==> forall p | p in r.value :: exists e :: e in g.edges && g.labels[e.dst] == p.1
  {
    hide Legal, Tainted, IsTable, HasLast, ReportsMissing, ReportsLast, Premature;
    hide RecordedDeps, CurrentTarget, DependencyName, UpToColon, Sublists.IsSublist;
    RefusedIff(lines);
    var targets := set v | v in g.nodes && InDegree(g, v) > 0 :: g.labels[v];
    var table, order := BuildTable(g);
    var errors: seq<Pair> := [];
    var currtarget: Option<Label> := None;
    ghost var fails := Fails(table, targets);
    Sublists.NoPositions(fails);
    NothingRead();
    assert lines[..0] == [];
    for k := 0 to |lines|
      invariant currtarget == CurrentTarget(lines[..k])
      invariant RecordedDeps(lines[..k]).Ok? && Sublists.IsSublist(RecordedDeps(lines[..k]).value, fails, errors)
    {
      var line := lines[k];
      assert lines[..k + 1] == lines[..k] + [line];
      OneMoreLine(lines[..k], line);
      var name := DependencyName(line);
      if name.Some? {
        if currtarget.None? {
          RecordedDepsFails(lines, k + 1);
          return Err("Source file appeared before target");
        }
        var dep, target := name.value, currtarget.value;
        Sublists.OneMore(RecordedDeps(lines[..k]).value, fails, errors, (target, dep));
        if dep in targets && target in table && dep !in table[target] {
          errors := errors + [(target, dep)];
        }
      } else if ':' in line {
        currtarget := Some(UpToColon(line));
      }
    }
    assert lines[..|lines|] == lines;
    ReportsAreMissing(g, order, table, targets, RecordedDeps(lines).value, errors);
    ReportsAreLast(g, order, table, targets, RecordedDeps(lines).value, errors);
    ReportsHaveEdges(g, table, targets, RecordedDeps(lines).value, errors);
    return Ok(errors);
  }

  /** Whatever is reported has something to be built from. */
  lemma ReportsHaveEdges(g: Graph, table: Table, targets: set<Label>, deps: seq<Pair>, errors: seq<Pair>)
    requires g.Valid() && targets == set v | v in g.nodes && InDegree(g, v) > 0 :: g.labels[v]
    requires Sublists.IsSublist(deps, Fails(table, targets), errors)
    ensures forall p | p in errors :: exists e :: e in g.edges && g.labels[e.dst] == p.1
  {
    forall p | p in errors ensures exists e :: e in g.edges && g.labels[e.dst] == p.1 {
      Sublists.Elements(deps, Fails(table, targets), errors, p);
      var v :| v in g.nodes && InDegree(g, v) > 0 && g.labels[v] == p.1;
      assert Edge(InNeighbors(g.edges, v)[0], v) in g.edges;
    }
  }

  lemma NothingRead()
    ensures RecordedDeps([]) == Ok([]) && CurrentTarget([]) == None
  {
  }
}
