/** The four projections of the edges between symbols (ImpactGraph::build in crates/cognis-core/src/graph.rs). */
module ImpactGraphs {
  import opened Options
  import opened CodeGraphs
  import opened CodeGraphBuilder

  datatype EdgeKind = Calls | Imports | Inherits | Implements | Reads | Writes | RoutesTo | Tests

  /** An edge; of its metadata, the flag that its target is missing and the loop depth, a u64 when given. */
  datatype Edge = Edge(
    srcId: string, dstId: string, kind: EdgeKind, confidence: real, dstMissing: bool, metaLoopDepth: Option<nat>)

  datatype ImpactGraph = ImpactGraph(
    forward: CodeGraph, reverseStructural: CodeGraph, reverseComplexity: CodeGraph, symmetrized: CodeGraph)

  type LoopDepths = map<(string, string), nat>

  function StructGamma(kind: EdgeKind): (r: real)
    ensures 0.45 <= r <= 1.0
  {
    match kind
    case Calls => 0.95
    case Inherits => 0.90
    case Implements => 0.85
    case RoutesTo => 0.95
    case Tests => 1.0
    case Reads | Writes => 0.80
    case Imports => 0.45
  }

  function CplxGamma(kind: EdgeKind): (r: real)
    ensures 0.05 <= r <= 1.0
  {
    match kind
    case Calls | RoutesTo => 1.0
    case Tests => 0.8
    case Inherits | Implements => 0.5
    case Reads | Writes => 0.6
    case Imports => 0.05
  }

  /** The cast `as u8`, which keeps the low eight bits. */
  function AsU8(d: nat): nat { d % 256 }

  function LoopDepthOf(e: Edge, depths: LoopDepths): nat {
    var d :=
      if (e.srcId, e.dstId) in depths then depths[(e.srcId, e.dstId)]
      else if e.metaLoopDepth.Some? then AsU8(e.metaLoopDepth.value)
      else 0;
    if d < 4 then d else 4
  }

  function Pow(base: real, k: nat): real {
    if k == 0 then 1.0 else base * Pow(base, k - 1)
  }

  /** What nesting in loops multiplies a reverse edge by. */
  function Boost(e: Edge, depths: LoopDepths): real { Pow(4.0, LoopDepthOf(e, depths)) }

  lemma {:induction false} BoostRange(k: nat)
    requires k <= 4
    ensures 1.0 <= Pow(4.0, k) <= 256.0
  {
    assert Pow(4.0, 1) == 4.0 && Pow(4.0, 2) == 16.0 && Pow(4.0, 3) == 64.0 && Pow(4.0, 4) == 256.0;
  }

  /** A loop depth from the metadata counts at face value, up to four, exactly when its low eight bits say as much. */
  lemma {:induction false} MetaDepthIsFaithfulIff(e: Edge, depths: LoopDepths, d: nat)
    requires (e.srcId, e.dstId) !in depths && e.metaLoopDepth == Some(d)
    ensures LoopDepthOf(e, depths) == (if d < 4 then d else 4) <==> d < 256 || d % 256 >= 4
  {
  }

  // ---- The triples of the projections -----------------------------------------------------------------

  predicate Usable(e: Edge, index: map<string, nat>) {
    && !e.dstMissing && e.confidence > 0.0 && e.srcId in index && e.dstId in index && index[e.srcId] != index[e.dstId]
  }

  datatype Projection = Forward | Structural | Complexity

  function TripleOf(e: Edge, index: map<string, nat>, depths: LoopDepths, p: Projection): Triple
    requires Usable(e, index)
  {
    var u, v := index[e.srcId], index[e.dstId];
    match p
    case Forward => Triple(u, v, e.confidence)
    case Structural => Triple(v, u, e.confidence * StructGamma(e.kind))
    case Complexity => Triple(v, u, e.confidence * CplxGamma(e.kind) * Boost(e, depths))
  }

  function Triples(edges: seq<Edge>, index: map<string, nat>, depths: LoopDepths, p: Projection): seq<Triple> {
    if edges == [] then []
    else
      var e := edges[|edges| - 1];
      Triples(edges[..|edges| - 1], index, depths, p)
      + if Usable(e, index) then [TripleOf(e, index, depths, p)] else []
  }

  /** The entries of every projection can be numbered. */
  predicate Fits(ids: seq<string>, edges: seq<Edge>, depths: LoopDepths) {
    var n, index := |ids|, Places(ids);
    && Size(Triples(edges, index, depths, Forward), n, false, n) < 0x8000_0000
    && Size(Triples(edges, index, depths, Structural), n, false, n) < 0x8000_0000
    && Size(Triples(edges, index, depths, Complexity), n, false, n) < 0x8000_0000
    && Size(Triples(edges, index, depths, Forward), n, true, n) < 0x8000_0000
  }

  ghost predicate Projects(g: ImpactGraph, ids: seq<string>, edges: seq<Edge>, depths: LoopDepths) {
    var index := Places(ids);
    && Represents(g.forward, ids, Triples(edges, index, depths, Forward), false)
    && Represents(g.reverseStructural, ids, Triples(edges, index, depths, Structural), false)
    && Represents(g.reverseComplexity, ids, Triples(edges, index, depths, Complexity), false)
    && Represents(g.symmetrized, ids, Triples(edges, index, depths, Forward), true)
  }

  lemma {:induction false} TriplesPush(
      edges: seq<Edge>, e: Edge, index: map<string, nat>, depths: LoopDepths, p: Projection)
    ensures Triples(edges + [e], index, depths, p) ==
      Triples(edges, index, depths, p) + if Usable(e, index) then [TripleOf(e, index, depths, p)] else []
  {
    assert (edges + [e])[..|edges|] == edges;
  }

  lemma {:induction false} NoTriples(index: map<string, nat>, depths: LoopDepths)
    ensures forall p: Projection :: Triples([], index, depths, p) == []
  {
  }

  lemma {:induction false} TriplesOf(e: Edge, index: map<string, nat>, depths: LoopDepths)
    requires Usable(e, index)
    ensures var u, v := index[e.srcId], index[e.dstId];
      && TripleOf(e, index, depths, Forward) == Triple(u, v, e.confidence)
      && TripleOf(e, index, depths, Structural) == Triple(v, u, e.confidence * StructGamma(e.kind))
      && TripleOf(e, index, depths, Complexity)
           == Triple(v, u, e.confidence * CplxGamma(e.kind) * Boost(e, depths))
  {
    hide Boost;
  }

  /** Each of the four graphs stands for its projection exactly when all their entries can be numbered in 32 bits. */
  method Build(nodeIds: seq<string>, edges: seq<Edge>, depths: LoopDepths) returns (g: ImpactGraph)
    ensures Projects(g, nodeIds, edges, depths) <==> Fits(nodeIds, edges, depths)
  {
    hide Represents, Size, Places, Boost, Triples, TripleOf, StructGamma, CplxGamma;
    var index := IndexOf(nodeIds);
    var fwd, structural, cplx, sym := [], [], [], [];
    NoTriples(index, depths);
    assert edges[..0] == [];
    for i := 0 to |edges|
      invariant fwd == sym == Triples(edges[..i], index, depths, Forward)
      invariant structural == Triples(edges[..i], index, depths, Structural)
      invariant cplx == Triples(edges[..i], index, depths, Complexity)
    {
      var e := edges[i];
      assert edges[..i + 1] == edges[..i] + [e];
      TriplesPush(edges[..i], e, index, depths, Forward);
      TriplesPush(edges[..i], e, index, depths, Structural);
      TriplesPush(edges[..i], e, index, depths, Complexity);
      if e.dstMissing || e.confidence <= 0.0 {
        continue;
      }
      if e.srcId !in index || e.dstId !in index {
        continue;
      }
      var u, v := index[e.srcId], index[e.dstId];
      if u == v {
        continue;
      }
      TriplesOf(e, index, depths);
      fwd, sym := fwd + [Triple(u, v, e.confidence)], sym + [Triple(u, v, e.confidence)];
      structural := structural + [Triple(v, u, e.confidence * StructGamma(e.kind))];
      var boost := Boost(e, depths);
      cplx := cplx + [Triple(v, u, e.confidence * CplxGamma(e.kind) * boost)];
      assert cplx[|cplx| - 1] == TripleOf(e, index, depths, Complexity);
    }
    assert edges[..|edges|] == edges;
    var f := FromWeightedTriples(nodeIds, fwd, false);
    var s := FromWeightedTriples(nodeIds, structural, false);
    var c := FromWeightedTriples(nodeIds, cplx, false);
    var y := FromWeightedTriples(nodeIds, sym, true);
    g := ImpactGraph(f, s, c, y);
  }

  // ---- How the projections agree ----------------------------------------------------------------------

  lemma {:induction false} StructuralScale(e: Edge, index: map<string, nat>, depths: LoopDepths)
    requires Usable(e, index)
    ensures 0.45 * e.confidence <= TripleOf(e, index, depths, Structural).w <= e.confidence
  {
  }

  lemma {:induction false} ComplexityScale(e: Edge, index: map<string, nat>, depths: LoopDepths)
    requires Usable(e, index)
    ensures 0.05 * e.confidence <= TripleOf(e, index, depths, Complexity).w <= 256.0 * e.confidence
  {
    BoostRange(LoopDepthOf(e, depths));
    hide Boost;
    var x, b := e.confidence * CplxGamma(e.kind), Boost(e, depths);
    assert 0.05 * e.confidence <= x <= e.confidence;
    Between(x, b, 256.0);
    assert TripleOf(e, index, depths, Complexity).w == x * b;
  }

  lemma {:induction false} Between(x: real, b: real, hi: real)
    requires x > 0.0 && 1.0 <= b <= hi
    ensures x <= x * b <= hi * x
  {
    assert x * b - x == x * (b - 1.0) >= 0.0;
    assert hi * x - x * b == x * (hi - b) >= 0.0;
  }

  lemma {:induction false} EdgeWeight(
      edges: seq<Edge>, e: Edge, index: map<string, nat>, depths: LoopDepths, p: Projection, n: nat,
                   u: nat, v: nat)
    ensures Weight(Triples(edges + [e], index, depths, p), n, false, u, v) ==
      Weight(Triples(edges, index, depths, p), n, false, u, v)
      + if Usable(e, index) then Added(TripleOf(e, index, depths, p), n, false, u, v) else 0.0
  {
    hide TripleOf, Usable;
    TriplesPush(edges, e, index, depths, p);
    var before := Triples(edges, index, depths, p);
    if Usable(e, index) {
      WeightPush(before, TripleOf(e, index, depths, p), n, false, u, v);
    } else {
      assert before + [] == before;
    }
  }

  /** Weights of the reverse projections lie within fixed factors of the forward ones. */
  lemma {:induction false} ReverseWeights(
      edges: seq<Edge>, index: map<string, nat>, depths: LoopDepths, n: nat, u: nat, v: nat)
    requires forall id :: id in index ==> index[id] < n
    ensures var w := Weight(Triples(edges, index, depths, Forward), n, false, u, v);
      && 0.45 * w <= Weight(Triples(edges, index, depths, Structural), n, false, v, u) <= w
      && 0.05 * w <= Weight(Triples(edges, index, depths, Complexity), n, false, v, u) <= 256.0 * w
  {
    hide TripleOf, Usable, Weight, Added;
    if edges == [] {
      NoWeight(n, u, v);
      NoWeight(n, v, u);
    } else {
      var before, e := edges[..|edges| - 1], edges[|edges| - 1];
      ReverseWeights(before, index, depths, n, u, v);
      assert edges == before + [e];
      EdgeWeight(before, e, index, depths, Forward, n, u, v);
      EdgeWeight(before, e, index, depths, Structural, n, v, u);
      EdgeWeight(before, e, index, depths, Complexity, n, v, u);
      if Usable(e, index) {
        AddedScale(e, index, depths, n, u, v);
      }
    }
  }

  lemma {:induction false} NoWeight(n: nat, u: nat, v: nat)
    ensures Weight([], n, false, u, v) == 0.0
  {
  }

  lemma {:induction false} AddedScale(e: Edge, index: map<string, nat>, depths: LoopDepths, n: nat, u: nat, v: nat)
    requires Usable(e, index) && forall id :: id in index ==> index[id] < n
    ensures var w := Added(TripleOf(e, index, depths, Forward), n, false, u, v);
      && 0.45 * w <= Added(TripleOf(e, index, depths, Structural), n, false, v, u) <= w
      && 0.05 * w <= Added(TripleOf(e, index, depths, Complexity), n, false, v, u) <= 256.0 * w
  {
    StructuralScale(e, index, depths);
    ComplexityScale(e, index, depths);
  }

  /** Off the diagonal the projections have the same edges, turned round, and comparable weights; the symmetrized graph
      adds the two directions. */
  lemma {:induction false} ProjectionsAgree(
      g: ImpactGraph, ids: seq<string>, edges: seq<Edge>, depths: LoopDepths, u: nat, v: nat)
    requires Projects(g, ids, edges, depths) && u < |ids| && v < |ids| && u != v
    ensures Entry(g.symmetrized, u, v) == Entry(g.forward, u, v) + Entry(g.forward, v, u)
    ensures 0.45 * Entry(g.forward, u, v) <= Entry(g.reverseStructural, v, u) <= Entry(g.forward, u, v)
    ensures 0.05 * Entry(g.forward, u, v) <= Entry(g.reverseComplexity, v, u) <= 256.0 * Entry(g.forward, u, v)
    ensures Entry(g.forward, u, v) > 0.0 <==> Entry(g.reverseStructural, v, u) > 0.0
    ensures Entry(g.forward, u, v) > 0.0 <==> Entry(g.reverseComplexity, v, u) > 0.0
  {
    hide Entry, Represents, Weight;
    var n, index := |ids|, Places(ids);
    PlacesAreLast(ids);
    var fwd := Triples(edges, index, depths, Forward);
    EntryIsWeight(g.forward, ids, fwd, false, u, v);
    EntryIsWeight(g.forward, ids, fwd, false, v, u);
    EntryIsWeight(g.reverseStructural, ids, Triples(edges, index, depths, Structural), false, v, u);
    EntryIsWeight(g.reverseComplexity, ids, Triples(edges, index, depths, Complexity), false, v, u);
    EntryIsWeight(g.symmetrized, ids, fwd, true, u, v);
    ReverseWeights(edges, index, depths, n, u, v);
    SymmetrizedWeight(fwd, n, u, v);
  }

  // ---- What the entries are, edge by edge -------------------------------------------------------------

  predicate IsPlace(ids: seq<string>, id: string, u: nat) {
    u < |ids| && ids[u] == id && forall k :: u < k < |ids| ==> ids[k] != id
  }

  /** The edge is there to be followed from u to v. */
  predicate Runs(e: Edge, ids: seq<string>, u: nat, v: nat) {
    !e.dstMissing && e.confidence > 0.0 && IsPlace(ids, e.srcId, u) && IsPlace(ids, e.dstId, v)
  }

  lemma {:induction false} UsableIff(e: Edge, ids: seq<string>, u: nat, v: nat)
    requires u != v
    ensures Usable(e, Places(ids)) && Places(ids)[e.srcId] == u && Places(ids)[e.dstId] == v <==> Runs(e, ids, u, v)
  {
    PlacesAreLast(ids);
  }

  /** No edge but perhaps the i-th runs from u to v. */
  predicate NoOther(edges: seq<Edge>, i: nat, ids: seq<string>, u: nat, v: nat) {
    forall k :: 0 <= k < |edges| && k != i ==> !Runs(edges[k], ids, u, v)
  }

  /** The only edge of a pair gives it, turned round in the reverse graphs, its confidence times what its kind is worth, in
      the complexity graph times four for each loop around it, up to four loops; other edges give it nothing. The depth given
      for the pair comes before the one in the metadata. */
  lemma {:induction false} OnlyEdge(
      g: ImpactGraph, ids: seq<string>, edges: seq<Edge>, i: nat, depths: LoopDepths, u: nat, v: nat)
    requires Projects(g, ids, edges, depths) && u < |ids| && v < |ids| && u != v
    requires i < |edges| && NoOther(edges, i, ids, u, v)
    ensures !Runs(edges[i], ids, u, v) ==>
      Entry(g.forward, u, v) == Entry(g.reverseStructural, v, u) == Entry(g.reverseComplexity, v, u) == 0.0
    ensures Runs(edges[i], ids, u, v) ==> Entry(g.forward, u, v) == edges[i].confidence
    ensures Runs(edges[i], ids, u, v) ==>
      var e := edges[i];
      var worth := match e.kind
        case Calls => 0.95 case Imports => 0.45 case Inherits => 0.9 case Implements => 0.85
        case Reads => 0.8 case Writes => 0.8 case RoutesTo => 0.95 case Tests => 1.0;
      Entry(g.reverseStructural, v, u) == e.confidence * worth
    ensures Runs(edges[i], ids, u, v) ==>
      var e := edges[i];
      var worth := match e.kind
        case Calls => 1.0 case Imports => 0.05 case Inherits => 0.5 case Implements => 0.5
        case Reads => 0.6 case Writes => 0.6 case RoutesTo => 1.0 case Tests => 0.8;
      var depth :=
        if (e.srcId, e.dstId) in depths then depths[(e.srcId, e.dstId)]
        else if e.metaLoopDepth.Some? then e.metaLoopDepth.value % 256
        else 0;
      var loops := match depth case 0 => 1.0 case 1 => 4.0 case 2 => 16.0 case 3 => 64.0 case _ => 256.0;
      Entry(g.reverseComplexity, v, u) == e.confidence * worth * loops
  {
    hide Represents, Entry, Weight, Places, NoOther;
    var e, index := edges[i], Places(ids);
    UsableIff(e, ids, u, v);
    PlacesAreLast(ids);
    EntryOfOnly(g.forward, ids, edges, i, depths, Forward, u, v);
    EntryOfOnly(g.reverseStructural, ids, edges, i, depths, Structural, v, u);
    EntryOfOnly(g.reverseComplexity, ids, edges, i, depths, Complexity, v, u);
    if Usable(e, index) {
      TriplesOf(e, index, depths);
      GammasAre(e, depths);
    }
    hide TripleOf, StructGamma, CplxGamma, Boost, Runs;
  }

  lemma {:induction false} GammasAre(e: Edge, depths: LoopDepths)
    ensures
      var worth := match e.kind
        case Calls => 0.95 case Imports => 0.45 case Inherits => 0.9 case Implements => 0.85
        case Reads => 0.8 case Writes => 0.8 case RoutesTo => 0.95 case Tests => 1.0;
      StructGamma(e.kind) == worth
    ensures
      var worth := match e.kind
        case Calls => 1.0 case Imports => 0.05 case Inherits => 0.5 case Implements => 0.5
        case Reads => 0.6 case Writes => 0.6 case RoutesTo => 1.0 case Tests => 0.8;
      var depth :=
        if (e.srcId, e.dstId) in depths then depths[(e.srcId, e.dstId)]
        else if e.metaLoopDepth.Some? then e.metaLoopDepth.value % 256
        else 0;
      var loops := match depth case 0 => 1.0 case 1 => 4.0 case 2 => 16.0 case 3 => 64.0 case _ => 256.0;
      CplxGamma(e.kind) == worth && Boost(e, depths) == loops
  {
    PowersOfFour();
  }

  lemma {:induction false} PowersOfFour()
    ensures Pow(4.0, 0) == 1.0 && Pow(4.0, 1) == 4.0 && Pow(4.0, 2) == 16.0 && Pow(4.0, 3) == 64.0 && Pow(4.0, 4) == 256.0
  {
  }

  lemma {:induction false} EntryOfOnly(g: CodeGraph, ids: seq<string>, edges: seq<Edge>, i: nat, depths: LoopDepths,
                                       p: Projection, u: nat, v: nat)
    requires Represents(g, ids, Triples(edges, Places(ids), depths, p), false) && u < |ids| && v < |ids| && u != v
    requires i < |edges| && if p.Forward? then NoOther(edges, i, ids, u, v) else NoOther(edges, i, ids, v, u)
    ensures Entry(g, u, v) ==
      if Usable(edges[i], Places(ids)) then Added(TripleOf(edges[i], Places(ids), depths, p), |ids|, false, u, v) else 0.0
  {
    var index, n := Places(ids), |ids|;
    EntryIsWeight(g, ids, Triples(edges, index, depths, p), false, u, v);
    hide Represents, Entry, TripleOf, Weight, Runs, Usable, Added;
    var before, e, after := edges[..i], edges[i], edges[i + 1..];
    assert edges == before + [e] + after;
    EdgesWeigh(before + [e], after, index, depths, p, n, u, v);
    EdgeWeight(before, e, index, depths, p, n, u, v);
    assert forall k :: 0 <= k < |after| ==> after[k] == edges[i + 1 + k];
    NoneRuns(before, ids, depths, p, u, v);
    NoneRuns(after, ids, depths, p, u, v);
  }

  lemma {:induction false} EdgesWeigh(es: seq<Edge>, fs: seq<Edge>, index: map<string, nat>, depths: LoopDepths,
                                      p: Projection, n: nat, u: nat, v: nat)
    ensures Weight(Triples(es + fs, index, depths, p), n, false, u, v) ==
      Weight(Triples(es, index, depths, p), n, false, u, v) + Weight(Triples(fs, index, depths, p), n, false, u, v)
  {
    TriplesJoin(es, fs, index, depths, p);
    WeightJoins(Triples(es, index, depths, p), Triples(fs, index, depths, p), n, false, u, v);
  }

  /** Edges that do not join a pair give it no weight. */
  lemma {:induction false} NoneRuns(
      edges: seq<Edge>, ids: seq<string>, depths: LoopDepths, p: Projection, u: nat, v: nat)
    requires u != v
    requires forall k :: 0 <= k < |edges| ==>
      if p.Forward? then !Runs(edges[k], ids, u, v) else !Runs(edges[k], ids, v, u)
    ensures Weight(Triples(edges, Places(ids), depths, p), |ids|, false, u, v) == 0.0
  {
    hide Runs, Places, Usable;
    if edges != [] {
      var before, e := edges[..|edges| - 1], edges[|edges| - 1];
      NoneRuns(before, ids, depths, p, u, v);
      assert edges == before + [e];
      EdgeWeight(before, e, Places(ids), depths, p, |ids|, u, v);
      UsableIff(e, ids, u, v);
      UsableIff(e, ids, v, u);
    }
  }

  /** Entries of all four graphs add up over the edges. */
  lemma {:induction false} EdgesAdd(g: ImpactGraph, a: ImpactGraph, b: ImpactGraph, ids: seq<string>, es: seq<Edge>,
                                    fs: seq<Edge>, depths: LoopDepths, u: nat, v: nat)
    requires Projects(a, ids, es, depths) && Projects(b, ids, fs, depths) && Projects(g, ids, es + fs, depths)
    requires u < |ids| && v < |ids| && u != v
    ensures Entry(g.forward, u, v) == Entry(a.forward, u, v) + Entry(b.forward, u, v)
    ensures Entry(g.reverseStructural, u, v) == Entry(a.reverseStructural, u, v) + Entry(b.reverseStructural, u, v)
    ensures Entry(g.reverseComplexity, u, v) == Entry(a.reverseComplexity, u, v) + Entry(b.reverseComplexity, u, v)
    ensures Entry(g.symmetrized, u, v) == Entry(a.symmetrized, u, v) + Entry(b.symmetrized, u, v)
  {
    hide Represents, Entry;
    EntriesAdd(g.forward, a.forward, b.forward, ids, es, fs, depths, Forward, false, u, v);
    EntriesAdd(g.reverseStructural, a.reverseStructural, b.reverseStructural, ids, es, fs, depths, Structural, false, u, v);
    EntriesAdd(g.reverseComplexity, a.reverseComplexity, b.reverseComplexity, ids, es, fs, depths, Complexity, false, u, v);
    EntriesAdd(g.symmetrized, a.symmetrized, b.symmetrized, ids, es, fs, depths, Forward, true, u, v);
  }

  lemma {:induction false} EntriesAdd(g: CodeGraph, a: CodeGraph, b: CodeGraph, ids: seq<string>, es: seq<Edge>,
                                      fs: seq<Edge>, depths: LoopDepths, p: Projection, symmetrize: bool, u: nat, v: nat)
    requires Represents(a, ids, Triples(es, Places(ids), depths, p), symmetrize)
    requires Represents(b, ids, Triples(fs, Places(ids), depths, p), symmetrize)
    requires Represents(g, ids, Triples(es + fs, Places(ids), depths, p), symmetrize)
    requires u < |ids| && v < |ids| && u != v
    ensures Entry(g, u, v) == Entry(a, u, v) + Entry(b, u, v)
  {
    var index := Places(ids);
    EntryIsWeight(a, ids, Triples(es, index, depths, p), symmetrize, u, v);
    EntryIsWeight(b, ids, Triples(fs, index, depths, p), symmetrize, u, v);
    EntryIsWeight(g, ids, Triples(es + fs, index, depths, p), symmetrize, u, v);
    hide Represents, Entry;
    TriplesJoin(es, fs, index, depths, p);
    WeightJoins(Triples(es, index, depths, p), Triples(fs, index, depths, p), |ids|, symmetrize, u, v);
  }

  lemma {:induction false} TriplesJoin(
      es: seq<Edge>, fs: seq<Edge>, index: map<string, nat>, depths: LoopDepths, p: Projection)
    ensures Triples(es + fs, index, depths, p) == Triples(es, index, depths, p) + Triples(fs, index, depths, p)
  {
    hide TripleOf, Usable;
    if fs == [] {
      assert es + fs == es;
    } else {
      var n := |fs| - 1;
      TriplesJoin(es, fs[..n], index, depths, p);
      assert es + fs == (es + fs[..n]) + [fs[n]];
      TriplesPush(es + fs[..n], fs[n], index, depths, p);
    }
  }

  lemma {:induction false} WeightJoins(a: seq<Triple>, b: seq<Triple>, n: nat, symmetrize: bool, u: nat, v: nat)
    ensures Weight(a + b, n, symmetrize, u, v) == Weight(a, n, symmetrize, u, v) + Weight(b, n, symmetrize, u, v)
  {
    if b == [] {
      assert a + b == a;
    } else {
      var k := |b| - 1;
      WeightJoins(a, b[..k], n, symmetrize, u, v);
      assert a + b == (a + b[..k]) + [b[k]];
      WeightPush(a + b[..k], b[k], n, symmetrize, u, v);
    }
  }
}
