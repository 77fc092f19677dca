/** The compressed (CSR) code graph (crates/cognis-core/src/graph.rs) against the plain reading "the weight of a pair of
    nodes is the sum of the triples kept for it". Weights are reals. */
module CodeGraphs {
  datatype Triple = Triple(u: nat, v: nat, w: real)

  const I32_LIMIT: nat := 0x8000_0000

  /** The cast `as i32`, which wraps. */
  function AsI32(x: nat): int { (x + I32_LIMIT) % (2 * I32_LIMIT) - I32_LIMIT }

  lemma {:induction false} FitsI32(x: nat)
    requires x < I32_LIMIT
    ensures AsI32(x) == x
  {
  }

  datatype CodeGraph = CodeGraph(
    indptr: seq<int>, indices: seq<int>, weights: seq<real>, degree: seq<real>, nodeIds: seq<string>,
    index: map<string, nat>)
  {
    function N(): nat { |nodeIds| }

    /** Row u spans indptr[u] to indptr[u + 1], and no row is empty. */
    predicate Shape() {
      && |indptr| == N() + 1 && indptr[0] == 0 && indptr[N()] == |indices| == |weights| && |degree| == N()
      && forall i, j :: 0 <= i < j < |indptr| ==> indptr[i] < indptr[j]
    }

    function Neighbors(u: nat): (seq<int>, seq<real>)
      requires Shape()
    {
      if u >= N() then ([], [])
      else
        assert 0 <= indptr[u] < indptr[u + 1] <= indptr[N()];
        (indices[indptr[u]..indptr[u + 1]], weights[indptr[u]..indptr[u + 1]])
    }
  }

  // ---- The plain reading ------------------------------------------------------------------------------

  predicate Kept(t: Triple, n: nat) { t.u < n && t.v < n && t.u != t.v && t.w > 0.0 }

  /** What one triple adds to the weight of the pair (u, v). */
  function Added(t: Triple, n: nat, symmetrize: bool, u: nat, v: nat): real {
    if Kept(t, n) && ((t.u == u && t.v == v) || (symmetrize && t.v == u && t.u == v)) then t.w else 0.0
  }

  function Weight(ts: seq<Triple>, n: nat, symmetrize: bool, u: nat, v: nat): real {
    if ts == [] then 0.0
    else Weight(ts[..|ts| - 1], n, symmetrize, u, v) + Added(ts[|ts| - 1], n, symmetrize, u, v)
  }

  predicate Leaves(t: Triple, n: nat, symmetrize: bool, u: nat) {
    Kept(t, n) && (t.u == u || (symmetrize && t.v == u))
  }

  /** No kept triple leaves node u. */
  predicate Lonely(ts: seq<Triple>, n: nat, symmetrize: bool, u: nat) {
    forall i :: 0 <= i < |ts| ==> !Leaves(ts[i], n, symmetrize, u)
  }

  /** All that leaves node u. */
  function OutWeight(ts: seq<Triple>, n: nat, symmetrize: bool, u: nat): real {
    if ts == [] then 0.0
    else
      OutWeight(ts[..|ts| - 1], n, symmetrize, u)
      + if Leaves(ts[|ts| - 1], n, symmetrize, u) then ts[|ts| - 1].w else 0.0
  }

  function KeptWeight(ts: seq<Triple>, n: nat): real {
    if ts == [] then 0.0
    else KeptWeight(ts[..|ts| - 1], n) + if Kept(ts[|ts| - 1], n) then ts[|ts| - 1].w else 0.0
  }

  function Sum(ws: seq<real>): real {
    if ws == [] then 0.0 else Sum(ws[..|ws| - 1]) + ws[|ws| - 1]
  }

  predicate Ascending(ks: seq<int>) { forall i, j :: 0 <= i < j < |ks| ==> ks[i] < ks[j] }

  predicate RowOk(ts: seq<Triple>, n: nat, symmetrize: bool, u: nat, ks: seq<int>, ws: seq<real>, d: real) {
    && |ks| == |ws| && Ascending(ks) && d == Sum(ws)
    && (forall i :: 0 <= i < |ks| ==> 0 <= ks[i] < n)
    && if Lonely(ts, n, symmetrize, u) then ks == [u] && ws == [1.0]
       else
         && (forall v: nat :: v < n && Weight(ts, n, symmetrize, u, v) > 0.0 ==> v in ks)
         && (forall i :: 0 <= i < |ks| ==> ws[i] == Weight(ts, n, symmetrize, u, ks[i]) && ws[i] > 0.0)
  }

  /** The last place of each identifier. */
  predicate IndexOk(ids: seq<string>, index: map<string, nat>) {
    && (forall i :: 0 <= i < |ids| ==> ids[i] in index)
    && (forall id :: id in index ==>
          && index[id] < |ids| && ids[index[id]] == id
          && forall j :: index[id] < j < |ids| ==> ids[j] != id)
  }

  /** The compressed graph stands for the triples. */
  predicate Represents(g: CodeGraph, ids: seq<string>, ts: seq<Triple>, symmetrize: bool) {
    && g.nodeIds == ids && IndexOk(ids, g.index) && g.Shape()
    && forall u :: 0 <= u < |ids| ==> RowOk(ts, |ids|, symmetrize, u, g.Neighbors(u).0, g.Neighbors(u).1, g.degree[u])
  }

  // ---- Weights ----------------------------------------------------------------------------------------

  lemma {:induction false} WeightPush(ts: seq<Triple>, t: Triple, n: nat, symmetrize: bool, u: nat, v: nat)
    ensures Weight(ts + [t], n, symmetrize, u, v) == Weight(ts, n, symmetrize, u, v) + Added(t, n, symmetrize, u, v)
  {
    assert (ts + [t])[..|ts|] == ts;
  }

  lemma {:induction false} WeightIsPositive(ts: seq<Triple>, n: nat, symmetrize: bool, u: nat, v: nat)
    ensures Weight(ts, n, symmetrize, u, v) >= 0.0
    ensures Weight(ts, n, symmetrize, u, v) > 0.0 <==>
      exists i :: 0 <= i < |ts| && Added(ts[i], n, symmetrize, u, v) > 0.0
    ensures Weight(ts, n, symmetrize, u, v) > 0.0 ==> u < n && v < n && u != v && !Lonely(ts, n, symmetrize, u)
  {
    hide Kept;
    if ts != [] {
      var before := ts[..|ts| - 1];
      WeightIsPositive(before, n, symmetrize, u, v);
      AddedMeans(ts[|ts| - 1], n, symmetrize, u, v);
      assert forall i :: 0 <= i < |before| ==> before[i] == ts[i];
    }
  }

  lemma {:induction false} AddedMeans(t: Triple, n: nat, symmetrize: bool, u: nat, v: nat)
    ensures Added(t, n, symmetrize, u, v) >= 0.0
    ensures Added(t, n, symmetrize, u, v) > 0.0 ==> u < n && v < n && u != v && Leaves(t, n, symmetrize, u)
  {
  }

  lemma {:induction false} LonelyIsZero(ts: seq<Triple>, n: nat, symmetrize: bool, u: nat)
    ensures OutWeight(ts, n, symmetrize, u) >= 0.0
    ensures Lonely(ts, n, symmetrize, u) <==> OutWeight(ts, n, symmetrize, u) == 0.0
  {
    if ts != [] {
      var before, t := ts[..|ts| - 1], ts[|ts| - 1];
      LonelyIsZero(before, n, symmetrize, u);
      assert Lonely(ts, n, symmetrize, u) <==> Lonely(before, n, symmetrize, u) && !Leaves(t, n, symmetrize, u);
    }
  }

  lemma {:induction false} NeighborOf(ts: seq<Triple>, n: nat, symmetrize: bool, u: nat) returns (v: nat)
    requires !Lonely(ts, n, symmetrize, u)
    ensures v < n && Weight(ts, n, symmetrize, u, v) > 0.0
  {
    var i :| 0 <= i < |ts| && Leaves(ts[i], n, symmetrize, u);
    v := if ts[i].u == u then ts[i].v else ts[i].u;
    assert Added(ts[i], n, symmetrize, u, v) > 0.0;
    WeightIsPositive(ts, n, symmetrize, u, v);
  }

  /** The weights out of u, summed over the first nodes. */
  function RowSum(ts: seq<Triple>, n: nat, symmetrize: bool, u: nat, hi: nat): real {
    if hi == 0 then 0.0 else RowSum(ts, n, symmetrize, u, hi - 1) + Weight(ts, n, symmetrize, u, hi - 1)
  }

  lemma {:induction false} RowSumPush(ts: seq<Triple>, t: Triple, n: nat, symmetrize: bool, u: nat, hi: nat)
    requires hi <= n
    ensures RowSum(ts + [t], n, symmetrize, u, hi) ==
      RowSum(ts, n, symmetrize, u, hi)
      + if Leaves(t, n, symmetrize, u) && (if t.u == u then t.v else t.u) < hi then t.w else 0.0
  {
    if hi > 0 {
      RowSumPush(ts, t, n, symmetrize, u, hi - 1);
      WeightPush(ts, t, n, symmetrize, u, hi - 1);
    }
  }

  lemma {:induction false} RowSumIsOutWeight(ts: seq<Triple>, n: nat, symmetrize: bool, u: nat)
    ensures RowSum(ts, n, symmetrize, u, n) == OutWeight(ts, n, symmetrize, u)
  {
    if ts == [] {
      NothingSums(n, symmetrize, u, n);
    } else {
      RowSumIsOutWeight(ts[..|ts| - 1], n, symmetrize, u);
      RowSumPush(ts[..|ts| - 1], ts[|ts| - 1], n, symmetrize, u, n);
      assert ts[..|ts| - 1] + [ts[|ts| - 1]] == ts;
    }
  }

  lemma {:induction false} NothingSums(n: nat, symmetrize: bool, u: nat, hi: nat)
    ensures RowSum([], n, symmetrize, u, hi) == 0.0
  {
    if hi > 0 {
      NothingSums(n, symmetrize, u, hi - 1);
    }
  }

  // ---- What the compressed graph says -----------------------------------------------------------------

  /** The weight listed for node v. */
  function Find(ks: seq<int>, ws: seq<real>, v: int): real
    requires |ks| == |ws|
  {
    if ks == [] then 0.0
    else if ks[|ks| - 1] == v then ws[|ws| - 1]
    else Find(ks[..|ks| - 1], ws[..|ws| - 1], v)
  }

  function Entry(g: CodeGraph, u: nat, v: nat): real
    requires g.Shape()
  {
    Find(g.Neighbors(u).0, g.Neighbors(u).1, v)
  }

  lemma {:induction false} FindMeans(ks: seq<int>, ws: seq<real>, v: int)
    requires |ks| == |ws| && Ascending(ks)
    ensures v !in ks ==> Find(ks, ws, v) == 0.0
    ensures forall i :: 0 <= i < |ks| && ks[i] == v ==> Find(ks, ws, v) == ws[i]
  {
    if ks != [] && ks[|ks| - 1] != v {
      FindMeans(ks[..|ks| - 1], ws[..|ws| - 1], v);
    }
  }

  /** Looking a pair up gives the sum of the triples kept for it; a node nothing leaves has a unit loop, and no other
      node has a loop. */
  lemma {:induction false} EntryIsWeight(
      g: CodeGraph, ids: seq<string>, ts: seq<Triple>, symmetrize: bool, u: nat, v: nat)
    requires Represents(g, ids, ts, symmetrize) && u < |ids| && v < |ids|
    ensures Entry(g, u, v) ==
      Weight(ts, |ids|, symmetrize, u, v) + if u == v && Lonely(ts, |ids|, symmetrize, u) then 1.0 else 0.0
  {
    var ks, ws := g.Neighbors(u).0, g.Neighbors(u).1;
    assert RowOk(ts, |ids|, symmetrize, u, ks, ws, g.degree[u]);
    FindMeans(ks, ws, v);
    WeightIsPositive(ts, |ids|, symmetrize, u, v);
    if v in ks {
      var i :| 0 <= i < |ks| && ks[i] == v;
      assert Find(ks, ws, v) == ws[i];
    }
  }

  /** Leaving zeros out does not change a sum. */
  lemma {:induction false} SparseSum(ks: seq<int>, ws: seq<real>, dense: seq<real>)
    requires |ks| == |ws| && Ascending(ks)
    requires forall i :: 0 <= i < |ks| ==> 0 <= ks[i] < |dense| && ws[i] == dense[ks[i]]
    requires forall v :: 0 <= v < |dense| && dense[v] != 0.0 ==> v in ks
    ensures Sum(ws) == Sum(dense)
  {
    if dense != [] {
      var last, hi := |ks| - 1, |dense| - 1;
      if last >= 0 && ks[last] == hi {
        forall v | 0 <= v < hi && dense[v] != 0.0 ensures v in ks[..last] {
          LastApart(ks, v);
        }
        SparseSum(ks[..last], ws[..last], dense[..hi]);
      } else {
        NotLast(ks, hi);
        SparseSum(ks, ws, dense[..hi]);
      }
    }
  }

  lemma {:induction false} DenseSum(ts: seq<Triple>, n: nat, symmetrize: bool, u: nat, dense: seq<real>)
    requires forall v :: 0 <= v < |dense| ==> dense[v] == Weight(ts, n, symmetrize, u, v)
    ensures Sum(dense) == RowSum(ts, n, symmetrize, u, |dense|)
  {
    if dense != [] {
      DenseSum(ts, n, symmetrize, u, dense[..|dense| - 1]);
    }
  }

  lemma {:induction false} RowTotal(
      ts: seq<Triple>, n: nat, symmetrize: bool, u: nat, ks: seq<int>, ws: seq<real>, d: real)
    requires RowOk(ts, n, symmetrize, u, ks, ws, d) && !Lonely(ts, n, symmetrize, u)
    ensures d == RowSum(ts, n, symmetrize, u, n)
  {
    hide Weight, Lonely, RowSum, Sum;
    var dense := seq(n, v requires 0 <= v < n => Weight(ts, n, symmetrize, u, v));
    forall v | 0 <= v < |dense| && dense[v] != 0.0 ensures v in ks {
      WeightIsPositive(ts, n, symmetrize, u, v);
    }
    SparseSum(ks, ws, dense);
    DenseSum(ts, n, symmetrize, u, dense);
  }

  lemma {:induction false} NotLast(ks: seq<int>, v: int)
    requires Ascending(ks) && (forall i :: 0 <= i < |ks| ==> ks[i] <= v) && (ks == [] || ks[|ks| - 1] != v)
    ensures v !in ks && forall i :: 0 <= i < |ks| ==> ks[i] < v
  {
  }

  lemma {:induction false} SumOfOne()
    ensures Sum([1.0]) == 1.0
  {
    assert [1.0][..0] == [];
  }

  /** A node's degree is what leaves it, or one for the loop. */
  lemma {:induction false} DegreeIsOutWeight(g: CodeGraph, ids: seq<string>, ts: seq<Triple>, symmetrize: bool, u: nat)
    requires Represents(g, ids, ts, symmetrize) && u < |ids|
    ensures g.degree[u] ==
      OutWeight(ts, |ids|, symmetrize, u) + if Lonely(ts, |ids|, symmetrize, u) then 1.0 else 0.0
    ensures g.degree[u] > 0.0
  {
    var ks, ws := g.Neighbors(u).0, g.Neighbors(u).1;
    assert RowOk(ts, |ids|, symmetrize, u, ks, ws, g.degree[u]);
    LonelyIsZero(ts, |ids|, symmetrize, u);
    if !Lonely(ts, |ids|, symmetrize, u) {
      RowTotal(ts, |ids|, symmetrize, u, ks, ws, g.degree[u]);
      RowSumIsOutWeight(ts, |ids|, symmetrize, u);
    } else {
      SumOfOne();
    }
  }

  /** The chances of moving from u to each neighbour. */
  function Transitions(g: CodeGraph, u: nat): seq<real>
    requires g.Shape() && u < g.N() && g.degree[u] > 0.0
  {
    var ws := g.Neighbors(u).1;
    seq(|ws|, i requires 0 <= i < |ws| => ws[i] / g.degree[u])
  }

  lemma {:induction false} SumScales(ws: seq<real>, scaled: seq<real>, d: real)
    requires |ws| == |scaled| && d > 0.0 && forall i :: 0 <= i < |ws| ==> scaled[i] == ws[i] / d
    ensures Sum(scaled) == Sum(ws) / d
  {
    if ws != [] {
      SumScales(ws[..|ws| - 1], scaled[..|ws| - 1], d);
    }
  }

  /** Every row is a probability distribution. */
  lemma {:induction false} RowsAreStochastic(g: CodeGraph, ids: seq<string>, ts: seq<Triple>, symmetrize: bool, u: nat)
    requires Represents(g, ids, ts, symmetrize) && u < |ids|
    ensures g.degree[u] > 0.0 && Sum(Transitions(g, u)) == 1.0
    ensures forall p :: p in Transitions(g, u) ==> p > 0.0
  {
    DegreeIsOutWeight(g, ids, ts, symmetrize, u);
    var ws, d := g.Neighbors(u).1, g.degree[u];
    assert d == Sum(ws) && forall i :: 0 <= i < |ws| ==> ws[i] > 0.0 by {
      assert RowOk(ts, |ids|, symmetrize, u, g.Neighbors(u).0, ws, d);
    }
    Distribution(ws, Transitions(g, u), d);
  }

  lemma {:induction false} Distribution(ws: seq<real>, scaled: seq<real>, d: real)
    requires |ws| == |scaled| && d > 0.0 && forall i :: 0 <= i < |ws| ==> scaled[i] == ws[i] / d && ws[i] > 0.0
    requires d == Sum(ws)
    ensures Sum(scaled) == 1.0 && forall p :: p in scaled ==> p > 0.0
  {
    SumScales(ws, scaled, d);
    assert d / d == 1.0;
    forall p | p in scaled ensures p > 0.0 {
      var i :| 0 <= i < |ws| && scaled[i] == p;
      assert ws[i] > 0.0;
    }
  }

  // ---- Totals -----------------------------------------------------------------------------------------

  function LonelyCount(ts: seq<Triple>, n: nat, symmetrize: bool, hi: nat): nat {
    if hi == 0 then 0 else LonelyCount(ts, n, symmetrize, hi - 1) + if Lonely(ts, n, symmetrize, hi - 1) then 1 else 0
  }

  function OutTotal(ts: seq<Triple>, n: nat, symmetrize: bool, hi: nat): real {
    if hi == 0 then 0.0 else OutTotal(ts, n, symmetrize, hi - 1) + OutWeight(ts, n, symmetrize, hi - 1)
  }

  lemma {:induction false} OutTotalPush(ts: seq<Triple>, t: Triple, n: nat, symmetrize: bool, hi: nat)
    requires hi <= n
    ensures OutTotal(ts + [t], n, symmetrize, hi) ==
      OutTotal(ts, n, symmetrize, hi) + (if Kept(t, n) && t.u < hi then t.w else 0.0)
      + (if Kept(t, n) && symmetrize && t.v < hi then t.w else 0.0)
  {
    if hi > 0 {
      OutTotalPush(ts, t, n, symmetrize, hi - 1);
      assert (ts + [t])[..|ts|] == ts;
    }
  }

  lemma {:induction false} NothingLeaves(n: nat, symmetrize: bool, hi: nat)
    ensures OutTotal([], n, symmetrize, hi) == 0.0
  {
    if hi > 0 {
      NothingLeaves(n, symmetrize, hi - 1);
    }
  }

  lemma {:induction false} OutTotalIsKept(ts: seq<Triple>, n: nat, symmetrize: bool)
    ensures OutTotal(ts, n, symmetrize, n) == (if symmetrize then 2.0 else 1.0) * KeptWeight(ts, n)
  {
    if ts == [] {
      NothingLeaves(n, symmetrize, n);
    } else {
      OutTotalIsKept(ts[..|ts| - 1], n, symmetrize);
      OutTotalPush(ts[..|ts| - 1], ts[|ts| - 1], n, symmetrize, n);
      assert ts[..|ts| - 1] + [ts[|ts| - 1]] == ts;
    }
  }

  lemma {:induction false} DegreesUpTo(g: CodeGraph, ids: seq<string>, ts: seq<Triple>, symmetrize: bool, hi: nat)
    requires Represents(g, ids, ts, symmetrize) && hi <= |ids|
    ensures Sum(g.degree[..hi]) ==
      OutTotal(ts, |ids|, symmetrize, hi) + LonelyCount(ts, |ids|, symmetrize, hi) as real
  {
    if hi > 0 {
      DegreesUpTo(g, ids, ts, symmetrize, hi - 1);
      DegreeIsOutWeight(g, ids, ts, symmetrize, hi - 1);
      assert g.degree[..hi][..hi - 1] == g.degree[..hi - 1];
    }
  }

  /** All degrees together: the kept weight, twice over when symmetrized, and one for each loop. */
  lemma {:induction false} TotalDegree(g: CodeGraph, ids: seq<string>, ts: seq<Triple>, symmetrize: bool)
    requires Represents(g, ids, ts, symmetrize)
    ensures Sum(g.degree) ==
      (if symmetrize then 2.0 else 1.0) * KeptWeight(ts, |ids|) + LonelyCount(ts, |ids|, symmetrize, |ids|) as real
  {
    DegreesUpTo(g, ids, ts, symmetrize, |ids|);
    OutTotalIsKept(ts, |ids|, symmetrize);
    assert g.degree[..|ids|] == g.degree;
  }

  // ---- Turning the triples round ----------------------------------------------------------------------

  function Flip(ts: seq<Triple>): seq<Triple> {
    if ts == [] then []
    else var t := ts[|ts| - 1]; Flip(ts[..|ts| - 1]) + [Triple(t.v, t.u, t.w)]
  }

  lemma {:induction false} FlipWeight(ts: seq<Triple>, n: nat, symmetrize: bool, u: nat, v: nat)
    ensures Weight(Flip(ts), n, symmetrize, v, u) == Weight(ts, n, symmetrize, u, v)
  {
    if ts != [] {
      var t := ts[|ts| - 1];
      FlipWeight(ts[..|ts| - 1], n, symmetrize, u, v);
      WeightPush(Flip(ts[..|ts| - 1]), Triple(t.v, t.u, t.w), n, symmetrize, v, u);
    }
  }

  /** Symmetrizing adds both orientations. */
  lemma {:induction false} SymmetrizedWeight(ts: seq<Triple>, n: nat, u: nat, v: nat)
    ensures Weight(ts, n, true, u, v) == Weight(ts, n, false, u, v) + Weight(ts, n, false, v, u)
    ensures Weight(ts, n, true, u, v) == Weight(ts, n, true, v, u)
  {
    if ts != [] {
      SymmetrizedWeight(ts[..|ts| - 1], n, u, v);
    }
  }

  /** What the graph lists into node v from the first nodes. */
  function ColumnSum(g: CodeGraph, v: nat, hi: nat): real
    requires g.Shape()
  {
    if hi == 0 then 0.0 else ColumnSum(g, v, hi - 1) + Entry(g, hi - 1, v)
  }

  lemma {:induction false} ColumnIsFlippedRow(
      g: CodeGraph, ids: seq<string>, ts: seq<Triple>, symmetrize: bool, v: nat, hi: nat)
    requires Represents(g, ids, ts, symmetrize) && v < |ids| && hi <= |ids|
    ensures ColumnSum(g, v, hi) ==
      RowSum(Flip(ts), |ids|, symmetrize, v, hi)
      + if v < hi && Lonely(ts, |ids|, symmetrize, v) then 1.0 else 0.0
  {
    hide Weight, Represents, Entry, Lonely, Flip;
    if hi > 0 {
      ColumnIsFlippedRow(g, ids, ts, symmetrize, v, hi - 1);
      EntryIsWeight(g, ids, ts, symmetrize, hi - 1, v);
      FlipWeight(ts, |ids|, symmetrize, hi - 1, v);
    }
  }

  /** Read with row u of the lists as row u of a matrix, the degree of a node is its column sum exactly when as much weight
      comes in as goes out. */
  lemma {:induction false} DegreeIsColumnSumIff(g: CodeGraph, ids: seq<string>, ts: seq<Triple>, symmetrize: bool, v: nat)
    requires Represents(g, ids, ts, symmetrize) && v < |ids|
    ensures ColumnSum(g, v, |ids|) == g.degree[v] <==>
      OutWeight(Flip(ts), |ids|, symmetrize, v) == OutWeight(ts, |ids|, symmetrize, v)
  {
    ColumnIsFlippedRow(g, ids, ts, symmetrize, v, |ids|);
    RowSumIsOutWeight(Flip(ts), |ids|, symmetrize, v);
    DegreeIsOutWeight(g, ids, ts, symmetrize, v);
  }

  lemma {:induction false} SymmetrizedOutWeight(ts: seq<Triple>, n: nat, v: nat)
    ensures OutWeight(Flip(ts), n, true, v) == OutWeight(ts, n, true, v)
  {
    if ts != [] {
      SymmetrizedOutWeight(ts[..|ts| - 1], n, v);
      var t, before := ts[|ts| - 1], Flip(ts[..|ts| - 1]);
      assert (before + [Triple(t.v, t.u, t.w)])[..|before|] == before;
    }
  }

  /** In a symmetrized graph it always is. */
  lemma {:induction false} SymmetrizedColumns(g: CodeGraph, ids: seq<string>, ts: seq<Triple>, v: nat)
    requires Represents(g, ids, ts, true) && v < |ids|
    ensures ColumnSum(g, v, |ids|) == g.degree[v]
  {
    DegreeIsColumnSumIff(g, ids, ts, true, v);
    SymmetrizedOutWeight(ts, |ids|, v);
  }

  /** In a directed one it need not be: one edge gives its target a column sum of its own loop and the edge. */
  lemma {:induction false} DirectedColumnsDiffer(g: CodeGraph)
    requires Represents(g, ["a", "b"], [Triple(0, 1, 0.5)], false)
    ensures g.degree[1] == 1.0 && ColumnSum(g, 1, 2) == 1.5
  {
    var ids, ts := ["a", "b"], [Triple(0, 1, 0.5)];
    DegreeIsOutWeight(g, ids, ts, false, 1);
    assert !Leaves(ts[0], 2, false, 1) && Leaves(ts[0], 2, false, 0) && ts[..0] == [];
    EntryIsWeight(g, ids, ts, false, 0, 1);
    EntryIsWeight(g, ids, ts, false, 1, 1);
    assert ColumnSum(g, 1, 2) == ColumnSum(g, 1, 1) + Entry(g, 1, 1);
    assert ColumnSum(g, 1, 1) == ColumnSum(g, 1, 0) + Entry(g, 0, 1);
  }

  // ---- One graph for each reading ---------------------------------------------------------------------

  lemma {:induction false} AscendingIsUnique(a: seq<int>, b: seq<int>)
    requires Ascending(a) && Ascending(b) && (forall x :: x in a <==> x in b)
    ensures a == b
  {
    assert a != [] ==> a[0] in a && a[0] in b;
    assert b != [] ==> b[0] in b && b[0] in a;
    if a != [] {
      var a', b' := a[..|a| - 1], b[..|b| - 1];
      SameLast(a, b);
      forall z ensures z in a' <==> z in b' {
        LastApart(a, z);
        LastApart(b, z);
      }
      AscendingIsUnique(a', b');
      assert a == a' + [a[|a| - 1]] && b == b' + [b[|b| - 1]];
    }
  }

  lemma {:induction false} LastApart(a: seq<int>, z: int)
    requires Ascending(a) && a != []
    ensures z in a[..|a| - 1] <==> z in a && z != a[|a| - 1]
  {
  }

  lemma {:induction false} SameLast(a: seq<int>, b: seq<int>)
    requires Ascending(a) && Ascending(b) && (forall x :: x in a <==> x in b) && a != [] && b != []
    ensures a[|a| - 1] == b[|b| - 1]
  {
    var x, y := a[|a| - 1], b[|b| - 1];
    assert x in a && y in b;
    assert x in b && y in a;
  }

  /** Two lists of triples read the same when they give every pair the same weight. */
  predicate SameReading(n: nat, ts: seq<Triple>, us: seq<Triple>, symmetrize: bool) {
    forall u: nat, v: nat :: u < n && v < n ==> Weight(ts, n, symmetrize, u, v) == Weight(us, n, symmetrize, u, v)
  }

  lemma {:induction false} WeightWithout(ts: seq<Triple>, i: nat, n: nat, symmetrize: bool, u: nat, v: nat)
    requires i < |ts|
    ensures Weight(ts, n, symmetrize, u, v) ==
      Weight(ts[..i] + ts[i + 1..], n, symmetrize, u, v) + Added(ts[i], n, symmetrize, u, v)
  {
    var last := |ts| - 1;
    if i == last {
      assert ts[..i] + ts[i + 1..] == ts[..last];
    } else {
      WeightWithout(ts[..last], i, n, symmetrize, u, v);
      assert ts[..i] + ts[i + 1..] == (ts[..last][..i] + ts[..last][i + 1..]) + [ts[last]];
      WeightPush(ts[..last][..i] + ts[..last][i + 1..], ts[last], n, symmetrize, u, v);
    }
  }

  /** The order of the triples does not matter. */
  lemma {:induction false} PermutedReading(
      ts: seq<Triple>, us: seq<Triple>, n: nat, symmetrize: bool, u: nat, v: nat)
    requires multiset(ts) == multiset(us)
    ensures Weight(ts, n, symmetrize, u, v) == Weight(us, n, symmetrize, u, v)
  {
    if ts == [] {
      assert multiset(us) == multiset{};
      assert us == [];
    } else {
      var i := Partner(ts, us);
      PermutedReading(ts[..|ts| - 1], us[..i] + us[i + 1..], n, symmetrize, u, v);
      WeightWithout(us, i, n, symmetrize, u, v);
    }
  }

  lemma {:induction false} Partner(ts: seq<Triple>, us: seq<Triple>) returns (i: nat)
    requires ts != [] && multiset(ts) == multiset(us)
    ensures i < |us| && us[i] == ts[|ts| - 1] && multiset(ts[..|ts| - 1]) == multiset(us[..i] + us[i + 1..])
  {
    var before, t := ts[..|ts| - 1], ts[|ts| - 1];
    assert ts == before + [t];
    assert t in multiset(us);
    i :| 0 <= i < |us| && us[i] == t;
    var rest := us[..i] + us[i + 1..];
    assert us == us[..i] + [t] + us[i + 1..];
    assert multiset(us) == multiset(rest) + multiset{t};
    assert multiset(ts) == multiset(before) + multiset{t};
    assert multiset(before) == multiset(ts) - multiset{t} == multiset(rest);
  }

  lemma {:induction false} RowsAgree(
      n: nat, ts: seq<Triple>, us: seq<Triple>, symmetrize: bool, u: nat, ks: seq<int>, ws: seq<real>, d: real,
      ks': seq<int>, ws': seq<real>, d': real)
    requires u < n && SameReading(n, ts, us, symmetrize)
    requires RowOk(ts, n, symmetrize, u, ks, ws, d) && RowOk(us, n, symmetrize, u, ks', ws', d')
    ensures ks == ks' && ws == ws' && d == d'
  {
    if Lonely(ts, n, symmetrize, u) {
      LonelyAgrees(n, ts, us, symmetrize, u);
    } else {
      if Lonely(us, n, symmetrize, u) { LonelyAgrees(n, us, ts, symmetrize, u); }
      forall x ensures x in ks <==> x in ks' {
        if x in ks {
          var i :| 0 <= i < |ks| && ks[i] == x;
          assert Weight(us, n, symmetrize, u, x) > 0.0;
        }
        if x in ks' {
          var i :| 0 <= i < |ks'| && ks'[i] == x;
          assert Weight(ts, n, symmetrize, u, x) > 0.0;
        }
      }
      AscendingIsUnique(ks, ks');
    }
  }

  lemma {:induction false} LonelyAgrees(n: nat, ts: seq<Triple>, us: seq<Triple>, symmetrize: bool, u: nat)
    requires u < n && SameReading(n, ts, us, symmetrize) && Lonely(ts, n, symmetrize, u)
    ensures Lonely(us, n, symmetrize, u)
  {
    if !Lonely(us, n, symmetrize, u) {
      var v := NeighborOf(us, n, symmetrize, u);
      WeightIsPositive(ts, n, symmetrize, u, v);
    }
  }

  lemma {:induction false} PointersAgree(g: CodeGraph, h: CodeGraph, hi: nat)
    requires g.Shape() && h.Shape() && g.nodeIds == h.nodeIds && hi <= g.N()
    requires forall u :: 0 <= u < g.N() ==> g.Neighbors(u) == h.Neighbors(u)
    ensures g.indptr[hi] == h.indptr[hi]
    ensures g.indices[..g.indptr[hi]] == h.indices[..h.indptr[hi]]
    ensures g.weights[..g.indptr[hi]] == h.weights[..h.indptr[hi]]
  {
    if hi > 0 {
      PointersAgree(g, h, hi - 1);
      var u := hi - 1;
      var a, b, a', b' := g.indptr[u], g.indptr[hi], h.indptr[u], h.indptr[hi];
      assert g.Neighbors(u) == h.Neighbors(u);
      assert |g.Neighbors(u).0| == b - a && |h.Neighbors(u).0| == b' - a';
      assert g.indices[..b] == g.indices[..a] + g.indices[a..b] && h.indices[..b'] == h.indices[..a'] + h.indices[a'..b'];
      assert g.weights[..b] == g.weights[..a] + g.weights[a..b] && h.weights[..b'] == h.weights[..a'] + h.weights[a'..b'];
    }
  }

  /** The reading determines the compressed graph: the order of the triples, and how the weight of a pair is split among
      them, leave no trace. */
  lemma {:induction false} ReadingDeterminesGraph(
      g: CodeGraph, h: CodeGraph, ids: seq<string>, ts: seq<Triple>, us: seq<Triple>, symmetrize: bool)
    requires Represents(g, ids, ts, symmetrize) && Represents(h, ids, us, symmetrize)
    requires SameReading(|ids|, ts, us, symmetrize)
    ensures g == h
  {
    forall u | 0 <= u < |ids| ensures g.Neighbors(u) == h.Neighbors(u) && g.degree[u] == h.degree[u] {
      RowsAgree(|ids|, ts, us, symmetrize, u, g.Neighbors(u).0, g.Neighbors(u).1, g.degree[u],
                h.Neighbors(u).0, h.Neighbors(u).1, h.degree[u]);
    }
    forall hi | 0 <= hi <= |ids| ensures g.indptr[hi] == h.indptr[hi] {
      PointersAgree(g, h, hi);
    }
    PointersAgree(g, h, |ids|);
    assert g.indices[..g.indptr[|ids|]] == g.indices && h.indices[..h.indptr[|ids|]] == h.indices;
    assert g.weights[..g.indptr[|ids|]] == g.weights && h.weights[..h.indptr[|ids|]] == h.weights;
    IndexIsUnique(ids, g.index, h.index);
  }

  lemma {:induction false} OrderLeavesNoTrace(
      g: CodeGraph, h: CodeGraph, ids: seq<string>, ts: seq<Triple>, us: seq<Triple>, symmetrize: bool)
    requires Represents(g, ids, ts, symmetrize) && Represents(h, ids, us, symmetrize) && multiset(ts) == multiset(us)
    ensures g == h
  {
    hide Represents;
    forall u: nat, v: nat | u < |ids| && v < |ids|
      ensures Weight(ts, |ids|, symmetrize, u, v) == Weight(us, |ids|, symmetrize, u, v)
    {
      PermutedReading(ts, us, |ids|, symmetrize, u, v);
    }
    ReadingDeterminesGraph(g, h, ids, ts, us, symmetrize);
  }

  lemma {:induction false} IndexIsUnique(ids: seq<string>, a: map<string, nat>, b: map<string, nat>)
    requires IndexOk(ids, a) && IndexOk(ids, b)
    ensures a == b
  {
    forall id ensures id in a <==> id in b {
      if id in a { assert ids[a[id]] in b; }
      if id in b { assert ids[b[id]] in a; }
    }
    forall id | id in a ensures a[id] == b[id] {
      assert ids[a[id]] == id == ids[b[id]];
    }
  }
}
