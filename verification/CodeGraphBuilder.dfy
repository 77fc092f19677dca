/** Building the compressed graph from triples (CodeGraph::from_weighted_triples in crates/cognis-core/src/graph.rs). */
module CodeGraphBuilder {
  import opened CodeGraphs

  /** The keys of a sorted map over node numbers below hi, in the order it is walked. */
  function Keys(row: map<nat, real>, hi: nat): seq<nat> {
    if hi == 0 then [] else Keys(row, hi - 1) + if hi - 1 in row then [hi - 1] else []
  }

  lemma {:induction false} KeysMeans(row: map<nat, real>, hi: nat)
    ensures forall i :: 0 <= i < |Keys(row, hi)| ==> Keys(row, hi)[i] in row && Keys(row, hi)[i] < hi
    ensures forall i, j :: 0 <= i < j < |Keys(row, hi)| ==> Keys(row, hi)[i] < Keys(row, hi)[j]
    ensures forall v: nat :: v < hi && v in row ==> v in Keys(row, hi)
  {
    if hi > 0 {
      KeysMeans(row, hi - 1);
      assert hi - 1 in row ==> Keys(row, hi)[|Keys(row, hi)| - 1] == hi - 1;
      forall v: nat | v < hi && v in row ensures v in Keys(row, hi) {
        if v < hi - 1 { assert v in Keys(row, hi - 1); }
      }
    }
  }

  function Bump(row: map<nat, real>, v: nat, w: real): map<nat, real> {
    row[v := (if v in row then row[v] else 0.0) + w]
  }

  /** A row of the accumulator holds the weights out of node u. */
  ghost predicate Accumulated(row: map<nat, real>, ts: seq<Triple>, n: nat, symmetrize: bool, u: nat) {
    forall v: nat ::
      && (v in row <==> Weight(ts, n, symmetrize, u, v) > 0.0)
      && (v in row ==> v < n && row[v] == Weight(ts, n, symmetrize, u, v))
  }

  lemma {:induction false} AccumulatedStep(
      row: map<nat, real>, row': map<nat, real>, ts: seq<Triple>, t: Triple, n: nat, symmetrize: bool, u: nat)
    requires Accumulated(row, ts, n, symmetrize, u)
    requires row' == if Leaves(t, n, symmetrize, u) then Bump(row, if t.u == u then t.v else t.u, t.w) else row
    ensures Accumulated(row', ts + [t], n, symmetrize, u)
  {
    forall v: nat ensures
      && (v in row' <==> Weight(ts + [t], n, symmetrize, u, v) > 0.0)
      && (v in row' ==> v < n && row'[v] == Weight(ts + [t], n, symmetrize, u, v))
    {
      WeightPush(ts, t, n, symmetrize, u, v);
      WeightIsPositive(ts, n, symmetrize, u, v);
    }
  }

  lemma {:induction false} EmptyRow(row: map<nat, real>, ts: seq<Triple>, n: nat, symmetrize: bool, u: nat)
    requires Accumulated(row, ts, n, symmetrize, u)
    ensures row == map[] <==> Lonely(ts, n, symmetrize, u)
  {
    if !Lonely(ts, n, symmetrize, u) {
      var v := NeighborOf(ts, n, symmetrize, u);
      assert v in row;
    } else if row != map[] {
      var v :| v in row;
      WeightIsPositive(ts, n, symmetrize, u, v);
    }
  }

  /** The number of entries of row u among the first columns, and of all entries of the first rows. */
  function RowSize(ts: seq<Triple>, n: nat, symmetrize: bool, u: nat, hi: nat): nat {
    if hi == 0 then 0
    else RowSize(ts, n, symmetrize, u, hi - 1) + if Weight(ts, n, symmetrize, u, hi - 1) > 0.0 then 1 else 0
  }

  function Size(ts: seq<Triple>, n: nat, symmetrize: bool, hi: nat): nat {
    if hi == 0 then 0
    else
      Size(ts, n, symmetrize, hi - 1)
      + if Lonely(ts, n, symmetrize, hi - 1) then 1 else RowSize(ts, n, symmetrize, hi - 1, n)
  }

  lemma {:induction false} KeysCount(row: map<nat, real>, ts: seq<Triple>, n: nat, symmetrize: bool, u: nat, hi: nat)
    requires Accumulated(row, ts, n, symmetrize, u)
    ensures |Keys(row, hi)| == RowSize(ts, n, symmetrize, u, hi)
  {
    if hi > 0 {
      KeysCount(row, ts, n, symmetrize, u, hi - 1);
    }
  }

  lemma {:induction false} SizeGrows(ts: seq<Triple>, n: nat, symmetrize: bool, lo: nat, hi: nat)
    requires lo <= hi <= n
    ensures Size(ts, n, symmetrize, lo) <= Size(ts, n, symmetrize, hi)
    ensures lo <= Size(ts, n, symmetrize, lo)
    decreases hi
  {
    if lo < hi {
      SizeGrows(ts, n, symmetrize, lo, hi - 1);
    } else if lo > 0 {
      SizeGrows(ts, n, symmetrize, lo - 1, hi - 1);
      RowNotEmpty(ts, n, symmetrize, lo - 1);
    }
  }

  lemma {:induction false} RowNotEmpty(ts: seq<Triple>, n: nat, symmetrize: bool, u: nat)
    ensures Lonely(ts, n, symmetrize, u) || RowSize(ts, n, symmetrize, u, n) > 0
  {
    if !Lonely(ts, n, symmetrize, u) {
      var v := NeighborOf(ts, n, symmetrize, u);
      RowSizeAt(ts, n, symmetrize, u, v, n);
    }
  }

  lemma {:induction false} RowSizeAt(ts: seq<Triple>, n: nat, symmetrize: bool, u: nat, v: nat, hi: nat)
    requires v < hi && Weight(ts, n, symmetrize, u, v) > 0.0
    ensures RowSize(ts, n, symmetrize, u, hi) > 0
  {
    if v < hi - 1 {
      RowSizeAt(ts, n, symmetrize, u, v, hi - 1);
    }
  }

  function Entries(row: map<nat, real>, ks: seq<nat>): seq<real>
    requires forall i :: 0 <= i < |ks| ==> ks[i] in row
  {
    seq(|ks|, i requires 0 <= i < |ks| => row[ks[i]])
  }

  method Accumulate(n: nat, triples: seq<Triple>, symmetrize: bool) returns (acc: seq<map<nat, real>>)
    ensures |acc| == n && forall u :: 0 <= u < n ==> Accumulated(acc[u], triples, n, symmetrize, u)
  {
    acc := seq(n, _ => map[]);
    for i := 0 to |triples|
      invariant |acc| == n && forall u :: 0 <= u < n ==> Accumulated(acc[u], triples[..i], n, symmetrize, u)
    {
      ghost var before := acc;
      var t := triples[i];
      assert triples[..i + 1] == triples[..i] + [t];
      if t.u >= n || t.v >= n || t.u == t.v || t.w <= 0.0 {
        forall u | 0 <= u < n ensures Accumulated(acc[u], triples[..i + 1], n, symmetrize, u) {
          AccumulatedStep(acc[u], acc[u], triples[..i], t, n, symmetrize, u);
        }
        continue;
      }
      acc := acc[t.u := Bump(acc[t.u], t.v, t.w)];
      if symmetrize {
        acc := acc[t.v := Bump(acc[t.v], t.u, t.w)];
      }
      forall u | 0 <= u < n ensures Accumulated(acc[u], triples[..i + 1], n, symmetrize, u) {
        AccumulatedStep(before[u], acc[u], triples[..i], t, n, symmetrize, u);
      }
    }
    assert triples[..|triples|] == triples;
  }

  function Casts(ks: seq<nat>): seq<int> { seq(|ks|, i requires 0 <= i < |ks| => AsI32(ks[i])) }

  lemma {:induction false} CastsFit(ks: seq<nat>)
    requires forall i :: 0 <= i < |ks| ==> ks[i] < I32_LIMIT
    ensures Casts(ks) == ks
  {
  }

  method PushEntries(row: map<nat, real>, ks: seq<nat>, indices: seq<int>, weights: seq<real>)
    returns (indices': seq<int>, weights': seq<real>, d: real)
    requires forall i :: 0 <= i < |ks| ==> ks[i] in row
    ensures indices' == indices + Casts(ks) && weights' == weights + Entries(row, ks) && d == Sum(Entries(row, ks))
  {
    hide AsI32;
    ghost var ws, cs := Entries(row, ks), Casts(ks);
    indices', weights', d := indices, weights, 0.0;
    for i := 0 to |ks|
      invariant indices' == indices + cs[..i] && weights' == weights + ws[..i] && d == Sum(ws[..i])
    {
      assert ws[..i + 1][..i] == ws[..i];
      indices', weights', d := indices' + [AsI32(ks[i])], weights' + [row[ks[i]]], d + row[ks[i]];
    }
    assert ws[..|ks|] == ws && cs[..|ks|] == cs;
  }

  /** Appends one row, and gives its degree. */
  method PushRow(row: map<nat, real>, ghost ts: seq<Triple>, n: nat, ghost symmetrize: bool, u: nat,
                 indices: seq<int>, weights: seq<real>) returns (indices': seq<int>, weights': seq<real>, d: real)
    requires u < n && |indices| == |weights| && Accumulated(row, ts, n, symmetrize, u)
    ensures |indices| < |indices'| == |weights'|
    ensures |indices'| == |indices| + if Lonely(ts, n, symmetrize, u) then 1 else RowSize(ts, n, symmetrize, u, n)
    ensures indices <= indices' && weights <= weights'
    ensures n <= I32_LIMIT ==> RowOk(ts, n, symmetrize, u, indices'[|indices|..], weights'[|weights|..], d)
  {
    hide AsI32, Weight, Lonely, RowOk, Casts;
    EmptyRow(row, ts, n, symmetrize, u);
    if row == map[] {
      if u < I32_LIMIT { FitsI32(u); }
      LonelyRow(ts, n, symmetrize, u);
      indices', weights', d := indices + [AsI32(u)], weights + [1.0], 1.0;
      assert indices'[|indices|..] == [AsI32(u)] && weights'[|weights|..] == [1.0];
      return;
    }
    KeysMeans(row, n);
    KeysCount(row, ts, n, symmetrize, u, n);
    RowNotEmpty(ts, n, symmetrize, u);
    var ks := Keys(row, n);
    indices', weights', d := PushEntries(row, ks, indices, weights);
    RowFromKeys(row, ts, n, symmetrize, u, ks);
    assert indices'[|indices|..] == Casts(ks) && weights'[|weights|..] == Entries(row, ks);
    if n <= I32_LIMIT { CastsFit(ks); }
    assert |Casts(ks)| == |ks| by { CastsLength(ks); }
  }

  lemma {:induction false} CastsLength(ks: seq<nat>)
    ensures |Casts(ks)| == |ks|
  {
  }

  lemma {:induction false} LonelyRow(ts: seq<Triple>, n: nat, symmetrize: bool, u: nat)
    requires u < n && Lonely(ts, n, symmetrize, u)
    ensures RowOk(ts, n, symmetrize, u, [u], [1.0], 1.0)
  {
    SumOfOne();
  }

  lemma {:induction false} RowFromKeys(
      row: map<nat, real>, ts: seq<Triple>, n: nat, symmetrize: bool, u: nat, ks: seq<nat>)
    requires Accumulated(row, ts, n, symmetrize, u) && ks == Keys(row, n) && !Lonely(ts, n, symmetrize, u)
    requires forall i :: 0 <= i < |ks| ==> ks[i] in row
    ensures RowOk(ts, n, symmetrize, u, ks, Entries(row, ks), Sum(Entries(row, ks)))
  {
    hide Weight, Sum, Keys, Lonely;
    KeysMeans(row, n);
    forall v: nat | v < n && Weight(ts, n, symmetrize, u, v) > 0.0 ensures v in ks {
      assert v in row;
    }
  }

  /** The identifiers' places; a later one wins. */
  function Places(ids: seq<string>): map<string, nat> {
    if ids == [] then map[] else Places(ids[..|ids| - 1])[ids[|ids| - 1] := |ids| - 1]
  }

  lemma {:induction false} PlacesAreLast(ids: seq<string>)
    ensures IndexOk(ids, Places(ids))
  {
    if ids != [] {
      PlacesAreLast(ids[..|ids| - 1]);
    }
  }

  method IndexOf(nodeIds: seq<string>) returns (index: map<string, nat>)
    ensures index == Places(nodeIds)
  {
    index := map[];
    for i := 0 to |nodeIds|
      invariant index == Places(nodeIds[..i])
    {
      index := index[nodeIds[i] := i];
      assert nodeIds[..i + 1][..i] == nodeIds[..i];
    }
    assert nodeIds[..|nodeIds|] == nodeIds;
  }

  /** The first rows are in place. */
  ghost predicate Placed(ts: seq<Triple>, n: nat, symmetrize: bool, indptr: seq<int>, indices: seq<int>, weights: seq<real>,
                         degree: seq<real>)
  {
    && |indptr| == |degree| + 1 && |degree| <= n && |indices| == |weights| && indptr[0] == 0
      && indptr[|degree|] == |indices|
    && (forall i, j :: 0 <= i < j < |indptr| ==> indptr[i] < indptr[j])
    && forall u :: 0 <= u < |degree| ==> PlacedRow(ts, n, symmetrize, indptr, indices, weights, degree[u], u)
  }

  ghost predicate PlacedRow(ts: seq<Triple>, n: nat, symmetrize: bool, indptr: seq<int>, indices: seq<int>,
                            weights: seq<real>, d: real, u: nat)
  {
    && u + 1 < |indptr| && 0 <= indptr[u] <= indptr[u + 1] <= |indices| && indptr[u + 1] <= |weights|
    && RowOk(ts, n, symmetrize, u, indices[indptr[u]..indptr[u + 1]], weights[indptr[u]..indptr[u + 1]], d)
  }

  lemma {:induction false} PlacedStep(
      ts: seq<Triple>, n: nat, symmetrize: bool, indptr: seq<int>, indices: seq<int>, weights: seq<real>,
                   degree: seq<real>, indices': seq<int>, weights': seq<real>, d: real)
    requires Placed(ts, n, symmetrize, indptr, indices, weights, degree) && |degree| < n
    requires |indices| < |indices'| == |weights'| && indices <= indices' && weights <= weights'
    requires RowOk(ts, n, symmetrize, |degree|, indices'[|indices|..], weights'[|weights|..], d)
    ensures Placed(ts, n, symmetrize, indptr + [|indices'|], indices', weights', degree + [d])
  {
    hide RowOk;
    var indptr' := indptr + [|indices'|];
    forall u | 0 <= u < |degree| + 1
      ensures PlacedRow(ts, n, symmetrize, indptr', indices', weights', (degree + [d])[u], u)
    {
      if u < |degree| {
        assert PlacedRow(ts, n, symmetrize, indptr, indices, weights, degree[u], u);
        assert indices'[indptr[u]..indptr[u + 1]] == indices[indptr[u]..indptr[u + 1]];
        assert weights'[indptr[u]..indptr[u + 1]] == weights[indptr[u]..indptr[u + 1]];
      } else {
        assert indices'[|indices|..|indices'|] == indices'[|indices|..];
        assert weights'[|indices|..|indices'|] == weights'[|weights|..];
      }
    }
  }

  /** The compressed graph of a list of triples: it stands for them exactly when its entries can be numbered in 32 bits. */
  method FromWeightedTriples(nodeIds: seq<string>, triples: seq<Triple>, symmetrize: bool) returns (g: CodeGraph)
    ensures Represents(g, nodeIds, triples, symmetrize) <==> Size(triples, |nodeIds|, symmetrize, |nodeIds|) < 0x8000_0000
  {
    hide RowOk, AsI32, Placed, Accumulated, Represents;
    var n := |nodeIds|;
    SizeGrows(triples, n, symmetrize, n, n);
    var index := IndexOf(nodeIds);
    PlacesAreLast(nodeIds);
    var acc := Accumulate(n, triples, symmetrize);
    var indptr, indices, weights, degree := [0], [], [], [];
    NothingPlaced(triples, n, symmetrize);
    ghost var fits := Size(triples, n, symmetrize, n) < I32_LIMIT;
    for u := 0 to n
      invariant |degree| == u && |weights| == |indices| == Size(triples, n, symmetrize, u)
      invariant |indptr| == u + 1 && (u > 0 ==> indptr[u] == AsI32(|indices|))
      invariant fits ==> Placed(triples, n, symmetrize, indptr, indices, weights, degree)
    {
      var indices', weights', d := PushRow(acc[u], triples, n, symmetrize, u, indices, weights);
      if fits {
        SizeGrows(triples, n, symmetrize, u + 1, n);
        FitsI32(|indices'|);
        PlacedStep(triples, n, symmetrize, indptr, indices, weights, degree, indices', weights', d);
      }
      indices, weights, degree := indices', weights', degree + [d];
      indptr := indptr + [AsI32(|indices|)];
    }
    g := CodeGraph(indptr, indices, weights, degree, nodeIds, index);
    if fits {
      PlacedIsRepresented(g, triples, symmetrize);
    } else {
      WrappedIsNot(g, nodeIds, triples, symmetrize);
    }
  }

  /** With the number of entries wrapped round, the last row pointer does not point to the end. */
  lemma {:induction false} WrappedIsNot(g: CodeGraph, ids: seq<string>, ts: seq<Triple>, symmetrize: bool)
    requires g.nodeIds == ids && |g.indices| >= I32_LIMIT && |g.indptr| == |ids| + 1
    requires |ids| > 0 ==> g.indptr[|ids|] == AsI32(|g.indices|)
    ensures !Represents(g, ids, ts, symmetrize)
  {
    assert AsI32(|g.indices|) < I32_LIMIT;
  }

  lemma {:induction false} PlacedIsRepresented(g: CodeGraph, ts: seq<Triple>, symmetrize: bool)
    requires Placed(ts, g.N(), symmetrize, g.indptr, g.indices, g.weights, g.degree) && |g.degree| == g.N()
    requires IndexOk(g.nodeIds, g.index)
    ensures Represents(g, g.nodeIds, ts, symmetrize)
  {
    hide RowOk;
    forall u | 0 <= u < g.N()
      ensures RowOk(ts, g.N(), symmetrize, u, g.Neighbors(u).0, g.Neighbors(u).1, g.degree[u])
    {
      assert PlacedRow(ts, g.N(), symmetrize, g.indptr, g.indices, g.weights, g.degree[u], u);
    }
  }

  lemma {:induction false} NothingPlaced(ts: seq<Triple>, n: nat, symmetrize: bool)
    ensures Placed(ts, n, symmetrize, [0], [], [], [])
  {
  }
}
