/**
 * The edges of the wiring graph: `add_edge` numbers them `e0`, `e1`, ... in
 * emission order and gives each a tooltip and a bundle base; afterwards the
 * edges sharing a (source, target) pair are counted and ranked so the viewer
 * can fan them out.
 */
module Bundles {
  import opened Wrappers
  import opened Text
  import opened Dicts
  import opened Topology

  /** `bundle_n` (size of the edge's group) and `bundle_idx` (its rank in the group). */
  datatype Bundle = Bundle(n: nat, idx: nat)

  /** One edge record; `bundle` is absent until the bundling pass fills it. */
  datatype Edge = Edge(
    id: string,
    source: string,
    target: string,
    edgeLabel: string,
    meta: string,
    base: string,
    bundle: Option<Bundle>)

  /** The edge id for the `n`-th edge. */
  function EdgeId(n: nat): string {
    "e" + Decimal(n)
  }

  /** Different positions get different decimal numerals. */
  lemma {:induction false} DecimalInjective(n: nat, m: nat)
    requires Decimal(n) == Decimal(m)
    ensures n == m
    decreases n
  {
    var dn, dm := Decimal(n), Decimal(m);
    if n < 10 && m < 10 {
      assert Digit(n) == dn[0] == dm[0] == Digit(m);
    } else if n >= 10 && m >= 10 {
      assert dn[..|dn| - 1] == Decimal(n / 10);
      assert dm[..|dm| - 1] == Decimal(m / 10);
      DecimalInjective(n / 10, m / 10);
      assert Digit(n % 10) == dn[|dn| - 1] == dm[|dm| - 1] == Digit(m % 10);
    }
  }

  /** Edge ids are unique. */
  lemma EdgeIdInjective(n: nat, m: nat)
    requires n != m
    ensures EdgeId(n) != EdgeId(m)
  {
    if EdgeId(n) == EdgeId(m) {
      assert EdgeId(n)[1..] == Decimal(n);
      assert EdgeId(m)[1..] == Decimal(m);
      DecimalInjective(n, m);
    }
  }

  /** The characters `.strip(" →")` removes. */
  const MetaStrip: set<char> := {' ', '→'}

  /** `f"{src_pin or ''} → {dst_pin or ''}".strip(" →")`. */
  function Meta(srcPin: string, dstPin: string): string {
    StripChars(srcPin + " → " + dstPin, MetaStrip)
  }

  /** Neither end of `s` is a space or an arrow. */
  predicate Clean(s: string) {
    |s| > 0 && s[0] !in MetaStrip && s[|s| - 1] !in MetaStrip
  }

  /** Stripping a clean string followed by spaces and arrows leaves the string. */
  lemma {:induction false} StripTail(x: string, w: string)
    requires Clean(x) && forall i :: 0 <= i < |w| ==> w[i] in MetaStrip
    ensures StripChars(x + w, MetaStrip) == x
    decreases |w|
  {
    if w != [] {
      assert (x + w)[..|x + w| - 1] == x + w[..|w| - 1];
      StripTail(x, w[..|w| - 1]);
    } else {
      assert x + w == x;
    }
  }

  /** Stripping spaces and arrows followed by a clean string leaves the string. */
  lemma {:induction false} StripHead(w: string, x: string)
    requires Clean(x) && forall i :: 0 <= i < |w| ==> w[i] in MetaStrip
    ensures StripChars(w + x, MetaStrip) == x
    decreases |w|
  {
    if w != [] {
      assert (w + x)[1..] == w[1..] + x;
      StripHead(w[1..], x);
    } else {
      assert w + x == x;
    }
  }

  /** Both pins present: the tooltip reads `src → dst`. */
  lemma MetaBoth(srcPin: string, dstPin: string)
    requires Clean(srcPin) && Clean(dstPin)
    ensures Meta(srcPin, dstPin) == srcPin + " → " + dstPin
  {
  }

  /** Only the source pin: the tooltip is that pin alone. */
  lemma MetaSourceOnly(srcPin: string)
    requires Clean(srcPin)
    ensures Meta(srcPin, "") == srcPin
  {
    assert srcPin + " → " + "" == srcPin + " → ";
    StripTail(srcPin, " → ");
  }

  /** Only the destination pin: the tooltip is that pin alone. */
  lemma MetaTargetOnly(dstPin: string)
    requires Clean(dstPin)
    ensures Meta("", dstPin) == dstPin
  {
    assert "" + " → " + dstPin == " → " + dstPin;
    StripHead(" → ", dstPin);
  }

  /** `base or label`. */
  function EdgeBase(base: string, netLabel: string): (r: string)
    ensures r == "" ==> base == "" && netLabel == ""
    ensures base != "" ==> r == base
    ensures base == "" ==> r == netLabel
  {
    if base != "" then base else netLabel
  }

  /** `add_edge` for a wire, as the `n`-th edge of the graph. */
  function MakeEdge(n: nat, w: Wire, netLabel: string, base: string): Edge {
    Edge(EdgeId(n), w.source, w.target, netLabel, Meta(w.srcPin, w.dstPin), EdgeBase(base, netLabel), None)
  }

  /** The edges `add_edge` appends for `wires` after `edges`. */
  function AddEdges(edges: seq<Edge>, wires: seq<Wire>, netLabel: string, base: string): (r: seq<Edge>)
    ensures |r| == |edges| + |wires|
    ensures r[..|edges|] == edges
    ensures forall i :: 0 <= i < |wires| ==> r[|edges| + i] == MakeEdge(|edges| + i, wires[i], netLabel, base)
    decreases |wires|
  {
    if wires == [] then edges
    else
      var n := |wires| - 1;
      var r := AddEdges(edges, wires[..n], netLabel, base);
      assert forall i :: 0 <= i < n ==> wires[..n][i] == wires[i];
      r + [MakeEdge(|edges| + n, wires[n], netLabel, base)]
  }

  /** Appending keeps every edge's id equal to `e<position>`. */
  lemma AddEdgesIds(edges: seq<Edge>, wires: seq<Wire>, netLabel: string, base: string)
    requires forall i :: 0 <= i < |edges| ==> edges[i].id == EdgeId(i)
    ensures var r := AddEdges(edges, wires, netLabel, base);
      forall i :: 0 <= i < |r| ==> r[i].id == EdgeId(i)
  {
    var r := AddEdges(edges, wires, netLabel, base);
    forall i | 0 <= i < |r| ensures r[i].id == EdgeId(i) {
      if i < |edges| {
        assert r[i] == r[..|edges|][i];
      } else {
        assert r[|edges| + (i - |edges|)] == MakeEdge(i, wires[i - |edges|], netLabel, base);
      }
    }
  }

  lemma AddEdgesStep(edges: seq<Edge>, wires: seq<Wire>, netLabel: string, base: string, i: nat)
    requires i < |wires|
    ensures AddEdges(edges, wires[..i + 1], netLabel, base)
         == AddEdges(edges, wires[..i], netLabel, base) + [MakeEdge(|edges| + i, wires[i], netLabel, base)]
  {
    assert wires[..i + 1][..i] == wires[..i];
  }

  /** The loops that call `add_edge` for one net. */
  method EmitEdges(edges0: seq<Edge>, wires: seq<Wire>, netLabel: string, base: string) returns (edges: seq<Edge>)
    ensures edges == AddEdges(edges0, wires, netLabel, base)
  {
    edges := edges0;
    for i := 0 to |wires|
      invariant edges == AddEdges(edges0, wires[..i], netLabel, base)
    {
      var w := wires[i];
      var e := Edge("e" + Decimal(|edges|), w.source, w.target, netLabel,
        StripChars(w.srcPin + " → " + w.dstPin, {' ', '→'}), if base != "" then base else netLabel, None);
      assert e == MakeEdge(|edges0| + i, w, netLabel, base);
      AddEdgesStep(edges0, wires, netLabel, base, i);
      edges := edges + [e];
    }
    assert wires[..|wires|] == wires;
  }

  // ---------------------------------------------------------------------------
  // Bundle indices

  type EdgeKey = (string, string)

  function KeyOf(e: Edge): EdgeKey {
    (e.source, e.target)
  }

  function KeysOf(edges: seq<Edge>): (r: seq<EdgeKey>)
    ensures |r| == |edges| && forall i :: 0 <= i < |edges| ==> r[i] == KeyOf(edges[i])
  {
    seq(|edges|, i requires 0 <= i < |edges| => KeyOf(edges[i]))
  }

  /** `groups[k]`: the positions holding `k`, in increasing order. */
  function Indices(keys: seq<EdgeKey>, k: EdgeKey): seq<nat>
    decreases |keys|
  {
    if keys == [] then []
    else Indices(keys[..|keys| - 1], k) + (if keys[|keys| - 1] == k then [|keys| - 1] else [])
  }

  /** The rank of position `i` among the positions with the same key. */
  function Rank(keys: seq<EdgeKey>, i: nat): nat
    requires i < |keys|
  {
    |Indices(keys[..i], keys[i])|
  }

  /** What the bundling pass writes into edge `i`. */
  function BundleOf(keys: seq<EdgeKey>, i: nat): Bundle
    requires i < |keys|
  {
    Bundle(|Indices(keys, keys[i])|, Rank(keys, i))
  }

  /** `Indices` lists exactly the positions holding `k`, strictly increasing. */
  lemma IndicesSpec(keys: seq<EdgeKey>, k: EdgeKey)
    ensures forall p :: 0 <= p < |Indices(keys, k)| ==>
      Indices(keys, k)[p] < |keys| && keys[Indices(keys, k)[p]] == k
    ensures forall p, q :: 0 <= p < q < |Indices(keys, k)| ==> Indices(keys, k)[p] < Indices(keys, k)[q]
    ensures forall j :: 0 <= j < |keys| && keys[j] == k ==> j in Indices(keys, k)
  {
    IndicesSound(keys, k);
    IndicesSorted(keys, k);
    IndicesComplete(keys, k);
  }

  /** Every listed position is in range and holds `k`. */
  lemma {:induction false} IndicesSound(keys: seq<EdgeKey>, k: EdgeKey)
    ensures forall p :: 0 <= p < |Indices(keys, k)| ==>
      Indices(keys, k)[p] < |keys| && keys[Indices(keys, k)[p]] == k
    decreases |keys|
  {
    if keys != [] {
      var init := keys[..|keys| - 1];
      IndicesSound(init, k);
      forall p | 0 <= p < |Indices(init, k)| ensures keys[Indices(init, k)[p]] == k {
        assert init[Indices(init, k)[p]] == keys[Indices(init, k)[p]];
      }
    }
  }

  /** The listed positions increase strictly. */
  lemma {:induction false} IndicesSorted(keys: seq<EdgeKey>, k: EdgeKey)
    ensures forall p, q :: 0 <= p < q < |Indices(keys, k)| ==> Indices(keys, k)[p] < Indices(keys, k)[q]
    decreases |keys|
  {
    if keys != [] {
      var init := keys[..|keys| - 1];
      IndicesSorted(init, k);
      IndicesSound(init, k);
    }
  }

  /** Every position holding `k` is listed. */
  lemma {:induction false} IndicesComplete(keys: seq<EdgeKey>, k: EdgeKey)
    ensures forall j :: 0 <= j < |keys| && keys[j] == k ==> j in Indices(keys, k)
    decreases |keys|
  {
    if keys != [] {
      var init := keys[..|keys| - 1];
      IndicesComplete(init, k);
      forall j | 0 <= j < |keys| && keys[j] == k ensures j in Indices(keys, k) {
        if j < |init| { assert init[j] == keys[j]; }
      }
    }
  }

  /** Extending a prefix only extends its index list. */
  lemma {:induction false} IndicesPrefix(keys: seq<EdgeKey>, a: nat, b: nat, k: EdgeKey)
    requires a <= b <= |keys|
    ensures |Indices(keys[..a], k)| <= |Indices(keys[..b], k)|
    ensures Indices(keys[..b], k)[..|Indices(keys[..a], k)|] == Indices(keys[..a], k)
    decreases b - a
  {
    if a < b {
      IndicesPrefix(keys, a, b - 1, k);
      assert keys[..b][..b - 1] == keys[..b - 1];
    }
  }

  /** The index list of the prefix that ends just after position `i`. */
  lemma IndicesThrough(keys: seq<EdgeKey>, i: nat)
    requires i < |keys|
    ensures Indices(keys[..i + 1], keys[i]) == Indices(keys[..i], keys[i]) + [i]
  {
    assert keys[..i + 1][..i] == keys[..i];
  }

  /** The `p`-th position holding `k` has rank `p`. */
  lemma {:induction false} RankOfIndex(keys: seq<EdgeKey>, k: EdgeKey, p: nat)
    requires p < |Indices(keys, k)|
    ensures Indices(keys, k)[p] < |keys| && keys[Indices(keys, k)[p]] == k
    ensures Rank(keys, Indices(keys, k)[p]) == p
    decreases |keys|
  {
    IndicesSpec(keys, k);
    var init := keys[..|keys| - 1];
    var j := Indices(keys, k)[p];
    if p < |Indices(init, k)| {
      RankOfIndex(init, k, p);
      assert init[..j] == keys[..j];
    } else {
      assert j == |keys| - 1;
      assert keys[..j] == init;
    }
  }

  /** Within a group, a later edge has a higher rank; every rank is below the group size. */
  lemma RankOrder(keys: seq<EdgeKey>, i: nat, j: nat)
    requires i < j < |keys| && keys[i] == keys[j]
    ensures Rank(keys, i) < Rank(keys, j)
  {
    IndicesThrough(keys, i);
    IndicesPrefix(keys, i + 1, j, keys[i]);
  }

  lemma RankBelowSize(keys: seq<EdgeKey>, i: nat)
    requires i < |keys|
    ensures Rank(keys, i) < |Indices(keys, keys[i])|
  {
    IndicesThrough(keys, i);
    IndicesPrefix(keys, i + 1, |keys|, keys[i]);
    assert keys[..|keys|] == keys;
  }

  /** Bundle indices run over 0..n-1, distinct within a group, and `n` counts the group. */
  lemma BundleSpec(keys: seq<EdgeKey>)
    ensures forall i :: 0 <= i < |keys| ==> BundleOf(keys, i).idx < BundleOf(keys, i).n
    ensures forall i, j :: 0 <= i < j < |keys| && keys[i] == keys[j] ==>
      BundleOf(keys, i).idx < BundleOf(keys, j).idx && BundleOf(keys, i).n == BundleOf(keys, j).n
    ensures forall i :: 0 <= i < |keys| ==>
      BundleOf(keys, i).n == |set j | 0 <= j < |keys| && keys[j] == keys[i]|
  {
    forall i | 0 <= i < |keys| ensures BundleOf(keys, i).idx < BundleOf(keys, i).n {
      RankBelowSize(keys, i);
    }
    forall i, j | 0 <= i < j < |keys| && keys[i] == keys[j]
      ensures BundleOf(keys, i).idx < BundleOf(keys, j).idx
    {
      RankOrder(keys, i, j);
    }
    forall i | 0 <= i < |keys| ensures BundleOf(keys, i).n == |set j | 0 <= j < |keys| && keys[j] == keys[i]| {
      GroupSize(keys, keys[i]);
    }
  }

  /** The index list has one entry per position holding `k`. */
  lemma GroupSize(keys: seq<EdgeKey>, k: EdgeKey)
    ensures |Indices(keys, k)| == |set j | 0 <= j < |keys| && keys[j] == k|
  {
    var ix := Indices(keys, k);
    IndicesSpec(keys, k);
    var s := set j | 0 <= j < |keys| && keys[j] == k;
    assert s == set p | 0 <= p < |ix| :: ix[p];
    DistinctCard(ix);
  }

  /** A strictly increasing list has as many elements as its set of values. */
  lemma {:induction false} DistinctCard(ix: seq<nat>)
    requires forall p, q :: 0 <= p < q < |ix| ==> ix[p] < ix[q]
    ensures |set p | 0 <= p < |ix| :: ix[p]| == |ix|
    decreases |ix|
  {
    if ix != [] {
      var init := ix[..|ix| - 1];
      DistinctCard(init);
      var s := set p | 0 <= p < |ix| :: ix[p];
      var si := set p | 0 <= p < |init| :: init[p];
      assert s == si + {ix[|ix| - 1]};
      assert ix[|ix| - 1] !in si;
    }
  }

  /** Two positions of one group with the same rank are the same position. */
  lemma RankInjective(keys: seq<EdgeKey>, i: nat, j: nat)
    requires i < |keys| && j < |keys| && keys[i] == keys[j] && Rank(keys, i) == Rank(keys, j)
    ensures i == j
  {
    if i < j { RankOrder(keys, i, j); }
    if j < i { RankOrder(keys, j, i); }
  }

  /** A key that does not occur has no positions. */
  lemma IndicesAbsent(keys: seq<EdgeKey>, k: EdgeKey)
    requires k !in keys
    ensures Indices(keys, k) == []
  {
    IndicesSpec(keys, k);
  }

  /** The first loop of the bundling pass: `groups.setdefault(key, []).append(i)`. */
  method GroupEdges(edges: seq<Edge>) returns (groups: Dict<EdgeKey, seq<nat>>)
    ensures groups.Valid()
    ensures forall k :: k in groups.entries <==> k in KeysOf(edges)
    ensures forall k :: k in groups.entries ==> groups.entries[k] == Indices(KeysOf(edges), k)
  {
    ghost var keys := KeysOf(edges);
    groups := Empty();
    for i := 0 to |edges|
      invariant groups.Valid()
      invariant forall k :: k in groups.entries <==> k in keys[..i]
      invariant forall k :: k in groups.entries ==> groups.entries[k] == Indices(keys[..i], k)
    {
      var key := (edges[i].source, edges[i].target);
      var idxs := if key in groups.entries then groups.entries[key] else [];
      assert keys[..i + 1][..i] == keys[..i];
      assert keys[..i + 1] == keys[..i] + [key];
      if key !in groups.entries {
        IndicesAbsent(keys[..i], key);
      }
      groups := Put(groups, key, idxs + [i]);
    }
    assert keys[..|edges|] == keys;
  }

  /** Edge `i` as the bundling pass leaves it. */
  function Stamped(e: Edge, keys: seq<EdgeKey>, i: nat): Edge
    requires i < |keys|
  {
    e.(bundle := Some(BundleOf(keys, i)))
  }

  /** The inner loop of the bundling pass over the positions `idxs` of one group `key`. */
  method StampGroup(edges1: seq<Edge>, ghost edges0: seq<Edge>, ghost done: seq<EdgeKey>,
                    key: EdgeKey, idxs: seq<nat>) returns (edges: seq<Edge>)
    requires |edges1| == |edges0| && key !in done
    requires idxs == Indices(KeysOf(edges0), key)
    requires forall i :: 0 <= i < |edges0| ==>
      edges1[i] == (if KeysOf(edges0)[i] in done then Stamped(edges0[i], KeysOf(edges0), i) else edges0[i])
    ensures |edges| == |edges0|
    ensures forall i :: 0 <= i < |edges0| ==>
      edges[i] == (if KeysOf(edges0)[i] in done + [key] then Stamped(edges0[i], KeysOf(edges0), i) else edges0[i])
  {
    ghost var keys := KeysOf(edges0);
    edges := edges1;
    var n := |idxs|;
    for k := 0 to |idxs|
      invariant |edges| == |edges0|
      invariant forall i :: 0 <= i < |edges0| ==>
        edges[i] == (if keys[i] in done || (keys[i] == key && Rank(keys, i) < k)
          then Stamped(edges0[i], keys, i) else edges0[i])
    {
      var ei := idxs[k];
      RankOfIndex(keys, key, k);
      forall i | 0 <= i < |edges0| && keys[i] == key && Rank(keys, i) == k ensures i == ei {
        RankInjective(keys, i, ei);
      }
      edges := edges[ei := edges[ei].(bundle := Some(Bundle(n, k)))];
    }
    forall i | 0 <= i < |edges0| && keys[i] == key ensures Rank(keys, i) < n {
      RankBelowSize(keys, i);
    }
  }

  /**
   * The bundling pass: every edge gets the size of its (source, target)
   * group and its rank in it. Only `bundle` changes.
   */
  method AssignBundles(edges0: seq<Edge>) returns (edges: seq<Edge>)
    ensures |edges| == |edges0|
    ensures forall i :: 0 <= i < |edges0| ==>
      edges[i] == edges0[i].(bundle := Some(BundleOf(KeysOf(edges0), i)))
  {
    ghost var keys := KeysOf(edges0);
    var groups := GroupEdges(edges0);
    edges := edges0;
    for g := 0 to |groups.keys|
      invariant |edges| == |edges0|
      invariant forall i :: 0 <= i < |edges0| ==>
        edges[i] == (if keys[i] in groups.keys[..g] then Stamped(edges0[i], keys, i) else edges0[i])
    {
      var key := groups.keys[g];
      assert key !in groups.keys[..g];
      edges := StampGroup(edges, edges0, groups.keys[..g], key, groups.entries[key]);
      assert groups.keys[..g + 1] == groups.keys[..g] + [key];
    }
    assert groups.keys[..|groups.keys|] == groups.keys;
    forall i | 0 <= i < |edges0| ensures keys[i] in groups.keys {
      assert keys[i] in groups.entries;
    }
  }
}
