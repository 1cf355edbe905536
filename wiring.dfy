/**
 * `build_wiring`: the node/edge graph of one design unit. Nodes are the
 * entity ports, the instances, the constants and expressions that need a
 * node of their own, and a hub per fanned-out assignment or port net; edges
 * are the wires of every net, numbered and bundled.
 */
module Wiring {
  import opened Wrappers
  import opened Text
  import opened Dicts
  import opened Design
  import opened Classify
  import opened Nets
  import opened Topology
  import opened Bundles

  datatype NodeKind = EntityIn | EntityOut | EntityBi | InstanceNode | ConstNode | ExprNode | NetHub

  datatype Node = Node(id: string, text: string, kind: NodeKind)

  /** What `build_wiring` returns. */
  datatype Graph = Graph(nodes: seq<Node>, edges: seq<Edge>)

  // ---------------------------------------------------------------------------
  // Node inventory

  /** `in` ports are inputs, `out`/`buffer` outputs, anything else bidirectional. */
  function PortKind(dir: string): (k: NodeKind)
    ensures k == EntityIn <==> dir == "in"
    ensures k == EntityOut <==> dir == "out" || dir == "buffer"
    ensures k == EntityIn || k == EntityOut || k == EntityBi
  {
    if dir == "in" then EntityIn else if dir == "out" || dir == "buffer" then EntityOut else EntityBi
  }

  function PortNode(p: Port, eportDirs: map<string, string>): Node {
    Node("port::" + p.name, p.name + " (" + p.direction + ")", PortKind(DirOf(eportDirs, p.name)))
  }

  /** `entity_ref or component_name or '?'`. */
  function InstTarget(inst: Instance): (t: string)
    ensures Truthy(inst.entityRef) ==> t == inst.entityRef.value
    ensures !Truthy(inst.entityRef) && Truthy(inst.componentName) ==> t == inst.componentName.value
    ensures !Truthy(inst.entityRef) && !Truthy(inst.componentName) ==> t == "?"
  {
    var t := OrElse(inst.entityRef, inst.componentName);
    if Truthy(t) then t.value else "?"
  }

  function InstNode(inst: Instance): Node {
    Node("inst::" + inst.instLabel, inst.instLabel + " : " + InstTarget(inst), InstanceNode)
  }

  function PortNodes(ports: seq<Port>, eportDirs: map<string, string>): (r: seq<Node>)
    ensures |r| == |ports| && forall i :: 0 <= i < |ports| ==> r[i] == PortNode(ports[i], eportDirs)
  {
    seq(|ports|, i requires 0 <= i < |ports| => PortNode(ports[i], eportDirs))
  }

  function InstNodes(insts: seq<Instance>): (r: seq<Node>)
    ensures |r| == |insts| && forall i :: 0 <= i < |insts| ==> r[i] == InstNode(insts[i])
  {
    seq(|insts|, i requires 0 <= i < |insts| => InstNode(insts[i]))
  }

  /** The net reaches an entity port or an instance pin. */
  predicate Meaningful(net: Net) {
    exists i :: 0 <= i < |net.eps| && (net.eps[i].EntityEp? || net.eps[i].InstEp?)
  }

  /** The const/expr nodes of one net. */
  function AuxNodesOf(key: string, net: Net): seq<Node> {
    (if StartsWith(key, "const::") then [Node("const::" + net.netLabel, net.netLabel, ConstNode)] else [])
    + (if StartsWith(key, "expr::") && Meaningful(net) then [Node("expr::" + net.netLabel, net.netLabel, ExprNode)] else [])
  }

  /** The const/expr nodes of the nets `keys`, in dictionary order. */
  function AuxNodes(nets: Dict<string, Net>, keys: seq<string>): seq<Node>
    requires forall k :: k in keys ==> k in nets.entries
    decreases |keys|
  {
    if keys == [] then []
    else AuxNodes(nets, keys[..|keys| - 1]) + AuxNodesOf(keys[|keys| - 1], nets.entries[keys[|keys| - 1]])
  }

  /**
   * Every const net gets a const node and every expr net that reaches a port
   * or pin gets an expr node; every const or expr node comes from such a net.
   */
  lemma {:induction false} AuxNodesSpec(nets: Dict<string, Net>, keys: seq<string>)
    requires forall k :: k in keys ==> k in nets.entries
    ensures forall k :: k in keys && StartsWith(k, "const::") ==>
      Node("const::" + nets.entries[k].netLabel, nets.entries[k].netLabel, ConstNode) in AuxNodes(nets, keys)
    ensures forall k :: k in keys && StartsWith(k, "expr::") && Meaningful(nets.entries[k]) ==>
      Node("expr::" + nets.entries[k].netLabel, nets.entries[k].netLabel, ExprNode) in AuxNodes(nets, keys)
    ensures forall n :: n in AuxNodes(nets, keys) ==> n.kind == ConstNode || n.kind == ExprNode
    ensures forall n :: n in AuxNodes(nets, keys) ==> exists k :: k in keys && AuxSource(nets, k, n)
    decreases |keys|
  {
    if keys != [] {
      var init := keys[..|keys| - 1];
      var last := keys[|keys| - 1];
      assert forall k :: k in init ==> k in keys;
      AuxNodesSpec(nets, init);
      assert forall k :: k in keys ==> k in init || k == last;
      forall n | n in AuxNodes(nets, keys) ensures exists k :: k in keys && AuxSource(nets, k, n) {
        if n !in AuxNodes(nets, init) {
          assert n in AuxNodesOf(last, nets.entries[last]);
          assert AuxSource(nets, last, n);
        }
      }
    }
  }

  /** `n` is the const node of const net `k`, or the expr node of expr net `k` that reaches a port or pin. */
  predicate AuxSource(nets: Dict<string, Net>, k: string, n: Node)
    requires k in nets.entries
  {
    var net := nets.entries[k];
    || (StartsWith(k, "const::") && n == Node("const::" + net.netLabel, net.netLabel, ConstNode))
    || (StartsWith(k, "expr::") && Meaningful(net) && n == Node("expr::" + net.netLabel, net.netLabel, ExprNode))
  }

  /** `any(n['id'] == hub_id for n in nodes)`. */
  predicate HasId(nodes: seq<Node>, id: string) {
    exists i :: 0 <= i < |nodes| && nodes[i].id == id
  }

  /** The hub node is added unless a node with its id is already there. */
  function AddHub(nodes: seq<Node>, hub: string, netLabel: string): (r: seq<Node>)
    ensures HasId(r, hub)
    ensures |nodes| <= |r| <= |nodes| + 1 && r[..|nodes|] == nodes
  {
    if HasId(nodes, hub) then nodes
    else
      var r := nodes + [Node(hub, netLabel, NetHub)];
      assert r[|nodes|].id == hub;
      r
  }

  /** Number of nodes with id `id`. */
  function IdCount(nodes: seq<Node>, id: string): nat
    decreases |nodes|
  {
    if nodes == [] then 0
    else IdCount(nodes[..|nodes| - 1], id) + (if nodes[|nodes| - 1].id == id then 1 else 0)
  }

  lemma {:induction false} IdCountZero(nodes: seq<Node>, id: string)
    ensures IdCount(nodes, id) == 0 <==> !HasId(nodes, id)
    decreases |nodes|
  {
    if nodes != [] {
      var init := nodes[..|nodes| - 1];
      IdCountZero(init, id);
      if HasId(nodes, id) && nodes[|nodes| - 1].id != id {
        var i :| 0 <= i < |nodes| && nodes[i].id == id;
        assert init[i] == nodes[i];
      }
      if HasId(init, id) {
        var i :| 0 <= i < |init| && init[i].id == id;
        assert nodes[i] == init[i];
      }
    }
  }

  /** Adding a hub never duplicates an id: a missing id appears once afterwards, a present one as often as before. */
  lemma AddHubOnce(nodes: seq<Node>, hub: string, netLabel: string, id: string)
    ensures IdCount(AddHub(nodes, hub, netLabel), id)
      == if id == hub && !HasId(nodes, hub) then 1 else IdCount(nodes, id)
  {
    IdCountZero(nodes, id);
    var r := AddHub(nodes, hub, netLabel);
    if !HasId(nodes, hub) {
      assert r[..|r| - 1] == nodes;
    }
  }

  // ---------------------------------------------------------------------------
  // Edges, net by net

  /** `nd.get('bundle_base') or nd.get('label')`. */
  function NetBase(net: Net): string {
    if Truthy(net.bundleBase) then net.bundleBase.value else net.netLabel
  }

  function Drivers(net: Net, eportDirs: map<string, string>, instDirs: map<string, map<string, string>>): seq<Pin> {
    PinsWith(Driver, net.eps, net.netLabel, eportDirs, instDirs)
  }

  function Sinks(net: Net, eportDirs: map<string, string>, instDirs: map<string, map<string, string>>): seq<Pin> {
    PinsWith(Sink, net.eps, net.netLabel, eportDirs, instDirs)
  }

  function Unknowns(net: Net, eportDirs: map<string, string>, instDirs: map<string, map<string, string>>): seq<Pin> {
    PinsWith(Unknown, net.eps, net.netLabel, eportDirs, instDirs)
  }

  /** One iteration of the per-net loop: maybe a hub node, then the net's edges. */
  function NetStep(g: Graph, key: string, net: Net, eportDirs: map<string, string>,
                   instDirs: map<string, map<string, string>>): Graph
  {
    var d, s, u := Drivers(net, eportDirs, instDirs), Sinks(net, eportDirs, instDirs), Unknowns(net, eportDirs, instDirs);
    var nodes := if UsesHub(key, d, s, u) then AddHub(g.nodes, "net::" + net.netLabel, net.netLabel) else g.nodes;
    Graph(nodes, AddEdges(g.edges, NetWires(key, net.netLabel, d, s, u), net.netLabel, NetBase(net)))
  }

  /** The per-net loop over the nets `keys`, in dictionary order, from `g`. */
  function Layout(nets: Dict<string, Net>, keys: seq<string>, eportDirs: map<string, string>,
                  instDirs: map<string, map<string, string>>, g: Graph): Graph
    requires forall k :: k in keys ==> k in nets.entries
    decreases |keys|
  {
    if keys == [] then g
    else
      var k := keys[|keys| - 1];
      NetStep(Layout(nets, keys[..|keys| - 1], eportDirs, instDirs, g), k, nets.entries[k], eportDirs, instDirs)
  }

  /** The edges after the bundling pass. */
  function Bundled(edges: seq<Edge>): (r: seq<Edge>)
    ensures |r| == |edges|
  {
    seq(|edges|, i requires 0 <= i < |edges| => Stamped(edges[i], KeysOf(edges), i))
  }

  /** The nodes that precede the per-net loop. */
  function InitialNodes(fi: FileInfo, nets: Dict<string, Net>): seq<Node>
    requires nets.Valid()
  {
    PortNodes(fi.ports, PortDirMap(fi.ports)) + InstNodes(fi.instances) + AuxNodes(nets, nets.keys)
  }

  /** The graph when the per-net loop is done, before the bundling pass. */
  function LaidOut(fi: FileInfo, db: PortDb): Graph {
    var nets := UnitNets(fi);
    Layout(nets, nets.keys, PortDirMap(fi.ports), InstDirs(fi.instances, db), Graph(InitialNodes(fi, nets), []))
  }

  /** The whole of `build_wiring`. */
  function WiringOf(fi: FileInfo, db: PortDb): Graph {
    var g := LaidOut(fi, db);
    Graph(g.nodes, Bundled(g.edges))
  }

  // ---------------------------------------------------------------------------
  // Properties of the graph

  /** Edge `i` is called `e<i>`, before and after each net. */
  lemma {:induction false} LayoutEdgeIds(nets: Dict<string, Net>, keys: seq<string>, eportDirs: map<string, string>,
                                         instDirs: map<string, map<string, string>>, g: Graph)
    requires forall k :: k in keys ==> k in nets.entries
    requires forall i :: 0 <= i < |g.edges| ==> g.edges[i].id == EdgeId(i)
    ensures var r := Layout(nets, keys, eportDirs, instDirs, g);
      forall i :: 0 <= i < |r.edges| ==> r.edges[i].id == EdgeId(i)
    decreases |keys|
  {
    if keys != [] {
      var init := keys[..|keys| - 1];
      assert forall k :: k in init ==> k in keys;
      LayoutEdgeIds(nets, init, eportDirs, instDirs, g);
      var g1 := Layout(nets, init, eportDirs, instDirs, g);
      var k := keys[|keys| - 1];
      var net := nets.entries[k];
      var d, s, u := Drivers(net, eportDirs, instDirs), Sinks(net, eportDirs, instDirs), Unknowns(net, eportDirs, instDirs);
      AddEdgesIds(g1.edges, NetWires(k, net.netLabel, d, s, u), net.netLabel, NetBase(net));
    }
  }

  /** `after` extends `before` with hub nodes only, and with no id that `before` already has or that repeats. */
  ghost predicate HubGrowth(before: seq<Node>, after: seq<Node>) {
    && |before| <= |after| && after[..|before|] == before
    && (forall i :: |before| <= i < |after| ==> after[i].kind == NetHub)
    && (forall id :: IdCount(after, id) <= if IdCount(before, id) == 0 then 1 else IdCount(before, id))
  }

  lemma HubGrowthStep(before: seq<Node>, mid: seq<Node>, hub: string, netLabel: string)
    requires HubGrowth(before, mid)
    ensures HubGrowth(before, AddHub(mid, hub, netLabel))
  {
    var r := AddHub(mid, hub, netLabel);
    forall id ensures IdCount(r, id) <= if IdCount(before, id) == 0 then 1 else IdCount(before, id) {
      AddHubOnce(mid, hub, netLabel, id);
      IdCountZero(mid, hub);
    }
    assert r[..|before|] == r[..|mid|][..|before|];
    forall i | |before| <= i < |r| ensures r[i].kind == NetHub {
      if i < |mid| { assert r[i] == r[..|mid|][i]; }
    }
  }

  /** A net adds its hub node or nothing. */
  lemma NetStepNodes(g: Graph, key: string, net: Net, eportDirs: map<string, string>,
                     instDirs: map<string, map<string, string>>)
    ensures var r := NetStep(g, key, net, eportDirs, instDirs).nodes;
      r == g.nodes || r == AddHub(g.nodes, "net::" + net.netLabel, net.netLabel)
  {
  }

  /** The nodes the loop adds are hubs, and no hub id is added twice. */
  lemma {:induction false} LayoutNodes(nets: Dict<string, Net>, keys: seq<string>, eportDirs: map<string, string>,
                                       instDirs: map<string, map<string, string>>, g: Graph)
    requires forall k :: k in keys ==> k in nets.entries
    ensures HubGrowth(g.nodes, Layout(nets, keys, eportDirs, instDirs, g).nodes)
    decreases |keys|
  {
    if keys != [] {
      var init := keys[..|keys| - 1];
      assert forall k :: k in init ==> k in keys;
      LayoutNodes(nets, init, eportDirs, instDirs, g);
      var g1 := Layout(nets, init, eportDirs, instDirs, g);
      var k := keys[|keys| - 1];
      var net := nets.entries[k];
      NetStepNodes(g1, k, net, eportDirs, instDirs);
      HubGrowthStep(g.nodes, g1.nodes, "net::" + net.netLabel, net.netLabel);
    } else {
      assert g.nodes[..|g.nodes|] == g.nodes;
    }
  }

  /** Every hub id `net::<label>` names at most one node of the graph. */
  lemma HubsUnique(fi: FileInfo, db: PortDb, netLabel: string)
    ensures IdCount(WiringOf(fi, db).nodes, "net::" + netLabel) <= 1
  {
    var nets := UnitNets(fi);
    var g0 := Graph(InitialNodes(fi, nets), []);
    LayoutNodes(nets, nets.keys, PortDirMap(fi.ports), InstDirs(fi.instances, db), g0);
    NoInitialHubIds(fi, nets, netLabel);
    FreshIdOnce(g0.nodes, LaidOut(fi, db).nodes, "net::" + netLabel);
  }

  lemma FreshIdOnce(before: seq<Node>, after: seq<Node>, id: string)
    requires HubGrowth(before, after) && IdCount(before, id) == 0
    ensures IdCount(after, id) <= 1
  {
  }

  /** No port, instance, const or expr node id starts with `net::`. */
  lemma NoInitialHubIds(fi: FileInfo, nets: Dict<string, Net>, netLabel: string)
    requires nets.Valid()
    ensures IdCount(InitialNodes(fi, nets), "net::" + netLabel) == 0
  {
    var nodes := InitialNodes(fi, nets);
    var pn := PortNodes(fi.ports, PortDirMap(fi.ports));
    var inn := InstNodes(fi.instances);
    var aux := AuxNodes(nets, nets.keys);
    AuxNodesSpec(nets, nets.keys);
    forall i | 0 <= i < |nodes| ensures nodes[i].id != "net::" + netLabel {
      if i < |pn| {
        assert nodes[i] == pn[i];
        assert nodes[i].id[0] == 'p';
      } else if i < |pn| + |inn| {
        assert nodes[i] == inn[i - |pn|];
        assert nodes[i].id[0] == 'i';
      } else {
        assert nodes[i] == aux[i - |pn| - |inn|];
        AuxNodeIds(nets, nets.keys, i - |pn| - |inn|);
      }
    }
    IdCountZero(nodes, "net::" + netLabel);
  }

  /** Const and expr node ids start with `c` or `e`. */
  lemma {:induction false} AuxNodeIds(nets: Dict<string, Net>, keys: seq<string>, j: nat)
    requires forall k :: k in keys ==> k in nets.entries
    requires j < |AuxNodes(nets, keys)|
    ensures |AuxNodes(nets, keys)[j].id| > 0
    ensures AuxNodes(nets, keys)[j].id[0] == 'c' || AuxNodes(nets, keys)[j].id[0] == 'e'
    decreases |keys|
  {
    var init := keys[..|keys| - 1];
    assert forall k :: k in init ==> k in keys;
    if j < |AuxNodes(nets, init)| {
      AuxNodeIds(nets, init, j);
    }
  }

  /** Edge ids are `e0`, `e1`, ... in emission order, hence pairwise different. */
  lemma EdgeIds(fi: FileInfo, db: PortDb)
    ensures forall i :: 0 <= i < |WiringOf(fi, db).edges| ==> WiringOf(fi, db).edges[i].id == EdgeId(i)
    ensures forall i, j :: 0 <= i < j < |WiringOf(fi, db).edges| ==>
      WiringOf(fi, db).edges[i].id != WiringOf(fi, db).edges[j].id
  {
    var nets := UnitNets(fi);
    LayoutEdgeIds(nets, nets.keys, PortDirMap(fi.ports), InstDirs(fi.instances, db), Graph(InitialNodes(fi, nets), []));
    var es := WiringOf(fi, db).edges;
    forall i, j | 0 <= i < j < |es| ensures es[i].id != es[j].id {
      EdgeIdInjective(i, j);
    }
  }

  /** The bundling pass keeps every edge but its bundle, which it always fills. */
  lemma BundledSpec(raw: seq<Edge>)
    ensures var r := Bundled(raw);
      forall i :: 0 <= i < |raw| ==> r[i].bundle.Some? && r[i] == raw[i].(bundle := r[i].bundle)
    ensures var r := Bundled(raw);
      forall i :: 0 <= i < |r| ==> r[i].bundle.Some? && r[i].bundle.value.idx < r[i].bundle.value.n
    ensures var r := Bundled(raw);
      forall i, j :: 0 <= i < j < |r| && KeyOf(r[i]) == KeyOf(r[j]) ==>
        r[i].bundle.value.idx < r[j].bundle.value.idx && r[i].bundle.value.n == r[j].bundle.value.n
    ensures var r := Bundled(raw);
      forall i :: 0 <= i < |r| ==> r[i].bundle.value.n == |set j | 0 <= j < |r| && KeyOf(r[j]) == KeyOf(r[i])|
  {
    var keys := KeysOf(raw);
    var r := Bundled(raw);
    BundleSpec(keys);
    var b := seq(|keys|, i requires 0 <= i < |keys| => BundleOf(keys, i));
    forall i | 0 <= i < |r| ensures r[i] == raw[i].(bundle := Some(b[i])) {
      assert r[i] == Stamped(raw[i], keys, i);
    }
    StampedGroups(raw, r, keys, b);
  }

  /** Stamping each edge with a bundle that is consistent within its key group keeps that consistency. */
  lemma StampedGroups(raw: seq<Edge>, r: seq<Edge>, keys: seq<EdgeKey>, b: seq<Bundle>)
    requires |raw| == |r| == |keys| == |b|
    requires forall i :: 0 <= i < |r| ==> r[i] == raw[i].(bundle := Some(b[i])) && keys[i] == KeyOf(raw[i])
    requires forall i :: 0 <= i < |b| ==> b[i].idx < b[i].n
    requires forall i, j :: 0 <= i < j < |b| && keys[i] == keys[j] ==> b[i].idx < b[j].idx && b[i].n == b[j].n
    requires forall i :: 0 <= i < |b| ==> b[i].n == |set j | 0 <= j < |keys| && keys[j] == keys[i]|
    ensures forall i :: 0 <= i < |raw| ==> r[i].bundle.Some? && r[i] == raw[i].(bundle := r[i].bundle)
    ensures forall i :: 0 <= i < |r| ==> r[i].bundle.Some? && r[i].bundle.value.idx < r[i].bundle.value.n
    ensures forall i, j :: 0 <= i < j < |r| && KeyOf(r[i]) == KeyOf(r[j]) ==>
      r[i].bundle.value.idx < r[j].bundle.value.idx && r[i].bundle.value.n == r[j].bundle.value.n
    ensures forall i :: 0 <= i < |r| ==> r[i].bundle.value.n == |set j | 0 <= j < |r| && KeyOf(r[j]) == KeyOf(r[i])|
  {
    forall i | 0 <= i < |r|
      ensures (set j | 0 <= j < |r| && KeyOf(r[j]) == KeyOf(r[i])) == set j | 0 <= j < |keys| && keys[j] == keys[i]
    {
      SameKeySets(r, keys, i);
    }
  }

  lemma SameKeySets(r: seq<Edge>, keys: seq<EdgeKey>, i: nat)
    requires |r| == |keys| && i < |r| && forall j :: 0 <= j < |r| ==> KeyOf(r[j]) == keys[j]
    ensures (set j | 0 <= j < |r| && KeyOf(r[j]) == KeyOf(r[i])) == set j | 0 <= j < |keys| && keys[j] == keys[i]
  {
  }

  /** Every edge is bundled; within a (source, target) group of size n the indices are 0..n-1 in emission order. */
  lemma EdgeBundles(fi: FileInfo, db: PortDb)
    ensures var es := WiringOf(fi, db).edges;
      forall i :: 0 <= i < |es| ==> es[i].bundle.Some? && es[i].bundle.value.idx < es[i].bundle.value.n
    ensures var es := WiringOf(fi, db).edges;
      forall i, j :: 0 <= i < j < |es| && KeyOf(es[i]) == KeyOf(es[j]) ==>
        es[i].bundle.value.idx < es[j].bundle.value.idx && es[i].bundle.value.n == es[j].bundle.value.n
    ensures var es := WiringOf(fi, db).edges;
      forall i :: 0 <= i < |es| ==> es[i].bundle.value.n == |set j | 0 <= j < |es| && KeyOf(es[j]) == KeyOf(es[i])|
  {
    BundledSpec(LaidOut(fi, db).edges);
  }

  // ---------------------------------------------------------------------------
  // The builder

  /** The `for p in fi.ports: node(...)` loop. */
  method AddPortNodes(nodes0: seq<Node>, ports: seq<Port>, eportDirs: map<string, string>) returns (nodes: seq<Node>)
    ensures nodes == nodes0 + PortNodes(ports, eportDirs)
  {
    nodes := nodes0;
    for i := 0 to |ports|
      invariant nodes == nodes0 + PortNodes(ports[..i], eportDirs)
    {
      var p := ports[i];
      var dir := if p.name in eportDirs then eportDirs[p.name] else "";
      var kind := if dir == "in" then EntityIn else if dir == "out" || dir == "buffer" then EntityOut else EntityBi;
      nodes := nodes + [Node("port::" + p.name, p.name + " (" + p.direction + ")", kind)];
      assert PortNodes(ports[..i + 1], eportDirs) == PortNodes(ports[..i], eportDirs) + [PortNode(ports[i], eportDirs)];
    }
    assert ports[..|ports|] == ports;
  }

  /** The `for inst in fi.instances: node(...)` loop. */
  method AddInstNodes(nodes0: seq<Node>, insts: seq<Instance>) returns (nodes: seq<Node>)
    ensures nodes == nodes0 + InstNodes(insts)
  {
    nodes := nodes0;
    for i := 0 to |insts|
      invariant nodes == nodes0 + InstNodes(insts[..i])
    {
      var inst := insts[i];
      var target := if Truthy(inst.entityRef) then inst.entityRef.value
        else if Truthy(inst.componentName) then inst.componentName.value else "?";
      nodes := nodes + [Node("inst::" + inst.instLabel, inst.instLabel + " : " + target, InstanceNode)];
      assert InstNodes(insts[..i + 1]) == InstNodes(insts[..i]) + [InstNode(insts[i])];
    }
    assert insts[..|insts|] == insts;
  }

  /** The `for nk, nd in nets.items()` loop that creates const and expr nodes. */
  method AddAuxNodes(nodes0: seq<Node>, nets: Dict<string, Net>) returns (nodes: seq<Node>)
    requires nets.Valid()
    ensures nodes == nodes0 + AuxNodes(nets, nets.keys)
  {
    nodes := nodes0;
    for i := 0 to |nets.keys|
      invariant nodes == nodes0 + AuxNodes(nets, nets.keys[..i])
    {
      var nk := nets.keys[i];
      var nd := nets.entries[nk];
      assert nets.keys[..i + 1][..i] == nets.keys[..i];
      var extra := AuxNodesFor(nk, nd);
      nodes := nodes + extra;
    }
    assert nets.keys[..|nets.keys|] == nets.keys;
  }

  /** The const and expr nodes one net `nk` contributes. */
  method AuxNodesFor(nk: string, nd: Net) returns (extra: seq<Node>)
    ensures extra == AuxNodesOf(nk, nd)
  {
    extra := [];
    if StartsWith(nk, "const::") {
      extra := extra + [Node("const::" + nd.netLabel, nd.netLabel, ConstNode)];
    }
    if StartsWith(nk, "expr::") && exists j :: 0 <= j < |nd.eps| && (nd.eps[j].EntityEp? || nd.eps[j].InstEp?) {
      extra := extra + [Node("expr::" + nd.netLabel, nd.netLabel, ExprNode)];
    }
  }

  /** One iteration of the per-net loop. */
  method WireNet(nodes0: seq<Node>, edges0: seq<Edge>, nk: string, nd: Net, eportDirs: map<string, string>,
                 instDirs: map<string, map<string, string>>) returns (nodes: seq<Node>, edges: seq<Edge>)
    ensures Graph(nodes, edges) == NetStep(Graph(nodes0, edges0), nk, nd, eportDirs, instDirs)
  {
    var netLabel := nd.netLabel;
    var base := if Truthy(nd.bundleBase) then nd.bundleBase.value else netLabel;
    var drivers, sinks, unknown := Partition(nd.eps, netLabel, eportDirs, instDirs);
    ghost var w := NetWires(nk, netLabel, drivers, sinks, unknown);
    nodes := nodes0;
    var wires;
    if NeedHub(|drivers|, |sinks|, |unknown|) && (StartsWith(nk, "sig::") || StartsWith(nk, "eport::")) {
      var hubId := "net::" + netLabel;
      if !exists j :: 0 <= j < |nodes| && nodes[j].id == hubId {
        nodes := nodes + [Node(hubId, netLabel, NetHub)];
      }
      assert UsesHub(nk, drivers, sinks, unknown) && nodes == AddHub(nodes0, hubId, netLabel);
      wires := HubWires(hubId, drivers, sinks, unknown);
      assert wires == w;
    } else if drivers != [] && sinks != [] {
      wires := Bipartite(drivers, sinks);
      assert wires == w;
    } else {
      var uniq := Unique(drivers + sinks + unknown);
      wires := Links(uniq);
      assert wires == w;
    }
    assert base == NetBase(nd);
    edges := EmitEdges(edges0, wires, netLabel, base);
    NetStepOf(Graph(nodes0, edges0), nk, nd, eportDirs, instDirs, drivers, sinks, unknown, nodes, wires);
  }

  /** `NetStep` in terms of the pins, the node list and the wires of one net. */
  lemma NetStepOf(g: Graph, key: string, net: Net, eportDirs: map<string, string>,
                  instDirs: map<string, map<string, string>>, d: seq<Pin>, s: seq<Pin>, u: seq<Pin>,
                  nodes: seq<Node>, wires: seq<Wire>)
    requires d == Drivers(net, eportDirs, instDirs) && s == Sinks(net, eportDirs, instDirs) && u == Unknowns(net, eportDirs, instDirs)
    requires nodes == if UsesHub(key, d, s, u) then AddHub(g.nodes, "net::" + net.netLabel, net.netLabel) else g.nodes
    requires wires == NetWires(key, net.netLabel, d, s, u)
    ensures NetStep(g, key, net, eportDirs, instDirs) == Graph(nodes, AddEdges(g.edges, wires, net.netLabel, NetBase(net)))
  {
  }

  lemma LayoutSnoc(nets: Dict<string, Net>, keys: seq<string>, eportDirs: map<string, string>,
                   instDirs: map<string, map<string, string>>, g: Graph, i: nat)
    requires forall k :: k in keys ==> k in nets.entries
    requires i < |keys|
    ensures forall k :: k in keys[..i] ==> k in nets.entries
    ensures Layout(nets, keys[..i + 1], eportDirs, instDirs, g)
      == NetStep(Layout(nets, keys[..i], eportDirs, instDirs, g), keys[i], nets.entries[keys[i]], eportDirs, instDirs)
  {
    assert keys[..i + 1][..i] == keys[..i];
  }

  /** The per-net loop over `nets.items()`. */
  method WireNets(nodes0: seq<Node>, nets: Dict<string, Net>, eportDirs: map<string, string>,
                  instDirs: map<string, map<string, string>>) returns (nodes: seq<Node>, edges: seq<Edge>)
    requires nets.Valid()
    ensures Graph(nodes, edges) == Layout(nets, nets.keys, eportDirs, instDirs, Graph(nodes0, []))
  {
    nodes, edges := nodes0, [];
    for i := 0 to |nets.keys|
      invariant Graph(nodes, edges) == Layout(nets, nets.keys[..i], eportDirs, instDirs, Graph(nodes0, []))
    {
      var nk := nets.keys[i];
      LayoutSnoc(nets, nets.keys, eportDirs, instDirs, Graph(nodes0, []), i);
      nodes, edges := WireNet(nodes, edges, nk, nets.entries[nk], eportDirs, instDirs);
    }
    assert nets.keys[..|nets.keys|] == nets.keys;
  }

  /** `build_wiring`. */
  method BuildWiring(fi: FileInfo, db: PortDb) returns (g: Graph)
    ensures g == WiringOf(fi, db)
  {
    var instDirs := InstancePortDirs(fi, db);
    var eportDirs := PortDirMap(fi.ports);
    var nets := CollectNets(fi);
    var nodes := AddPortNodes([], fi.ports, eportDirs);
    nodes := AddInstNodes(nodes, fi.instances);
    nodes := AddAuxNodes(nodes, nets);
    assert nodes == InitialNodes(fi, nets) by {
      assert [] + PortNodes(fi.ports, eportDirs) == PortNodes(fi.ports, eportDirs);
    }
    var edges;
    nodes, edges := WireNets(nodes, nets, eportDirs, instDirs);
    assert Graph(nodes, edges) == LaidOut(fi, db);
    var raw := edges;
    edges := AssignBundles(edges);
    assert edges == Bundled(raw);
    g := Graph(nodes, edges);
  }
}
