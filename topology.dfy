/**
 * How `build_wiring` connects the endpoints of one net: each endpoint is
 * resolved to a node id and a pin name and sorted into drivers, sinks or
 * unknowns; the net is then drawn through a hub, as a full driver-to-sink
 * bipartite connection, or as a chain through its distinct endpoints.
 */
module Topology {
  import opened Wrappers
  import opened Text
  import opened Classify
  import opened Nets
  import opened Design

  /** An endpoint drawn on the graph: the node it attaches to and the pin text. */
  datatype Pin = Pin(node: string, pin: string)

  /** A connection before it is numbered; an absent pin is the empty string. */
  datatype Wire = Wire(source: string, target: string, srcPin: string, dstPin: string)

  /** `d.get(k, "")` on a direction map. */
  function DirOf(dirs: map<string, string>, k: string): string {
    if k in dirs then dirs[k] else ""
  }

  /** `inst_port_dirs.get(il, {}).get(fport, "")`. */
  function PinDirOf(instDirs: map<string, map<string, string>>, il: string, formal: string): string {
    if il in instDirs then DirOf(instDirs[il], formal) else ""
  }

  /** The node, pin and role of one endpoint of the net labelled `netLabel`. */
  function Resolve(ep: Endpoint, netLabel: string, eportDirs: map<string, string>,
                   instDirs: map<string, map<string, string>>): (Role, Pin)
  {
    match ep
    case EntityEp(p) => (RoleOf(DirOf(eportDirs, p)), Pin("port::" + p, p))
    case InstEp(il, f) => (RoleOf(PinDirOf(instDirs, il, f)), Pin("inst::" + il, il + "." + f))
    case ExprEp(t) => (Driver, Pin("expr::" + t, t))
    case ConstEp(_) => (Driver, Pin("const::" + netLabel, netLabel))
  }

  /** The pins of the endpoints with role `role`, in endpoint order. */
  function PinsWith(role: Role, eps: seq<Endpoint>, netLabel: string, eportDirs: map<string, string>,
                    instDirs: map<string, map<string, string>>): seq<Pin>
    decreases |eps|
  {
    if eps == [] then []
    else
      var r := Resolve(eps[|eps| - 1], netLabel, eportDirs, instDirs);
      PinsWith(role, eps[..|eps| - 1], netLabel, eportDirs, instDirs) + (if r.0 == role then [r.1] else [])
  }

  /** Every endpoint lands in exactly one of the three lists. */
  lemma {:induction false} PartitionCount(eps: seq<Endpoint>, netLabel: string, eportDirs: map<string, string>,
                                          instDirs: map<string, map<string, string>>)
    ensures |PinsWith(Driver, eps, netLabel, eportDirs, instDirs)| + |PinsWith(Sink, eps, netLabel, eportDirs, instDirs)|
      + |PinsWith(Unknown, eps, netLabel, eportDirs, instDirs)| == |eps|
    decreases |eps|
  {
    if eps != [] {
      PartitionCount(eps[..|eps| - 1], netLabel, eportDirs, instDirs);
    }
  }

  /** A pin is in a list exactly when some endpoint of that role resolves to it. */
  lemma {:induction false} PartitionMembers(role: Role, eps: seq<Endpoint>, netLabel: string,
                                            eportDirs: map<string, string>, instDirs: map<string, map<string, string>>, p: Pin)
    ensures p in PinsWith(role, eps, netLabel, eportDirs, instDirs)
      <==> exists i :: 0 <= i < |eps| && Resolve(eps[i], netLabel, eportDirs, instDirs) == (role, p)
    decreases |eps|
  {
    if eps != [] {
      var init := eps[..|eps| - 1];
      PartitionMembers(role, init, netLabel, eportDirs, instDirs, p);
      if exists i :: 0 <= i < |eps| && Resolve(eps[i], netLabel, eportDirs, instDirs) == (role, p) {
        var i :| 0 <= i < |eps| && Resolve(eps[i], netLabel, eportDirs, instDirs) == (role, p);
        if i < |init| { assert init[i] == eps[i]; }
      }
      if exists i :: 0 <= i < |init| && Resolve(init[i], netLabel, eportDirs, instDirs) == (role, p) {
        var i :| 0 <= i < |init| && Resolve(init[i], netLabel, eportDirs, instDirs) == (role, p);
        assert init[i] == eps[i];
      }
    }
  }

  /** An entity port is a driver when declared `out`/`buffer` and a sink when declared `in`. */
  lemma EntityPortRole(p: string, netLabel: string, eportDirs: map<string, string>,
                       instDirs: map<string, map<string, string>>)
    ensures var r := Resolve(EntityEp(p), netLabel, eportDirs, instDirs);
      && r.1 == Pin("port::" + p, p)
      && (r.0 == Driver <==> p in eportDirs && eportDirs[p] in {"out", "buffer"})
      && (r.0 == Sink <==> p in eportDirs && eportDirs[p] == "in")
  {
  }

  /** A pin of an instance whose label has no known target directions is unknown. */
  lemma UnknownTargetPins(il: string, f: string, netLabel: string, eportDirs: map<string, string>,
                          instDirs: map<string, map<string, string>>)
    requires il !in instDirs || instDirs[il] == map[]
    ensures Resolve(InstEp(il, f), netLabel, eportDirs, instDirs) == (Unknown, Pin("inst::" + il, il + "." + f))
  {
  }

  /** Every pin of an instance whose target is not in the port database is unknown, unless a later instance reuses the label. */
  lemma AbsentTargetPinsUnknown(insts: seq<Instance>, db: PortDb, i: nat, f: string, netLabel: string,
                                eportDirs: map<string, string>)
    requires i < |insts| && LastWithLabel(insts, i)
    requires var ent := OrElse(insts[i].entityRef, insts[i].componentName); !(Truthy(ent) && ent.value in db)
    ensures Resolve(InstEp(insts[i].instLabel, f), netLabel, eportDirs, InstDirs(insts, db)).0 == Unknown
  {
    InstDirsLastWins(insts, db);
    UnknownTargetPins(insts[i].instLabel, f, netLabel, eportDirs, InstDirs(insts, db));
  }

  lemma PinsWithStep(role: Role, eps: seq<Endpoint>, i: nat, netLabel: string, eportDirs: map<string, string>,
                     instDirs: map<string, map<string, string>>)
    requires i < |eps|
    ensures var r := Resolve(eps[i], netLabel, eportDirs, instDirs);
      PinsWith(role, eps[..i + 1], netLabel, eportDirs, instDirs)
        == PinsWith(role, eps[..i], netLabel, eportDirs, instDirs) + (if r.0 == role then [r.1] else [])
  {
    assert eps[..i + 1][..i] == eps[..i];
  }

  /** The loop over `nd['eps']` that fills `drivers`, `sinks` and `unknown`. */
  method Partition(eps: seq<Endpoint>, netLabel: string, eportDirs: map<string, string>,
                   instDirs: map<string, map<string, string>>)
    returns (drivers: seq<Pin>, sinks: seq<Pin>, unknown: seq<Pin>)
    ensures drivers == PinsWith(Driver, eps, netLabel, eportDirs, instDirs)
    ensures sinks == PinsWith(Sink, eps, netLabel, eportDirs, instDirs)
    ensures unknown == PinsWith(Unknown, eps, netLabel, eportDirs, instDirs)
  {
    drivers, sinks, unknown := [], [], [];
    for i := 0 to |eps|
      invariant drivers == PinsWith(Driver, eps[..i], netLabel, eportDirs, instDirs)
      invariant sinks == PinsWith(Sink, eps[..i], netLabel, eportDirs, instDirs)
      invariant unknown == PinsWith(Unknown, eps[..i], netLabel, eportDirs, instDirs)
    {
      PinsWithStep(Driver, eps, i, netLabel, eportDirs, instDirs);
      PinsWithStep(Sink, eps, i, netLabel, eportDirs, instDirs);
      PinsWithStep(Unknown, eps, i, netLabel, eportDirs, instDirs);
      match eps[i]
      case EntityEp(pname) =>
        var dir := if pname in eportDirs then eportDirs[pname] else "";
        var pin := Pin("port::" + pname, pname);
        if dir == "out" || dir == "buffer" {
          drivers := drivers + [pin];
        } else if dir == "in" {
          sinks := sinks + [pin];
        } else {
          unknown := unknown + [pin];
        }
      case InstEp(il, fport) =>
        var dirs := if il in instDirs then instDirs[il] else map[];
        var dir := if fport in dirs then dirs[fport] else "";
        var pin := Pin("inst::" + il, il + "." + fport);
        if dir == "out" || dir == "buffer" {
          drivers := drivers + [pin];
        } else if dir == "in" {
          sinks := sinks + [pin];
        } else {
          unknown := unknown + [pin];
        }
      case ExprEp(t) =>
        drivers := drivers + [Pin("expr::" + t, t)];
      case ConstEp(_) =>
        drivers := drivers + [Pin("const::" + netLabel, netLabel)];
    }
    assert eps[..|eps|] == eps;
  }

  // ---------------------------------------------------------------------------
  // Choosing the shape

  /** The fan-out threshold of `need_hub`. */
  predicate NeedHub(d: nat, s: nat, u: nat) {
    d + s + u >= 3 || (s >= 2 && d >= 1) || d >= 2
  }

  /** Only assignment nets and entity-port nets may be drawn through a hub. */
  predicate HubKey(key: string) {
    StartsWith(key, "sig::") || StartsWith(key, "eport::")
  }

  predicate UsesHub(key: string, drivers: seq<Pin>, sinks: seq<Pin>, unknown: seq<Pin>) {
    NeedHub(|drivers|, |sinks|, |unknown|) && HubKey(key)
  }

  /**
   * A net with two or fewer pins, at most one of them a driver, is never
   * drawn through a hub: it gets the full connection or the chain.
   */
  lemma SmallNetsNeedNoHub(key: string, netLabel: string, drivers: seq<Pin>, sinks: seq<Pin>, unknown: seq<Pin>)
    requires |drivers| + |sinks| + |unknown| <= 2 && |drivers| < 2
    ensures !UsesHub(key, drivers, sinks, unknown)
    ensures NetWires(key, netLabel, drivers, sinks, unknown)
      == if drivers != [] && sinks != [] then Bipartite(drivers, sinks) else Chain(drivers, sinks, unknown)
  {
  }

  /** `drivers or unknown[:1] or []`: what is drawn into the hub. */
  function HubInputs(drivers: seq<Pin>, unknown: seq<Pin>): seq<Pin> {
    if drivers != [] then drivers else if unknown != [] then unknown[..1] else []
  }

  /** `(sinks or unknown[1:]) if (drivers or unknown) else []`: what the hub is drawn out to. */
  function HubOutputs(drivers: seq<Pin>, sinks: seq<Pin>, unknown: seq<Pin>): seq<Pin> {
    if drivers == [] && unknown == [] then []
    else if sinks != [] then sinks
    else if unknown != [] then unknown[1..]
    else []
  }

  function IntoHub(pins: seq<Pin>, hub: string): (r: seq<Wire>)
    ensures |r| == |pins|
    ensures forall i :: 0 <= i < |pins| ==> r[i] == Wire(pins[i].node, hub, pins[i].pin, "")
  {
    seq(|pins|, i requires 0 <= i < |pins| => Wire(pins[i].node, hub, pins[i].pin, ""))
  }

  function OutOfHub(hub: string, pins: seq<Pin>): (r: seq<Wire>)
    ensures |r| == |pins|
    ensures forall i :: 0 <= i < |pins| ==> r[i] == Wire(hub, pins[i].node, "", pins[i].pin)
  {
    seq(|pins|, i requires 0 <= i < |pins| => Wire(hub, pins[i].node, "", pins[i].pin))
  }

  /** The wires of a net drawn through the hub node `hub`. */
  function HubWires(hub: string, drivers: seq<Pin>, sinks: seq<Pin>, unknown: seq<Pin>): seq<Wire> {
    IntoHub(HubInputs(drivers, unknown), hub) + OutOfHub(hub, HubOutputs(drivers, sinks, unknown))
  }

  /** Every hub wire has the hub at one end; each driver feeds it and, when anything feeds it, it feeds each sink. */
  lemma HubWiresShape(hub: string, drivers: seq<Pin>, sinks: seq<Pin>, unknown: seq<Pin>)
    ensures forall w :: w in HubWires(hub, drivers, sinks, unknown) ==> w.source == hub || w.target == hub
    ensures forall p :: p in drivers ==> Wire(p.node, hub, p.pin, "") in HubWires(hub, drivers, sinks, unknown)
    ensures drivers != [] || unknown != [] ==>
      forall p :: p in sinks ==> Wire(hub, p.node, "", p.pin) in HubWires(hub, drivers, sinks, unknown)
    ensures |HubWires(hub, drivers, sinks, unknown)|
      == |HubInputs(drivers, unknown)| + |HubOutputs(drivers, sinks, unknown)|
  {
    var w := HubWires(hub, drivers, sinks, unknown);
    var ins := IntoHub(HubInputs(drivers, unknown), hub);
    forall p | p in drivers ensures Wire(p.node, hub, p.pin, "") in w {
      var i :| 0 <= i < |drivers| && drivers[i] == p;
      assert w[i] == ins[i];
    }
    if drivers != [] || unknown != [] {
      forall p | p in sinks ensures Wire(hub, p.node, "", p.pin) in w {
        var i :| 0 <= i < |sinks| && sinks[i] == p;
        assert w[|ins| + i] == Wire(hub, p.node, "", p.pin);
      }
    }
  }

  /** A hub net without drivers or unknowns, only sinks, gets no wire at all. */
  lemma HubSinksOnly(hub: string, sinks: seq<Pin>)
    ensures HubWires(hub, [], sinks, []) == []
  {
  }

  /** With drivers and no sinks, the hub is drawn out to every unknown but the first. */
  lemma HubSkipsFirstUnknown(hub: string, drivers: seq<Pin>, unknown: seq<Pin>)
    requires drivers != [] && unknown != []
    ensures HubWires(hub, drivers, [], unknown) == IntoHub(drivers, hub) + OutOfHub(hub, unknown[1..])
  {
  }

  // ---------------------------------------------------------------------------
  // Without a hub

  /** Each driver to each sink, drivers in the outer loop. */
  function Bipartite(drivers: seq<Pin>, sinks: seq<Pin>): seq<Wire>
    decreases |drivers|
  {
    if drivers == [] then []
    else
      var d := drivers[0];
      seq(|sinks|, j requires 0 <= j < |sinks| => Wire(d.node, sinks[j].node, d.pin, sinks[j].pin))
      + Bipartite(drivers[1..], sinks)
  }

  /** |drivers| x |sinks| wires, and a wire is there exactly when it joins a driver to a sink. */
  lemma {:induction false} BipartiteSpec(drivers: seq<Pin>, sinks: seq<Pin>)
    ensures |Bipartite(drivers, sinks)| == |drivers| * |sinks|
    ensures forall w :: w in Bipartite(drivers, sinks) <==>
      exists i, j :: (0 <= i < |drivers| && 0 <= j < |sinks|
        && w == Wire(drivers[i].node, sinks[j].node, drivers[i].pin, sinks[j].pin))
    decreases |drivers|
  {
    if drivers != [] {
      var d := drivers[0];
      var row := seq(|sinks|, j requires 0 <= j < |sinks| => Wire(d.node, sinks[j].node, d.pin, sinks[j].pin));
      var rest := drivers[1..];
      BipartiteSpec(rest, sinks);
      assert Bipartite(drivers, sinks) == row + Bipartite(rest, sinks);
      forall w | w in Bipartite(drivers, sinks)
        ensures exists i, j :: (0 <= i < |drivers| && 0 <= j < |sinks|
          && w == Wire(drivers[i].node, sinks[j].node, drivers[i].pin, sinks[j].pin))
      {
        if w in row {
          var j :| 0 <= j < |sinks| && row[j] == w;
          assert w == Wire(drivers[0].node, sinks[j].node, drivers[0].pin, sinks[j].pin);
        } else {
          var i, j :| 0 <= i < |rest| && 0 <= j < |sinks|
            && w == Wire(rest[i].node, sinks[j].node, rest[i].pin, sinks[j].pin);
          assert rest[i] == drivers[i + 1];
        }
      }
      forall w | exists i, j :: (0 <= i < |drivers| && 0 <= j < |sinks|
          && w == Wire(drivers[i].node, sinks[j].node, drivers[i].pin, sinks[j].pin))
        ensures w in Bipartite(drivers, sinks)
      {
        var i, j :| 0 <= i < |drivers| && 0 <= j < |sinks|
          && w == Wire(drivers[i].node, sinks[j].node, drivers[i].pin, sinks[j].pin);
        if i == 0 {
          assert row[j] == w;
        } else {
          assert rest[i - 1] == drivers[i];
          assert w in Bipartite(rest, sinks);
        }
      }
    }
  }

  /** The first occurrence of each pin, in order: the `seen`/`uniq` loop. */
  function Dedup(xs: seq<Pin>): seq<Pin>
    decreases |xs|
  {
    if xs == [] then []
    else
      var u := Dedup(xs[..|xs| - 1]);
      if xs[|xs| - 1] in u then u else u + [xs[|xs| - 1]]
  }

  ghost predicate Distinct<T>(s: seq<T>) {
    forall i, j :: 0 <= i < j < |s| ==> s[i] != s[j]
  }

  /** `Dedup` keeps every pin once and adds none. */
  lemma {:induction false} DedupSpec(xs: seq<Pin>)
    ensures Distinct(Dedup(xs))
    ensures forall p :: p in Dedup(xs) <==> p in xs
    ensures |Dedup(xs)| <= |xs|
    decreases |xs|
  {
    if xs != [] {
      var init := xs[..|xs| - 1];
      DedupSpec(init);
      assert xs == init + [xs[|xs| - 1]];
    }
  }

  /** The `seen`/`uniq` loop over `flat`. */
  method Unique(flat: seq<Pin>) returns (uniq: seq<Pin>)
    ensures uniq == Dedup(flat)
  {
    uniq := [];
    var seen: set<Pin> := {};
    for i := 0 to |flat|
      invariant uniq == Dedup(flat[..i])
      invariant seen == set p | p in uniq
    {
      assert flat[..i + 1][..i] == flat[..i];
      if flat[i] !in seen {
        seen := seen + {flat[i]};
        uniq := uniq + [flat[i]];
      }
    }
    assert flat[..|flat|] == flat;
  }

  /** The wires joining consecutive pins. */
  function Links(uniq: seq<Pin>): (r: seq<Wire>)
    ensures |uniq| > 0 ==> |r| == |uniq| - 1
    ensures |uniq| == 0 ==> r == []
  {
    if |uniq| <= 1 then []
    else
      seq(|uniq| - 1, i requires 0 <= i < |uniq| - 1 =>
        Wire(uniq[i].node, uniq[i + 1].node, uniq[i].pin, uniq[i + 1].pin))
  }

  /** The chain through the distinct endpoints, drivers first, then sinks, then unknowns. */
  function Chain(drivers: seq<Pin>, sinks: seq<Pin>, unknown: seq<Pin>): seq<Wire> {
    Links(Dedup(drivers + sinks + unknown))
  }

  /** Wire `i` of a chain joins pin `i` to pin `i + 1`. */
  lemma LinksJoin(uniq: seq<Pin>, i: nat)
    requires i + 1 < |uniq|
    ensures Links(uniq)[i] == Wire(uniq[i].node, uniq[i + 1].node, uniq[i].pin, uniq[i + 1].pin)
  {
  }

  /** A chain has one wire fewer than there are distinct pins, and each wire joins two of the net's pins. */
  lemma ChainSpec(drivers: seq<Pin>, sinks: seq<Pin>, unknown: seq<Pin>)
    ensures |Chain(drivers, sinks, unknown)| == (if Dedup(drivers + sinks + unknown) == [] then 0
      else |Dedup(drivers + sinks + unknown)| - 1)
    ensures forall w :: w in Chain(drivers, sinks, unknown) ==>
      Pin(w.source, w.srcPin) in drivers + sinks + unknown && Pin(w.target, w.dstPin) in drivers + sinks + unknown
  {
    var all := drivers + sinks + unknown;
    var uniq := Dedup(all);
    DedupSpec(all);
    forall w | w in Links(uniq) ensures Pin(w.source, w.srcPin) in all && Pin(w.target, w.dstPin) in all {
      var i :| 0 <= i < |Links(uniq)| && Links(uniq)[i] == w;
      LinksJoin(uniq, i);
      assert Pin(w.source, w.srcPin) == uniq[i];
      assert Pin(w.target, w.dstPin) == uniq[i + 1];
    }
  }

  /** The wires of one net, in the order `build_wiring` adds them. */
  function NetWires(key: string, netLabel: string, drivers: seq<Pin>, sinks: seq<Pin>, unknown: seq<Pin>): seq<Wire> {
    if UsesHub(key, drivers, sinks, unknown) then HubWires("net::" + netLabel, drivers, sinks, unknown)
    else if drivers != [] && sinks != [] then Bipartite(drivers, sinks)
    else Chain(drivers, sinks, unknown)
  }

  /** A net drawn without a hub that has both drivers and sinks gets every driver-to-sink pair. */
  lemma NoHubFullConnection(key: string, netLabel: string, drivers: seq<Pin>, sinks: seq<Pin>, unknown: seq<Pin>)
    requires !UsesHub(key, drivers, sinks, unknown) && drivers != [] && sinks != []
    ensures NetWires(key, netLabel, drivers, sinks, unknown) == Bipartite(drivers, sinks)
    ensures |NetWires(key, netLabel, drivers, sinks, unknown)| == |drivers| * |sinks|
  {
    BipartiteSpec(drivers, sinks);
  }
}
