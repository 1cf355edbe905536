/**
 * The net aggregator of `build_wiring`: every non-open instance binding,
 * every entity port and every concurrent assignment becomes one `add_ep`
 * call, and the calls are grouped into nets by their textual key.
 */
module Nets {
  import opened Wrappers
  import opened Text
  import opened Dicts
  import opened Design
  import opened Classify

  /** One place a net touches. The constant case is part of the vocabulary but never produced. */
  datatype Endpoint =
    | EntityEp(port: string)
    | InstEp(inst: string, formal: string)
    | ConstEp(value: string)
    | ExprEp(text: string)

  /** A net: label and bundle base come from its first endpoint; endpoints in arrival order. */
  datatype Net = Net(netLabel: string, eps: seq<Endpoint>, bundleBase: Option<string>)

  /** The arguments of one `add_ep(netkey, label, ep, bundle_base)` call. */
  datatype AddCall = AddCall(key: string, netLabel: string, ep: Endpoint, base: Option<string>)

  /** `add_ep`: a new key gets a net labelled by this call; a known key only gains the endpoint. */
  function AddEp(nets: Dict<string, Net>, c: AddCall): (r: Dict<string, Net>)
    requires nets.Valid()
    ensures r.Valid()
  {
    if c.key in nets.entries then
      var n := nets.entries[c.key];
      Put(nets, c.key, n.(eps := n.eps + [c.ep]))
    else Put(nets, c.key, Net(c.netLabel, [c.ep], c.base))
  }

  /** The nets dictionary after the calls, made in order, starting from `{}`. */
  function Aggregate(calls: seq<AddCall>): (r: Dict<string, Net>)
    ensures r.Valid()
    decreases |calls|
  {
    if calls == [] then Empty() else AddEp(Aggregate(calls[..|calls| - 1]), calls[|calls| - 1])
  }

  lemma AggregateSnoc(calls: seq<AddCall>, c: AddCall)
    ensures Aggregate(calls + [c]) == AddEp(Aggregate(calls), c)
  {
    assert (calls + [c])[..|calls|] == calls;
  }

  // ---------------------------------------------------------------------------
  // The grouping, stated without the dictionary

  predicate HasKey(calls: seq<AddCall>, k: string) {
    exists i :: 0 <= i < |calls| && calls[i].key == k
  }

  /** The first call made with key `k`. */
  function FirstCall(calls: seq<AddCall>, k: string): AddCall
    requires HasKey(calls, k)
    decreases |calls|
  {
    var init := calls[..|calls| - 1];
    if HasKey(init, k) then FirstCall(init, k) else calls[|calls| - 1]
  }

  /** The endpoints of the calls made with key `k`, in call order. */
  function EndpointsFor(calls: seq<AddCall>, k: string): seq<Endpoint>
    decreases |calls|
  {
    if calls == [] then []
    else
      var last := calls[|calls| - 1];
      EndpointsFor(calls[..|calls| - 1], k) + (if last.key == k then [last.ep] else [])
  }

  /** The distinct keys of the calls, in order of first appearance. */
  function FirstKeys(calls: seq<AddCall>): seq<string>
    decreases |calls|
  {
    if calls == [] then []
    else
      var init := calls[..|calls| - 1];
      var k := calls[|calls| - 1].key;
      if HasKey(init, k) then FirstKeys(init) else FirstKeys(init) + [k]
  }

  /**
   * The aggregator groups exactly: one net per distinct key, keys in order of
   * first use, each net holding every endpoint added under its key in call
   * order, with the label and bundle base of the first call for that key.
   */
  lemma AggregateGroups(calls: seq<AddCall>)
    ensures Aggregate(calls).keys == FirstKeys(calls)
    ensures forall k :: k in Aggregate(calls).entries <==> HasKey(calls, k)
    ensures forall k :: HasKey(calls, k) ==>
      Aggregate(calls).entries[k]
        == Net(FirstCall(calls, k).netLabel, EndpointsFor(calls, k), FirstCall(calls, k).base)
  {
    AggregateKeys(calls);
    forall k | HasKey(calls, k)
      ensures Aggregate(calls).entries[k]
        == Net(FirstCall(calls, k).netLabel, EndpointsFor(calls, k), FirstCall(calls, k).base)
    {
      AggregateEntry(calls, k);
    }
  }

  lemma {:induction false} AggregateKeys(calls: seq<AddCall>)
    ensures Aggregate(calls).keys == FirstKeys(calls)
    ensures forall k :: k in Aggregate(calls).entries <==> HasKey(calls, k)
    decreases |calls|
  {
    if calls != [] {
      var init := calls[..|calls| - 1];
      var c := calls[|calls| - 1];
      AggregateKeys(init);
      assert Aggregate(calls) == AddEp(Aggregate(init), c);
      assert init + [c] == calls;
      forall k ensures HasKey(calls, k) <==> HasKey(init, k) || c.key == k {
        HasKeySnoc(init, c, k);
      }
    }
  }

  lemma {:induction false} AggregateEntry(calls: seq<AddCall>, k: string)
    requires HasKey(calls, k)
    ensures k in Aggregate(calls).entries
    ensures Aggregate(calls).entries[k]
      == Net(FirstCall(calls, k).netLabel, EndpointsFor(calls, k), FirstCall(calls, k).base)
    decreases |calls|
  {
    var init := calls[..|calls| - 1];
    var c := calls[|calls| - 1];
    assert init + [c] == calls;
    HasKeySnoc(init, c, k);
    AggregateKeys(init);
    assert Aggregate(calls) == AddEp(Aggregate(init), c);
    if HasKey(init, k) {
      AggregateEntry(init, k);
    } else {
      EndpointsForAbsent(init, k);
    }
  }

  lemma HasKeySnoc(init: seq<AddCall>, c: AddCall, k: string)
    ensures HasKey(init + [c], k) <==> HasKey(init, k) || c.key == k
  {
    var calls := init + [c];
    if HasKey(calls, k) && c.key != k {
      var i :| 0 <= i < |calls| && calls[i].key == k;
      assert init[i] == calls[i];
    }
    if HasKey(init, k) {
      var i :| 0 <= i < |init| && init[i].key == k;
      assert calls[i] == init[i];
    }
    if c.key == k {
      assert calls[|init|] == c;
    }
  }

  lemma {:induction false} EndpointsForAbsent(calls: seq<AddCall>, k: string)
    requires !HasKey(calls, k)
    ensures EndpointsFor(calls, k) == []
    decreases |calls|
  {
    if calls != [] {
      var init := calls[..|calls| - 1];
      HasKeySnoc(init, calls[|calls| - 1], k);
      assert init + [calls[|calls| - 1]] == calls;
      EndpointsForAbsent(init, k);
    }
  }

  // ---------------------------------------------------------------------------
  // The calls `build_wiring` makes for one design unit

  /** The key prefix of a classified actual (`open` has none). */
  function KindPrefix(kind: ActualKind): string {
    match kind
    case SignalActual => "signal::"
    case EPortActual => "eport::"
    case ConstActual => "const::"
    case _ => "expr::"
  }

  /** The call for binding `formal => actual` of `inst`; none for an `open` actual. */
  function PinCall(inst: Instance, formal: string, actual: string, fi: FileInfo): (r: Option<AddCall>)
    ensures r.None? <==> Lower(StripParens(actual)) == "open"
    ensures r.Some? ==>
      var c := ClassifyActual(actual, fi);
      && r.value.ep == InstEp(inst.instLabel, formal)
      && r.value.key == KindPrefix(c.kind) + StripParens(actual)
      && r.value.netLabel == StripParens(actual)
      && r.value.base == c.base
  {
    var c := ClassifyActual(actual, fi);
    var ep := InstEp(inst.instLabel, formal);
    match c.kind
    case OpenActual => None
    case SignalActual => Some(AddCall("signal::" + c.text, c.text, ep, c.base))
    case EPortActual => Some(AddCall("eport::" + c.text, c.text, ep, c.base))
    case ConstActual => Some(AddCall("const::" + c.text, c.text, ep, None))
    case ExprActual => Some(AddCall("expr::" + c.text, c.text, ep, None))
  }

  function OptionSeq<T>(o: Option<T>): seq<T> {
    if o.Some? then [o.value] else []
  }

  /** The calls for the bindings `items` of one instance, in port-map order. */
  function PinCalls(inst: Instance, items: seq<(string, string)>, fi: FileInfo): seq<AddCall>
    decreases |items|
  {
    if items == [] then []
    else
      var last := items[|items| - 1];
      PinCalls(inst, items[..|items| - 1], fi) + OptionSeq(PinCall(inst, last.0, last.1, fi))
  }

  /** The calls for all instances, instance by instance. */
  function InstanceCalls(insts: seq<Instance>, fi: FileInfo): seq<AddCall>
    decreases |insts|
  {
    if insts == [] then []
    else
      var last := insts[|insts| - 1];
      InstanceCalls(insts[..|insts| - 1], fi) + PinCalls(last, last.portMap, fi)
  }

  /** Each entity port joins its own `eport::<name>` net. */
  function PortCall(p: Port): AddCall {
    AddCall("eport::" + p.name, p.name, EntityEp(p.name), Some(p.name))
  }

  /** Each assignment's expression drives the `sig::<target>` net. */
  function AssignCall(a: Assignment): AddCall {
    AddCall("sig::" + a.target, a.target, ExprEp(a.expr), Some(a.target))
  }

  function PortCalls(ports: seq<Port>): seq<AddCall> {
    seq(|ports|, i requires 0 <= i < |ports| => PortCall(ports[i]))
  }

  function AssignCalls(assigns: seq<Assignment>): seq<AddCall> {
    seq(|assigns|, i requires 0 <= i < |assigns| => AssignCall(assigns[i]))
  }

  /** Every `add_ep` call of `build_wiring`, in the order it makes them. */
  function UnitCalls(fi: FileInfo): seq<AddCall> {
    InstanceCalls(fi.instances, fi) + PortCalls(fi.ports) + AssignCalls(fi.assignments)
  }

  /** The nets of a design unit. */
  function UnitNets(fi: FileInfo): (r: Dict<string, Net>)
    ensures r.Valid()
  {
    Aggregate(UnitCalls(fi))
  }

  // ---------------------------------------------------------------------------
  // What the calls are

  /** Number of bindings in `items` whose actual is `open` (in any letter case). */
  function OpenCount(items: seq<(string, string)>): nat
    decreases |items|
  {
    if items == [] then 0
    else
      var last := items[|items| - 1];
      OpenCount(items[..|items| - 1]) + (if Lower(StripParens(last.1)) == "open" then 1 else 0)
  }

  /** Open actuals add nothing and every other binding adds exactly one call. */
  lemma {:induction false} PinCallsCount(inst: Instance, items: seq<(string, string)>, fi: FileInfo)
    ensures |PinCalls(inst, items, fi)| == |items| - OpenCount(items)
    decreases |items|
  {
    if items != [] {
      var last := items[|items| - 1];
      PinCallsCount(inst, items[..|items| - 1], fi);
      var o := PinCall(inst, last.0, last.1, fi);
      assert |OptionSeq(o)| == if o.None? then 0 else 1;
    }
  }

  /** Each non-open binding's call, an instance-pin endpoint under `<kind>::<label>`, is made. */
  lemma PinCallsComplete(inst: Instance, items: seq<(string, string)>, fi: FileInfo, j: nat)
    requires j < |items| && Lower(StripParens(items[j].1)) != "open"
    ensures PinCall(inst, items[j].0, items[j].1, fi).value in PinCalls(inst, items, fi)
  {
    var f := (b: (string, string)) => PinCall(inst, b.0, b.1, fi);
    var g := (ys: seq<(string, string)>) => PinCalls(inst, ys, fi);
    assert forall ys: seq<(string, string)> {:trigger g(ys)} :: |ys| > 0 ==> g(ys) == g(ys[..|ys| - 1]) + OptionSeq(f(ys[|ys| - 1]));
    SnocCollectHas(f, g, items, j);
  }

  /**
   * For any list `g` built element by element from the optional results of `f`,
   * every result that is present is in the list.
   */
  lemma {:induction false} SnocCollectHas<A, B>(f: A -> Option<B>, g: seq<A> -> seq<B>, xs: seq<A>, j: nat)
    requires forall ys: seq<A> {:trigger g(ys)} :: |ys| > 0 ==> g(ys) == g(ys[..|ys| - 1]) + OptionSeq(f(ys[|ys| - 1]))
    requires j < |xs| && f(xs[j]).Some?
    ensures f(xs[j]).value in g(xs)
    decreases |xs|
  {
    var n := |xs| - 1;
    assert g(xs) == g(xs[..n]) + OptionSeq(f(xs[n]));
    if j < n {
      assert xs[..n][j] == xs[j];
      SnocCollectHas(f, g, xs[..n], j);
    } else {
      assert j == n;
      assert g(xs)[|g(xs[..n])|] == f(xs[j]).value;
    }
  }

  /** Every call made for an instance comes from one of its bindings. */
  lemma {:induction false} PinCallsSound(inst: Instance, items: seq<(string, string)>, fi: FileInfo, c: AddCall)
    requires c in PinCalls(inst, items, fi)
    ensures exists j :: 0 <= j < |items| && PinCall(inst, items[j].0, items[j].1, fi) == Some(c)
    ensures c.ep == InstEp(inst.instLabel, c.ep.formal)
    decreases |items|
  {
    var init := items[..|items| - 1];
    var last := items[|items| - 1];
    if c in PinCalls(inst, init, fi) {
      PinCallsSound(inst, init, fi, c);
      var j :| 0 <= j < |init| && PinCall(inst, init[j].0, init[j].1, fi) == Some(c);
      assert items[j] == init[j];
    } else {
      assert PinCall(inst, last.0, last.1, fi) == Some(c);
    }
  }

  lemma {:induction false} InstanceCallsArePins(insts: seq<Instance>, fi: FileInfo)
    ensures forall c :: c in InstanceCalls(insts, fi) ==> c.ep.InstEp?
    decreases |insts|
  {
    if insts != [] {
      var last := insts[|insts| - 1];
      InstanceCallsArePins(insts[..|insts| - 1], fi);
      forall c | c in PinCalls(last, last.portMap, fi) ensures c.ep.InstEp? {
        PinCallsSound(last, last.portMap, fi, c);
      }
    }
  }

  /** Nets built from calls without a constant endpoint hold no constant endpoint. */
  lemma {:induction false} AggregateNoConst(calls: seq<AddCall>)
    requires forall c :: c in calls ==> !c.ep.ConstEp?
    ensures forall k, e :: k in Aggregate(calls).entries && e in Aggregate(calls).entries[k].eps ==> !e.ConstEp?
    decreases |calls|
  {
    if calls != [] {
      var init := calls[..|calls| - 1];
      assert forall c :: c in init ==> c in calls;
      AggregateNoConst(init);
    }
  }

  /** No net of a design unit holds a constant endpoint: the `const` branch of the role split is dead. */
  lemma NoConstEndpoints(fi: FileInfo)
    ensures forall k, e :: k in UnitNets(fi).entries && e in UnitNets(fi).entries[k].eps ==> !e.ConstEp?
  {
    InstanceCallsArePins(fi.instances, fi);
    var calls := UnitCalls(fi);
    forall c | c in calls ensures !c.ep.ConstEp? {
      var i :| 0 <= i < |calls| && calls[i] == c;
      var ni := |InstanceCalls(fi.instances, fi)|;
      if i < ni {
        assert c in InstanceCalls(fi.instances, fi);
      } else if i < ni + |fi.ports| {
        assert c == PortCall(fi.ports[i - ni]);
      } else {
        assert c == AssignCall(fi.assignments[i - ni - |fi.ports|]);
      }
    }
    AggregateNoConst(calls);
  }

  // ---------------------------------------------------------------------------
  // The loops of `build_wiring` that fill `nets`

  lemma AggregateStep(prefix: seq<AddCall>, xs: seq<AddCall>, c: AddCall)
    ensures Aggregate(prefix + (xs + [c])) == AddEp(Aggregate(prefix + xs), c)
  {
    assert prefix + (xs + [c]) == (prefix + xs) + [c];
    AggregateSnoc(prefix + xs, c);
  }

  lemma PinCallsStep(inst: Instance, items: seq<(string, string)>, fi: FileInfo, j: nat)
    requires j < |items|
    ensures PinCalls(inst, items[..j + 1], fi)
      == PinCalls(inst, items[..j], fi) + OptionSeq(PinCall(inst, items[j].0, items[j].1, fi))
  {
    assert items[..j + 1][..j] == items[..j];
  }

  lemma InstanceCallsStep(insts: seq<Instance>, fi: FileInfo, i: nat)
    requires i < |insts|
    ensures InstanceCalls(insts[..i + 1], fi)
      == InstanceCalls(insts[..i], fi) + PinCalls(insts[i], insts[i].portMap, fi)
  {
    assert insts[..i + 1][..i] == insts[..i];
  }

  lemma PortCallsStep(ports: seq<Port>, i: nat)
    requires i < |ports|
    ensures PortCalls(ports[..i + 1]) == PortCalls(ports[..i]) + [PortCall(ports[i])]
  {
  }

  lemma AssignCallsStep(assigns: seq<Assignment>, i: nat)
    requires i < |assigns|
    ensures AssignCalls(assigns[..i + 1]) == AssignCalls(assigns[..i]) + [AssignCall(assigns[i])]
  {
  }

  /** The call one classified binding contributes, if it is not left open. */
  function BindingCall(inst: Instance, formal: string, c: Classified): AddCall {
    AddCall(KindPrefix(c.kind) + c.text, c.text, InstEp(inst.instLabel, formal), c.base)
  }

  lemma CollectPinStep(before: seq<AddCall>, inst: Instance, fi: FileInfo, j: nat, c: Classified)
    requires j < |inst.portMap| && c == ClassifyActual(inst.portMap[j].1, fi)
    ensures c.kind != OpenActual ==>
      Aggregate(before + PinCalls(inst, inst.portMap[..j + 1], fi))
      == AddEp(Aggregate(before + PinCalls(inst, inst.portMap[..j], fi)), BindingCall(inst, inst.portMap[j].0, c))
    ensures c.kind == OpenActual ==>
      before + PinCalls(inst, inst.portMap[..j + 1], fi) == before + PinCalls(inst, inst.portMap[..j], fi)
  {
    PinCallsStep(inst, inst.portMap, fi, j);
    if c.kind != OpenActual {
      assert PinCall(inst, inst.portMap[j].0, inst.portMap[j].1, fi) == Some(BindingCall(inst, inst.portMap[j].0, c));
      AggregateStep(before, PinCalls(inst, inst.portMap[..j], fi), BindingCall(inst, inst.portMap[j].0, c));
    }
  }

  /** The bindings of one instance, in port-map order: the inner loop of the first pass. */
  method CollectPins(nets0: Dict<string, Net>, ghost before: seq<AddCall>, inst: Instance, fi: FileInfo)
    returns (nets: Dict<string, Net>)
    requires nets0 == Aggregate(before)
    ensures nets == Aggregate(before + PinCalls(inst, inst.portMap, fi))
  {
    nets := nets0;
    assert before + PinCalls(inst, inst.portMap[..0], fi) == before;
    for j := 0 to |inst.portMap|
      invariant nets == Aggregate(before + PinCalls(inst, inst.portMap[..j], fi))
    {
      var (formal, actual) := inst.portMap[j];
      var c := ClassifyActual(actual, fi);
      CollectPinStep(before, inst, fi, j, c);
      if c.kind != OpenActual {
        nets := AddEp(nets, AddCall(KindPrefix(c.kind) + c.text, c.text, InstEp(inst.instLabel, formal), c.base));
      }
    }
    assert inst.portMap[..|inst.portMap|] == inst.portMap;
  }

  /**
   * The loops of `build_wiring` that fill `nets`: every instance binding,
   * then every entity port, then every assignment.
   */
  method CollectNets(fi: FileInfo) returns (nets: Dict<string, Net>)
    ensures nets == UnitNets(fi)
  {
    nets := Empty();
    for i := 0 to |fi.instances|
      invariant nets == Aggregate(InstanceCalls(fi.instances[..i], fi))
    {
      nets := CollectPins(nets, InstanceCalls(fi.instances[..i], fi), fi.instances[i], fi);
      InstanceCallsStep(fi.instances, fi, i);
    }
    assert fi.instances[..|fi.instances|] == fi.instances;
    ghost var instCalls := InstanceCalls(fi.instances, fi);
    assert instCalls + PortCalls(fi.ports[..0]) == instCalls;
    for i := 0 to |fi.ports|
      invariant nets == Aggregate(instCalls + PortCalls(fi.ports[..i]))
    {
      var p := fi.ports[i];
      PortCallsStep(fi.ports, i);
      AggregateStep(instCalls, PortCalls(fi.ports[..i]), PortCall(p));
      nets := AddEp(nets, AddCall("eport::" + p.name, p.name, EntityEp(p.name), Some(p.name)));
    }
    assert fi.ports[..|fi.ports|] == fi.ports;
    ghost var fixed := instCalls + PortCalls(fi.ports);
    assert fixed + AssignCalls(fi.assignments[..0]) == fixed;
    for i := 0 to |fi.assignments|
      invariant nets == Aggregate(fixed + AssignCalls(fi.assignments[..i]))
    {
      var a := fi.assignments[i];
      AssignCallsStep(fi.assignments, i);
      AggregateStep(fixed, AssignCalls(fi.assignments[..i]), AssignCall(a));
      nets := AddEp(nets, AddCall("sig::" + a.target, a.target, ExprEp(a.expr), Some(a.target)));
    }
    assert fi.assignments[..|fi.assignments|] == fi.assignments;
  }

  // ---------------------------------------------------------------------------
  // Instance pin directions

  /** The lower-cased port directions of an instance's target; empty when it is unknown. */
  function TargetDirs(inst: Instance, db: PortDb): (m: map<string, string>)
    ensures m != map[] ==> Truthy(OrElse(inst.entityRef, inst.componentName))
    ensures var ent := OrElse(inst.entityRef, inst.componentName);
      Truthy(ent) && ent.value in db ==>
        (forall n :: n in m <==> n in db[ent.value]) && forall n :: n in m ==> m[n] == Lower(db[ent.value][n].direction)
    ensures var ent := OrElse(inst.entityRef, inst.componentName);
      !(Truthy(ent) && ent.value in db) ==> m == map[]
  {
    var ent := OrElse(inst.entityRef, inst.componentName);
    if Truthy(ent) && ent.value in db then
      map n | n in db[ent.value] :: Lower(db[ent.value][n].direction)
    else map[]
  }

  /** `inst_port_dirs`: instance label to its target's directions; a repeated label keeps the last. */
  function InstDirs(insts: seq<Instance>, db: PortDb): map<string, map<string, string>>
    decreases |insts|
  {
    if insts == [] then map[]
    else
      var last := insts[|insts| - 1];
      InstDirs(insts[..|insts| - 1], db)[last.instLabel := TargetDirs(last, db)]
  }

  /** No later instance has the same label. */
  predicate LastWithLabel(insts: seq<Instance>, i: nat)
    requires i < |insts|
  {
    forall j :: i < j < |insts| ==> insts[j].instLabel != insts[i].instLabel
  }

  /** Every instance has an entry, and it is the target directions of the last instance with that label. */
  lemma {:induction false} InstDirsLastWins(insts: seq<Instance>, db: PortDb)
    ensures forall i :: 0 <= i < |insts| ==> insts[i].instLabel in InstDirs(insts, db)
    ensures forall i | 0 <= i < |insts| && LastWithLabel(insts, i) ::
      InstDirs(insts, db)[insts[i].instLabel] == TargetDirs(insts[i], db)
    decreases |insts|
  {
    if insts != [] {
      var init := insts[..|insts| - 1];
      InstDirsLastWins(init, db);
      forall i | 0 <= i < |insts| ensures insts[i].instLabel in InstDirs(insts, db) {
        if i < |init| { assert insts[i] == init[i]; }
      }
      forall i | 0 <= i < |insts| && LastWithLabel(insts, i)
        ensures InstDirs(insts, db)[insts[i].instLabel] == TargetDirs(insts[i], db)
      {
        if i < |init| {
          assert insts[i] == init[i];
          forall j | i < j < |init| ensures init[j].instLabel != init[i].instLabel {
            assert init[j] == insts[j];
          }
          assert LastWithLabel(init, i);
        }
      }
    }
  }

  /** The loop at the head of `build_wiring` that fills `inst_port_dirs`. */
  method InstancePortDirs(fi: FileInfo, db: PortDb) returns (m: map<string, map<string, string>>)
    ensures m == InstDirs(fi.instances, db)
  {
    m := map[];
    for i := 0 to |fi.instances|
      invariant m == InstDirs(fi.instances[..i], db)
    {
      var inst := fi.instances[i];
      var ent := if Truthy(inst.entityRef) then inst.entityRef else inst.componentName;
      if Truthy(ent) && ent.value in db {
        m := m[inst.instLabel := map n | n in db[ent.value] :: Lower(db[ent.value][n].direction)];
      } else {
        m := m[inst.instLabel := map[]];
      }
      assert fi.instances[..i + 1][..i] == fi.instances[..i];
    }
    assert fi.instances[..|fi.instances|] == fi.instances;
  }
}
