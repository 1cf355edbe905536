/**
 * The VHDL serialiser: a `.vviz.json` top-level description (an entity's
 * ports, its signals, concurrent assignments and entity instantiations)
 * written out as an entity declaration and an `rtl` architecture.
 */
module Codegen {
  import opened Wrappers
  import opened Text
  import opened Ordering

  datatype VPort = VPort(name: string, dir: string, dtype: string)

  datatype VSignal = VSignal(name: string, dtype: string)

  datatype VAssign = VAssign(target: string, expr: string)

  /**
   * An instance record. `portMap` lists the members of the JSON object in
   * document order; a repeated key keeps its last value, as `json.loads` does.
   */
  datatype VInst = VInst(id: string, entity: string, arch: Option<string>, portMap: seq<(string, string)>)

  /** The document; an absent `name` is `None`, absent lists are empty. */
  datatype Vviz = Vviz(
    name: Option<string>,
    ports: seq<VPort>,
    signals: seq<VSignal>,
    assignments: seq<VAssign>,
    instances: seq<VInst>)

  const Header: string := "library ieee;\nuse ieee.std_logic_1164.all;\n-- Add further use clauses as needed (numeric_std, etc.)\n\n"

  // ---------------------------------------------------------------------------
  // Identifiers

  /** `re.sub(r'[^A-Za-z0-9_]', '_', name)`. */
  function SanitizeIdent(name: string): (r: string)
    ensures |r| == |name|
    ensures forall i :: 0 <= i < |name| ==> r[i] == if IsWordChar(name[i]) then name[i] else '_'
  {
    seq(|name|, i requires 0 <= i < |name| => if IsWordChar(name[i]) then name[i] else '_')
  }

  /** Every character of a sanitised name is a letter, a digit or `_`. */
  lemma SanitizeIdentClean(name: string)
    ensures forall i :: 0 <= i < |SanitizeIdent(name)| ==> IsWordChar(SanitizeIdent(name)[i])
  {
  }

  /** Sanitising a name made only of letters, digits and `_` changes nothing. */
  lemma SanitizeIdentIdentity(name: string)
    requires forall i :: 0 <= i < |name| ==> IsWordChar(name[i])
    ensures SanitizeIdent(name) == name
  {
  }

  lemma SanitizeIdentIdempotent(name: string)
    ensures SanitizeIdent(SanitizeIdent(name)) == SanitizeIdent(name)
  {
    SanitizeIdentClean(name);
    SanitizeIdentIdentity(SanitizeIdent(name));
  }

  /** `sanitize_ident(v.get("name", "top_level"))`. */
  function UnitName(v: Vviz): string {
    SanitizeIdent(v.name.GetOr("top_level"))
  }

  // ---------------------------------------------------------------------------
  // The entity

  function PortRow(p: VPort): string {
    "    " + p.name + " : " + p.dir + " " + p.dtype
  }

  function PortRows(ports: seq<VPort>): (r: seq<string>)
    ensures |r| == |ports| && forall i :: 0 <= i < |ports| ==> r[i] == PortRow(ports[i])
  {
    seq(|ports|, i requires 0 <= i < |ports| => PortRow(ports[i]))
  }

  /** The lines of the entity declaration. */
  function EntityLines(v: Vviz): seq<string> {
    var name := UnitName(v);
    ["entity " + name + " is"]
    + (if v.ports != [] then ["  port (", Join(";\n", PortRows(v.ports)), "  );"] else [])
    + ["end " + name + ";\n"]
  }

  function EntityText(v: Vviz): string {
    Join("\n", EntityLines(v))
  }

  /** `gen_entity`. */
  method GenEntity(v: Vviz) returns (text: string)
    ensures text == EntityText(v)
  {
    var name := SanitizeIdent(if v.name.Some? then v.name.value else "top_level");
    var lines := ["entity " + name + " is"];
    ghost var clause: seq<string> := [];
    if |v.ports| > 0 {
      lines := lines + ["  port ("];
      var rows := GenPortRows(v.ports);
      lines := lines + [Join(";\n", rows)];
      lines := lines + ["  );"];
      clause := ["  port (", Join(";\n", rows), "  );"];
      AppendThree(["entity " + name + " is"], "  port (", Join(";\n", rows), "  );");
    }
    lines := lines + ["end " + name + ";\n"];
    assert name == UnitName(v);
    assert lines == ["entity " + name + " is"] + clause + ["end " + name + ";\n"];
    text := Join("\n", lines);
  }

  lemma AppendThree<T>(xs: seq<T>, a: T, b: T, c: T)
    ensures xs + [a] + [b] + [c] == xs + [a, b, c]
  {
  }

  /** The port rows of `gen_entity`, one per port in order. */
  method GenPortRows(ports: seq<VPort>) returns (rows: seq<string>)
    ensures rows == PortRows(ports)
  {
    rows := [];
    for i := 0 to |ports|
      invariant rows == PortRows(ports[..i])
    {
      var p := ports[i];
      rows := rows + ["    " + p.name + " : " + p.dir + " " + p.dtype];
      assert PortRows(ports[..i + 1]) == PortRows(ports[..i]) + [PortRow(p)];
    }
    assert ports[..|ports|] == ports;
  }

  /** A character of any part is a character of the join. */
  lemma {:induction false} JoinContains(sep: string, parts: seq<string>, k: nat, c: char)
    requires k < |parts| && c in parts[k]
    ensures c in Join(sep, parts)
    decreases |parts|
  {
    if |parts| > 1 {
      var init := parts[..|parts| - 1];
      assert Join(sep, parts) == Join(sep, init) + sep + parts[|parts| - 1];
      if k < |init| {
        assert init[k] == parts[k];
        JoinContains(sep, init, k, c);
      }
    }
  }

  /** The declaration has a port clause, and so a `(`, exactly when the entity has ports. */
  lemma EntityPortClause(v: Vviz)
    ensures '(' in EntityText(v) <==> v.ports != []
  {
    var lines := EntityLines(v);
    var name := UnitName(v);
    SanitizeIdentClean(v.name.GetOr("top_level"));
    if v.ports != [] {
      assert lines[1] == "  port (";
      assert '(' in lines[1];
      JoinContains("\n", lines, 1, '(');
    } else {
      assert lines == ["entity " + name + " is", "end " + name + ";\n"];
      assert '(' !in name;
      assert '(' !in lines[0] && '(' !in lines[1];
      if '(' in EntityText(v) {
        JoinChars("\n", lines, '(');
      }
    }
  }

  /** The port rows are separated by `;\n`: the clause ends with the last row, which has no semicolon of its own. */
  lemma PortRowsEnd(v: Vviz)
    requires v.ports != []
    ensures EndsWith(Join(";\n", PortRows(v.ports)), PortRow(v.ports[|v.ports| - 1]))
  {
    JoinEndsWithLast(";\n", PortRows(v.ports));
  }

  /** Without a `name`, the entity is called `top_level`. */
  lemma DefaultName(v: Vviz)
    requires v.name.None?
    ensures StartsWith(EntityText(v), "entity top_level is")
  {
    SanitizeIdentIdentity("top_level");
    var lines := EntityLines(v);
    assert UnitName(v) == "top_level";
    assert lines[0] == "entity top_level is";
    JoinStartsWithFirst("\n", lines);
  }

  // ---------------------------------------------------------------------------
  // Signals

  function SignalRow(s: VSignal): string {
    "  signal " + s.name + " : " + s.dtype + ";"
  }

  function SignalRows(sigs: seq<VSignal>): (r: seq<string>)
    ensures |r| == |sigs| && forall i :: 0 <= i < |sigs| ==> r[i] == SignalRow(sigs[i])
  {
    seq(|sigs|, i requires 0 <= i < |sigs| => SignalRow(sigs[i]))
  }

  /** `gen_signals`. */
  function GenSignals(v: Vviz): string {
    if v.signals == [] then "" else Join("\n", SignalRows(v.signals)) + "\n"
  }

  /** Empty exactly when there are no signals; otherwise one line per signal and a final newline. */
  lemma GenSignalsSpec(v: Vviz)
    ensures GenSignals(v) == "" <==> v.signals == []
    ensures v.signals != [] ==> EndsWith(GenSignals(v), "\n")
    ensures v.signals != [] ==> RTrim(GenSignals(v)) == Join("\n", SignalRows(v.signals))
  {
    if v.signals != [] {
      var rows := SignalRows(v.signals);
      var body := Join("\n", rows);
      JoinEndsWithLast("\n", rows);
      assert rows[|rows| - 1] == SignalRow(v.signals[|v.signals| - 1]);
      assert body[|body| - 1] == ';';
      RTrimNewline(body);
    }
  }

  /** `(s + "\n").rstrip()` is `s` when `s` ends in a non-space. */
  lemma RTrimNewline(s: string)
    requires |s| > 0 && !IsSpace(s[|s| - 1])
    ensures RTrim(s + "\n") == s
  {
    var t := s + "\n";
    assert SkipRight(t, 0, |t|) == SkipRight(t, 0, |s|);
    assert t[..|s|] == s;
  }

  // ---------------------------------------------------------------------------
  // Instances

  /** `pm[k]` for a key `k` of `pm`: the last value given for `k`. */
  function Lookup(pm: seq<(string, string)>, k: string): string
    decreases |pm|
  {
    if pm == [] then ""
    else if pm[|pm| - 1].0 == k then pm[|pm| - 1].1
    else Lookup(pm[..|pm| - 1], k)
  }

  /** The looked-up value was given for the key, and no later member repeats the key. */
  lemma {:induction false} LookupLast(pm: seq<(string, string)>, k: string)
    requires exists i :: 0 <= i < |pm| && pm[i].0 == k
    ensures exists i :: 0 <= i < |pm| && pm[i] == (k, Lookup(pm, k)) && forall j :: i < j < |pm| ==> pm[j].0 != k
    decreases |pm|
  {
    var init := pm[..|pm| - 1];
    if pm[|pm| - 1].0 != k {
      var i0 :| 0 <= i0 < |pm| && pm[i0].0 == k;
      assert init[i0] == pm[i0];
      LookupLast(init, k);
      var i :| 0 <= i < |init| && init[i] == (k, Lookup(init, k)) && forall j :: i < j < |init| ==> init[j].0 != k;
      assert pm[i] == init[i];
      forall j | i < j < |pm| ensures pm[j].0 != k {
        if j < |init| { assert pm[j] == init[j]; }
      }
    } else {
      assert pm[|pm| - 1] == (k, Lookup(pm, k));
    }
  }

  function KeysOf(pm: seq<(string, string)>): (r: seq<string>)
    ensures |r| == |pm| && forall i :: 0 <= i < |pm| ==> r[i] == pm[i].0
  {
    seq(|pm|, i requires 0 <= i < |pm| => pm[i].0)
  }

  /** `sorted(pm.keys())`. */
  function SortedFormals(pm: seq<(string, string)>): seq<string> {
    SortedSet(KeysOf(pm), StrLess)
  }

  /** The `formal => actual` items. */
  function MapItems(pm: seq<(string, string)>): (r: seq<string>)
    ensures |r| == |SortedFormals(pm)|
  {
    var ks := SortedFormals(pm);
    seq(|ks|, j requires 0 <= j < |ks| => ks[j] + " => " + Lookup(pm, ks[j]))
  }

  /** One item per distinct formal, in strictly increasing order of formal, each with the formal's value. */
  lemma MapItemsSpec(pm: seq<(string, string)>)
    ensures StrictlySorted(SortedFormals(pm), StrLess)
    ensures forall k :: k in SortedFormals(pm) <==> exists i :: 0 <= i < |pm| && pm[i].0 == k
    ensures forall j :: 0 <= j < |SortedFormals(pm)| ==>
      MapItems(pm)[j] == SortedFormals(pm)[j] + " => " + Lookup(pm, SortedFormals(pm)[j])
  {
    StrLessStrictTotal();
    SortedSetSpec(KeysOf(pm), StrLess);
    var ks := SortedFormals(pm);
    forall k ensures k in ks <==> exists i :: 0 <= i < |pm| && pm[i].0 == k {
      if k in ks {
        var i :| 0 <= i < |pm| && KeysOf(pm)[i] == k;
      }
    }
  }

  /** The instantiation head: sanitised label, `entity work.<ent>`, and `(<arch>)` when `arch` is truthy. */
  function InstHead(i: VInst): string {
    "  " + SanitizeIdent(i.id) + " : entity work." + i.entity + (if Truthy(i.arch) then "(" + i.arch.value + ")" else "")
  }

  /** `gen_inst`. */
  function GenInst(i: VInst): string {
    InstHead(i) + "\n" + "    port map (\n      " + Join(",\n      ", MapItems(i.portMap)) + "\n    );"
  }

  /** An architecture name is appended exactly when it is truthy. */
  lemma InstHeadArch(i: VInst)
    ensures var plain := "  " + SanitizeIdent(i.id) + " : entity work." + i.entity;
      && StartsWith(InstHead(i), plain)
      && (Truthy(i.arch) ==> InstHead(i) == plain + "(" + i.arch.value + ")")
      && (!Truthy(i.arch) ==> InstHead(i) == plain)
  {
    var plain := "  " + SanitizeIdent(i.id) + " : entity work." + i.entity;
    assert InstHead(i)[..|plain|] == plain;
  }

  // ---------------------------------------------------------------------------
  // The architecture

  function AssignLine(a: VAssign): string {
    "  " + a.target + " <= " + a.expr + ";"
  }

  function AssignLines(assigns: seq<VAssign>): (r: seq<string>)
    ensures |r| == |assigns| && forall i :: 0 <= i < |assigns| ==> r[i] == AssignLine(assigns[i])
  {
    seq(|assigns|, i requires 0 <= i < |assigns| => AssignLine(assigns[i]))
  }

  function InstBlocks(insts: seq<VInst>): (r: seq<string>)
    ensures |r| == |insts| && forall i :: 0 <= i < |insts| ==> r[i] == GenInst(insts[i])
  {
    seq(|insts|, i requires 0 <= i < |insts| => GenInst(insts[i]))
  }

  /** The lines of the architecture body. */
  function ArchLines(v: Vviz): seq<string> {
    var sigs := GenSignals(v);
    ["architecture rtl of " + UnitName(v) + " is"]
    + (if sigs != "" then [RTrim(sigs)] else [])
    + ["begin"] + AssignLines(v.assignments) + InstBlocks(v.instances) + ["end rtl;"]
  }

  function ArchText(v: Vviz): string {
    Join("\n", ArchLines(v))
  }

  lemma AssignLinesStep(assigns: seq<VAssign>, i: nat)
    requires i < |assigns|
    ensures AssignLines(assigns[..i + 1]) == AssignLines(assigns[..i]) + [AssignLine(assigns[i])]
  {
  }

  lemma InstBlocksStep(insts: seq<VInst>, i: nat)
    requires i < |insts|
    ensures InstBlocks(insts[..i + 1]) == InstBlocks(insts[..i]) + [GenInst(insts[i])]
  {
  }

  /** The `for a in v["assignments"]` loop. */
  method AppendAssignLines(lines0: seq<string>, assigns: seq<VAssign>) returns (lines: seq<string>)
    ensures lines == lines0 + AssignLines(assigns)
  {
    lines := lines0;
    for i := 0 to |assigns|
      invariant lines == lines0 + AssignLines(assigns[..i])
    {
      var a := assigns[i];
      lines := lines + ["  " + a.target + " <= " + a.expr + ";"];
      AssignLinesStep(assigns, i);
    }
    assert assigns[..|assigns|] == assigns;
  }

  /** The `for i in v["instances"]` loop. */
  method AppendInstBlocks(lines0: seq<string>, insts: seq<VInst>) returns (lines: seq<string>)
    ensures lines == lines0 + InstBlocks(insts)
  {
    lines := lines0;
    for i := 0 to |insts|
      invariant lines == lines0 + InstBlocks(insts[..i])
    {
      lines := lines + [GenInst(insts[i])];
      InstBlocksStep(insts, i);
    }
    assert insts[..|insts|] == insts;
  }

  /** `gen_architecture`. */
  method GenArchitecture(v: Vviz) returns (text: string)
    ensures text == ArchText(v)
  {
    var name := SanitizeIdent(if v.name.Some? then v.name.value else "top_level");
    var lines := ["architecture rtl of " + name + " is"];
    var sigs := GenSignals(v);
    ghost var decls: seq<string> := [];
    if sigs != "" {
      lines := lines + [RTrim(sigs)];
      decls := [RTrim(sigs)];
    }
    lines := lines + ["begin"];
    ghost var head := lines;
    assert head == ["architecture rtl of " + name + " is"] + decls + ["begin"];
    lines := AppendAssignLines(lines, v.assignments);
    lines := AppendInstBlocks(lines, v.instances);
    lines := lines + ["end rtl;"];
    assert name == UnitName(v);
    assert lines == head + AssignLines(v.assignments) + InstBlocks(v.instances) + ["end rtl;"];
    text := Join("\n", lines);
  }

  /**
   * Between `begin` and `end rtl;` come the assignments, then the instance
   * blocks, each in input order; the signal declarations, if any, come before `begin`.
   */
  lemma ArchLayout(v: Vviz)
    ensures var lines := ArchLines(v);
      var b := if v.signals == [] then 1 else 2;
      && |lines| == b + 2 + |v.assignments| + |v.instances|
      && lines[b] == "begin"
      && (v.signals != [] ==> lines[1] == Join("\n", SignalRows(v.signals)))
      && (forall i :: 0 <= i < |v.assignments| ==> lines[b + 1 + i] == AssignLine(v.assignments[i]))
      && (forall j :: 0 <= j < |v.instances| ==> lines[b + 1 + |v.assignments| + j] == GenInst(v.instances[j]))
      && lines[|lines| - 1] == "end rtl;"
  {
    GenSignalsSpec(v);
  }

  // ---------------------------------------------------------------------------
  // The whole file

  function VhdlText(v: Vviz): string {
    Header + EntityText(v) + ArchText(v) + "\n"
  }

  /** `vviz_to_vhdl`. */
  method VvizToVhdl(v: Vviz) returns (text: string)
    ensures text == Header + EntityText(v) + ArchText(v) + "\n"
  {
    var entity := GenEntity(v);
    var arch := GenArchitecture(v);
    text := Header + entity + arch + "\n";
  }

  /** The file opens with the library header and closes the architecture on its last line. */
  lemma VhdlFrame(v: Vviz)
    ensures StartsWith(VhdlText(v), Header)
    ensures EndsWith(VhdlText(v), "end rtl;\n")
  {
    var e, a := EntityText(v), ArchText(v);
    ArchTextEnd(v);
    Framed(Header, e, a, "end rtl;", "\n");
    assert "end rtl;" + "\n" == "end rtl;\n";
  }

  lemma ArchTextEnd(v: Vviz)
    ensures EndsWith(ArchText(v), "end rtl;")
  {
    var lines := ArchLines(v);
    assert lines[|lines| - 1] == "end rtl;";
    JoinEndsWithLast("\n", lines);
  }

  lemma Framed(h: string, e: string, a: string, suffix: string, c: string)
    requires EndsWith(a, suffix)
    ensures StartsWith(h + e + a + c, h) && EndsWith(h + e + a + c, suffix + c)
  {
    StartsWithAppend(h, e + a + c);
    assert h + e + a + c == h + (e + a + c);
    EndsWithAppend(h + e, a, suffix, c);
  }
}
