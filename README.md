# VHDL connectivity, code generation and project graph — a Dafny model

This project models the logic at the centre of a small VHDL
extractor/visualiser:

- **Pin-level wiring** (`wiring.py`). One parsed design unit is turned into a
  node/edge graph. Port-map actuals are classified (`open`, `const`,
  `signal`, `eport`, `expr`) and collected into nets in an insertion-ordered
  dictionary. Port, instance, const and expr nodes are materialised. Each
  net's endpoints are split into drivers, sinks and unknowns by declared
  direction. Every net is then wired through a hub, as a full bipartite
  driver→sink connection, or as a deduplicated chain. Edges are numbered
  `e0`, `e1`, … and each (source, target) group gets bundle indices.
- **VHDL serialiser** (`codegen.py`). A `.vviz` description becomes VHDL
  text: identifiers are sanitised, the port clause is optional, port maps
  are sorted, and the architecture lists assignments before instances.
- **Project graph** (`vhdlviz.py`). `Project.add_file`, the entity→file
  map filled by `build_project`, and `project_to_model`, which builds the
  per-file records and the entity-level and file-level dependency graphs.

Module layout:

| file | module | what it holds |
|---|---|---|
| wrappers.dfy | Wrappers | `Option`, plus Python truthiness and `a or b` on optional strings |
| text.dfy | Text | `strip`, `rstrip`, `strip(chars)`, `lower`, `index`, `join`, `isidentifier`, decimal digits |
| ordering.dfy | Ordering | lexicographic order and `sorted(set(...))` |
| dicts.dfy | Dicts | an insertion-ordered dictionary (`keys` plus `entries`) |
| design.dfy | Design | the design-unit records: ports, signals, instances, assignments, the port database |
| classify.dfy | Classify | `_strip_outer_parens`, `_split_base_slice`, `_classify_actual`, `_port_dir_map_for_entity` |
| nets.dfy | Nets | net collection through `add_ep`; instance port directions |
| topology.dfy | Topology | driver/sink partition, hub / bipartite / chain wiring |
| bundles.dfy | Bundles | `add_edge`, edge ids, bundle grouping and indices |
| wiring.dfy | Wiring | node inventory, the per-net loop, `build_wiring` |
| codegen.dfy | Codegen | the VHDL text generator |
| project.dfy | Projects | `Port`, `Project`, `build_project`'s entity map, `project_to_model` |

Loops and dictionary updates in the source are modelled as Dafny methods
with `while` loops. Each is proved equal to a specification function, and
the properties are proved about those functions as lemmas. `Project` is a
class whose `files` and `entityToFile` dictionaries its methods reassign.

## Model

| member | source | states |
|---|---|---|
| Classify.StripParens | wiring.py:7-18 | the result of paren stripping never has whitespace at either end |
| Classify.ScanBalanced | wiring.py:10-15 | the depth scan reports success exactly when the depth never goes negative and ends at zero |
| Classify.StripOuterParens | wiring.py:7-18 | the loop computes the paren-stripping function, whose properties follow |
| Classify.StripParensIdempotent | wiring.py:7-18 | stripping outer parentheses twice gives the same result as once |
| Classify.StripParensInfix | wiring.py:7-18 | the result is a contiguous substring of the input |
| Classify.StripParensIrreducible | wiring.py:9-17 | the result is never both wrapped in `(`…`)` and balanced, so the loop has nothing left to remove |
| Classify.StripParensOnlyBalanced | wiring.py:9-16 | anything beyond trimming happens only when the trimmed text is wrapped in `(`…`)` and balanced |
| Classify.StripParensOfTrim | wiring.py:8 | stripping whitespace first changes nothing |
| Classify.StripParensStep | wiring.py:16 | a trimmed, wrapped, balanced string strips to the result for its inner text |
| Classify.StripParensStop | wiring.py:17 | a trimmed string that is not wrapped and balanced is returned unchanged |
| Classify.SplitBaseSlice | wiring.py:20-27 | a slice comes back exactly when the trimmed text holds `(`, ends with `)` and its trimmed prefix before the first `(` is an identifier, which is then the base; otherwise the trimmed text comes back alone |
| Classify.SplitBaseSliceRebuilds | wiring.py:22-26 | when a slice is found, the trimmed input is the base, `(`, the slice and `)`, with only whitespace in between |
| Classify.ClassifyActual | wiring.py:29-50 | the label is always the paren-stripped text; kind `open` exactly for `open` in any case; a bundle base exactly for `signal` and `eport` |
| Classify.ClassifyActualCases | wiring.py:36-50 | const exactly for literals; signal when the base is a declared signal; eport when it is a port but not a signal; expr otherwise; the bundle base is the split base |
| Classify.PortDirMapLastWins | wiring.py:4-5 | every port name is a key; each key maps to the lowercased direction of the last port with that name |
| Classify.RoleOf | wiring.py:149-151 | `out`/`buffer` gives a driver, `in` a sink, anything else unknown |
| Nets.AggregateGroups | wiring.py:74-77 | the nets dictionary's keys are the distinct keys in first-call order; each net keeps the first call's label and bundle base and all endpoints for its key, in call order |
| Nets.AggregateKeys | wiring.py:74-77 | keys are in first-insertion order and present exactly for keys that were added |
| Nets.AggregateEntry | wiring.py:74-77 | the entry for a key is the first call's label and base with that key's endpoints |
| Nets.EndpointsForAbsent | wiring.py:74-77 | a key never added has no endpoints |
| Nets.PinCall | wiring.py:81-92 | an actual adds no endpoint exactly when it is `open`; otherwise one `inst` endpoint for (instance label, formal) goes to net `kind::label` with the classification's base |
| Nets.PinCallsCount | wiring.py:81-92 | an instance adds one endpoint per port-map entry that is not open |
| Nets.PinCallsComplete | wiring.py:81-92 | every non-open port-map entry's endpoint is added |
| Nets.PinCallsSound | wiring.py:81-92 | every endpoint added comes from one port-map entry and names that instance |
| Nets.InstanceCallsArePins | wiring.py:80-92 | instance port maps only add `inst` endpoints |
| Nets.NoConstEndpoints | wiring.py:72-103 | no net ever holds a `const` endpoint, so the const branch of the partition is dead |
| Nets.CollectPins | wiring.py:81-92 | the inner port-map loop extends the nets as the pin calls specify |
| Nets.CollectNets | wiring.py:72-103 | the three collection loops build the nets of the instance, port and assignment calls, in that order |
| Nets.TargetDirs | wiring.py:58-62 | a known target gives exactly its ports with lowercased directions; a missing or unknown target gives no directions |
| Nets.InstDirsLastWins | wiring.py:57-62 | every instance label gets an entry; a repeated label keeps the last instance's directions |
| Nets.InstancePortDirs | wiring.py:56-62 | the loop builds that per-instance direction map |
| Topology.EntityPortRole | wiring.py:147-151 | an entity port is a driver exactly when declared `out`/`buffer` and a sink exactly when `in`, on node `port::<name>` |
| Topology.UnknownTargetPins | wiring.py:152-156 | a pin of an instance with no known directions is unknown |
| Topology.AbsentTargetPinsUnknown | wiring.py:57-62 | an instance whose `entity_ref`/`component_name` is missing from the port database has every pin unknown, unless a later instance reuses its label |
| Topology.Partition | wiring.py:144-160 | the partition loop yields the driver, sink and unknown pins in endpoint order |
| Topology.PartitionCount | wiring.py:146-160 | the driver, sink and unknown lists together hold one pin per endpoint |
| Topology.PartitionMembers | wiring.py:146-160 | a pin is in a role's list exactly when some endpoint resolves to that role and pin |
| Topology.SmallNetsNeedNoHub | wiring.py:163-192 | a net with at most two pins, at most one of them a driver, gets no hub and is drawn as the full connection or the chain |
| Topology.IntoHub | wiring.py:173-174 | one edge into the hub per input pin, carrying its pin as source pin |
| Topology.OutOfHub | wiring.py:175-176 | one edge out of the hub per output pin, carrying its pin as target pin |
| Topology.HubWiresShape | wiring.py:171-176 | every hub edge touches the hub; each driver feeds it; when there is a driver or unknown, each sink is fed |
| Topology.HubSinksOnly | wiring.py:175 | a hub with only sinks gets no edges at all |
| Topology.HubSkipsFirstUnknown | wiring.py:173-176 | with drivers and no sinks, the first unknown is not fed from the hub |
| Topology.BipartiteSpec | wiring.py:179-182 | exactly drivers × sinks edges, and an edge is present exactly when it runs from some driver to some sink |
| Topology.NoHubFullConnection | wiring.py:177-182 | a net drawn without a hub that has drivers and sinks gets exactly the driver-to-sink pairs, |drivers| × |sinks| edges |
| Topology.DedupSpec | wiring.py:184-190 | deduplication keeps each pin once and keeps exactly the pins of the input |
| Topology.Unique | wiring.py:186-190 | the `seen`-set loop computes that deduplication |
| Topology.Links | wiring.py:191-192 | a chain of n pins has n − 1 edges |
| Topology.LinksJoin | wiring.py:191-192 | edge i joins pin i to pin i + 1 |
| Topology.ChainSpec | wiring.py:183-192 | the chain has one edge fewer than the distinct pins, and links only pins of the net |
| Bundles.DecimalInjective | wiring.py:133 | distinct numbers have distinct decimal texts |
| Bundles.EdgeIdInjective | wiring.py:133 | distinct edge numbers give distinct edge ids |
| Bundles.MetaBoth | wiring.py:137 | with both pins the tooltip is `src → dst` |
| Bundles.MetaSourceOnly | wiring.py:137 | with only a source pin the arrow is stripped away |
| Bundles.MetaTargetOnly | wiring.py:137 | with only a target pin the arrow is stripped away |
| Bundles.EdgeBase | wiring.py:138 | an edge's base is the base it is given when that is non-empty, else the net label |
| Bundles.AddEdges | wiring.py:131-139 | emitted edges are appended after the existing ones, one per wire, numbered by position |
| Bundles.AddEdgesIds | wiring.py:133 | if every edge so far is `e<position>`, so is every edge afterwards |
| Bundles.EmitEdges | wiring.py:131-139 | the `add_edge` loop appends exactly those edges |
| Bundles.IndicesSpec | wiring.py:196-198 | a group's index list holds exactly the positions with that key, in increasing order |
| Bundles.RankOfIndex | wiring.py:199-203 | the edge at the p-th index of a group gets bundle index p |
| Bundles.RankOrder | wiring.py:201-203 | within a group, a later edge has a larger bundle index |
| Bundles.BundleSpec | wiring.py:199-203 | each bundle index is below its count; same-key edges share the count and their indices increase in emission order; the count is the group size |
| Bundles.GroupEdges | wiring.py:195-198 | the `setdefault` loop holds a group exactly for each (source, target) present, listing its positions |
| Bundles.StampGroup | wiring.py:200-203 | one group's edges are stamped with count and index, and nothing else changes |
| Bundles.AssignBundles | wiring.py:195-203 | every edge keeps its fields and gains the bundle count and index of its position |
| Wiring.PortKind | wiring.py:112 | a port node is `entity_in` exactly for `in`, `entity_out` exactly for `out`/`buffer`, else `entity_bi` |
| Wiring.InstTarget | wiring.py:117 | an instance's title names the entity reference, else the component name, else `?` |
| Wiring.PortNodes | wiring.py:111-113 | one port node per entity port, in order |
| Wiring.InstNodes | wiring.py:116-118 | one instance node per instance, in order |
| Wiring.AuxNodesSpec | wiring.py:121-126 | every const net and every expr net with a port or pin endpoint gets its node, and every const or expr node comes from such a net |
| Wiring.AddHub | wiring.py:168-169 | after the call the hub node is present, and the node list only grew by at most that node at its end |
| Wiring.AddHubOnce | wiring.py:168-169 | the hub node is added only when missing; other ids are unaffected |
| Wiring.HubsUnique | wiring.py:164-169 | in the final graph each hub id `net::<label>` occurs at most once |
| Wiring.EdgeIds | wiring.py:131-139 | the final edges are `e0`, `e1`, … in order, and all distinct |
| Wiring.BundledSpec | wiring.py:194-203 | bundling only adds bundle data, with counts equal to group sizes and increasing indices within a group |
| Wiring.EdgeBundles | wiring.py:194-203 | in the final graph every edge has an index below its group's count, the count is the group size, and indices increase in emission order |
| Wiring.AddPortNodes | wiring.py:111-113 | the port loop appends the port nodes |
| Wiring.AddInstNodes | wiring.py:116-118 | the instance loop appends the instance nodes |
| Wiring.AddAuxNodes | wiring.py:121-126 | the net loop appends the const and expr nodes in net order |
| Wiring.AuxNodesFor | wiring.py:122-126 | one net contributes its const or expr node |
| Wiring.WireNet | wiring.py:143-192 | one pass of the per-net loop: partition, optional hub, then hub, bipartite or chain edges |
| Wiring.WireNets | wiring.py:142-192 | the per-net loop wires the nets in dictionary order |
| Wiring.BuildWiring | wiring.py:52-205 | the whole builder returns the wiring graph whose properties are the lemmas above |
| Codegen.SanitizeIdent | codegen.py:16-18 | same length; each character outside `[A-Za-z0-9_]` becomes `_` and the rest are kept |
| Codegen.SanitizeIdentClean | codegen.py:18 | the result holds only `[A-Za-z0-9_]` |
| Codegen.SanitizeIdentIdentity | codegen.py:18 | a name of `[A-Za-z0-9_]` characters is unchanged |
| Codegen.SanitizeIdentIdempotent | codegen.py:18 | sanitising twice equals sanitising once |
| Codegen.PortRows | codegen.py:27-28 | one row per port, in order |
| Codegen.GenPortRows | codegen.py:26-28 | the row loop builds those rows |
| Codegen.GenEntity | codegen.py:20-32 | the line-appending body builds the entity text: the declaration, the optional port clause, then the end line |
| Codegen.EntityPortClause | codegen.py:24-30 | the entity text has a `port (` clause exactly when there are ports |
| Codegen.PortRowsEnd | codegen.py:29 | the joined rows end with the last port row, with no trailing semicolon |
| Codegen.DefaultName | codegen.py:21 | with no name, the entity is `top_level` |
| Codegen.SignalRows | codegen.py:37 | one `signal` row per signal, in order |
| Codegen.GenSignalsSpec | codegen.py:34-38 | empty exactly when there are no signals; otherwise it ends in a newline and is the rows joined by newlines |
| Codegen.RTrimNewline | codegen.py:61 | `rstrip` removes just the trailing newline from the signal block |
| Codegen.LookupLast | codegen.py:52 | a formal's actual is the one from its last occurrence in the port map |
| Codegen.MapItemsSpec | codegen.py:50-53 | one `formal => actual` item per distinct formal, sorted strictly by formal |
| Codegen.InstHeadArch | codegen.py:45-49 | the head is `<sanitised label> : entity work.<ent>`, with `(<arch>)` exactly when `arch` is truthy |
| Codegen.AssignLines | codegen.py:64-65 | one assignment line per assignment, in order |
| Codegen.InstBlocks | codegen.py:67-68 | one instance block per instance, in order |
| Codegen.AppendAssignLines | codegen.py:64-65 | the assignment loop appends those lines |
| Codegen.AppendInstBlocks | codegen.py:67-68 | the instance loop appends those blocks |
| Codegen.GenArchitecture | codegen.py:56-70 | the line-appending body builds the architecture text |
| Codegen.ArchLayout | codegen.py:58-69 | the header, then optional signals, then `begin`, then assignments, then instances in input order, then `end rtl;` |
| Codegen.ArchTextEnd | codegen.py:69-70 | the architecture text ends with `end rtl;` |
| Codegen.VvizToVhdl | codegen.py:72-73 | the output is exactly header, entity text, architecture text and a newline |
| Codegen.VhdlFrame | codegen.py:72-73 | the output starts with the library header and ends with `end rtl;` and a newline |
| Projects.MakePort | vhdlviz.py:59-63 | name and type are kept, and the direction is stored lowercased |
| Projects.MakePortLowerIdempotent | vhdlviz.py:62 | building a port from a stored direction changes nothing |
| Projects.Project.constructor | vhdlviz.py:93-95 | a new project has no files and no entities |
| Projects.Project.AddFile | vhdlviz.py:97-101 | a known key returns its existing record and changes nothing; a new key appends exactly one fresh entry |
| Projects.SortedPathsSpec | vhdlviz.py:231 | the file list is strictly sorted with the same members: sorted and deduplicated |
| Projects.RecordEntitiesSpec | vhdlviz.py:236-237 | after recording a file's entities every name is mapped to that file; other names are unchanged |
| Projects.EntityFilesLastWins | vhdlviz.py:233-237 | every defined entity is mapped, to the last file in sorted order that defines it |
| Projects.EntityFilesDefined | vhdlviz.py:233-237 | every entity defined by some file is a key of the entity map |
| Projects.EntityFilesLast | vhdlviz.py:233-237 | each key is mapped to the last file that defines it |
| Projects.RecordFileEntities | vhdlviz.py:236-237 | the inner loop records the file for each of its entities |
| Projects.BuildProject | vhdlviz.py:220-239 | the project holds the sorted files and their entity map |
| Projects.EntityRecords | vhdlviz.py:257-261 | each file record lists its entities with all ports in declaration order |
| Projects.InstanceEdges | vhdlviz.py:281-290 | the instance loop emits the entity and file edges of its sites |
| Projects.ArchitectureEdges | vhdlviz.py:263-290 | the architecture loop keeps every record and emits its instances' edges in order |
| Projects.FileEntry | vhdlviz.py:251-292 | one file gives its record and its edges |
| Projects.FileLoop | vhdlviz.py:250-292 | the file loop gives every record and edge in file, architecture, instance order |
| Projects.EntityNodeList | vhdlviz.py:295-296 | the node loop lists the entity nodes |
| Projects.EntityNodes | vhdlviz.py:295-296 | one entity node per entity-map key, in map order, with its file |
| Projects.BaseName | vhdlviz.py:305 | the file label is the whole text after the last `/` of the path (all of it when there is none) |
| Projects.FileNodes | vhdlviz.py:305 | one file node per file key, labelled with its base name |
| Projects.ProjectToModel | vhdlviz.py:243-308 | the method builds the project model whose properties are the lemmas that follow |
| Projects.ArchSitesMembers | vhdlviz.py:263-281 | the instance sites are exactly the instances of the file's architectures, tagged with their `of_entity` |
| Projects.FileSitesMembers | vhdlviz.py:250-281 | the sites of the whole project are exactly those of its files |
| Projects.EntityEdgesMembers | vhdlviz.py:281-285 | an entity edge exists exactly for a site with a non-empty target, from `of_entity` to the target, tagged with the file |
| Projects.EntityEdgesCount | vhdlviz.py:281-285 | there is one entity edge per site with a non-empty target |
| Projects.FileEdgesMembers | vhdlviz.py:287-290 | a file edge exists exactly when the target entity is mapped to a non-empty file other than the current one |
| Projects.FileRecordsSpec | vhdlviz.py:250-292 | one record per file key, in order, with that file's entities and architectures |
| Projects.ModelNodes | vhdlviz.py:294-305 | exactly one file record and file node per file; exactly one entity node per entity-map key |
| Projects.ModelEdges | vhdlviz.py:280-290 | no file edge is a self-loop and each goes to the file its entity is mapped to; every entity edge comes from an instance in an architecture of its file |

## Left out

- Regex extraction (`parse_file_regex`, the `RE_*` patterns, `patterns.py`, `parser.py`): a parsed file is a function parameter, `parse: Path -> SourceFile`, or a `FileInfo` value.
- File-system and process I/O: reading files, `rglob`, the `is_file` and suffix filtering in `build_project`, HTML export, the embedded viewer, `visualize.py`, `main` and JSON loading. `build_project` takes the already collected VHDL file list.
- `Path.resolve()` is a function parameter, `resolve: Path -> string`. Paths are compared as sequences of path components.
- `try_parse_with_hdlconvertor`: a foreign library that only returns a flag.
- The JSON shape of the project model (dict keys, `asdict`) is not modelled. The records are datatypes with the same fields.
- The `file` fields of `Entity` and `Architecture` are not modelled. `FileInfo.entities` is a sequence of entity values, in dictionary insertion order.
- `model.py` records are datatypes. The design unit has an explicit `assignments` sequence, which `wiring.py:100` reads but `FileInfo` does not declare.
- Text.Lower: only ASCII letters are lowercased; Python's `str.lower` also folds non-ASCII letters.
- Text.IsIdentifier: approximates Python's Unicode `str.isidentifier` as an ASCII letter or `_` followed by ASCII letters, digits or `_`.
- Projects.BaseName: models `Path(f).name` as the text after the last `/`; resolved keys never end in `/`.
- The model does not claim that every edge endpoint is an existing node. The code does not guarantee it: a `sig::` net links `expr::<text>` ids that only `expr::` nets materialise.
- The `const` endpoint branch of the partition (`wiring.py:159-160`) is not modelled as reachable. Nets.NoConstEndpoints proves no net holds such an endpoint.
- Topology.DedupSpec: states that the chain is deduplicated and has the same members, not that it keeps first-occurrence order. The order is fixed by the definition `Dedup`, which the method is proved equal to.
- The `.vviz` document: a JSON `null` for `name`, `assignments` or `instances` is not modelled. The code raises a `TypeError` on it (`codegen.py:18`, `codegen.py:64`, `codegen.py:67`). An absent `name` is `None` and becomes `top_level`; absent lists are empty.
- Dictionary iteration order is insertion order. `Dict` keeps the key list alongside the map.

## Entity-port polarity

An entity port declared `out` or `buffer` is a driver on its net, and a
port declared `in` is a sink (`wiring.py:149-150`): polarity is read from
the point of view of a caller of the unit. Topology.EntityPortRole states
it.
