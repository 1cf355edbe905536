/**
 * The project layer of the extractor: the `Project` object that records
 * every parsed file by its resolved path and every entity by the file that
 * defines it, and `project_to_model`, which turns a project into file records
 * plus an entity-level and a file-level dependency graph.
 */
module Projects {
  import opened Wrappers
  import opened Text
  import opened Ordering
  import opened Dicts

  /** A filesystem path as the tuple of its parts, which is how `pathlib` orders paths. */
  type Path = seq<string>

  /** A declared port; `Port.__init__` stores the direction lower-cased. */
  datatype Port = Port(name: string, direction: string, typeStr: string)

  function MakePort(name: string, direction: string, typeStr: string): (p: Port)
    ensures p.name == name && p.typeStr == typeStr
    ensures |p.direction| == |direction|
    ensures forall i :: 0 <= i < |direction| ==> p.direction[i] == LowerChar(direction[i])
    ensures p.direction == Lower(direction)
  {
    Port(name, Lower(direction), typeStr)
  }

  /** Creating a port from an already lower-case direction keeps it. */
  lemma MakePortLowerIdempotent(name: string, direction: string, typeStr: string)
    ensures MakePort(name, MakePort(name, direction, typeStr).direction, typeStr) == MakePort(name, direction, typeStr)
  {
    var d := Lower(direction);
    assert Lower(d) == d by {
      forall i | 0 <= i < |d| ensures Lower(d)[i] == d[i] {
        assert LowerChar(LowerChar(direction[i])) == LowerChar(direction[i]);
      }
    }
  }

  datatype Entity = Entity(name: string, ports: seq<Port>)

  /** An instantiation inside an architecture; `target` is the component or entity name. */
  datatype Instance = Instance(instLabel: string, kind: string, target: string, portMap: seq<(string, string)>)

  datatype Architecture = Architecture(name: string, ofEntity: string, signals: seq<(string, string)>,
                                       instances: seq<Instance>)

  /** One parsed file; `entities` lists the values of the file's entity dictionary, in its order. */
  datatype SourceFile = SourceFile(path: Path, entities: seq<Entity>, architectures: seq<Architecture>)

  /** `FileInfo(path)`: a file with nothing recorded yet. */
  function NewFile(path: Path): SourceFile {
    SourceFile(path, [], [])
  }

  class Project {
    /** Resolved path to the parsed file. */
    var files: Dict<string, SourceFile>
    /** Entity name to the resolved path of the file that defines it. */
    var entityToFile: Dict<string, string>

    ghost predicate Valid()
      reads this
    {
      files.Valid() && entityToFile.Valid()
    }

    constructor()
      ensures Valid() && files.keys == [] && entityToFile.keys == []
    {
      files := Empty();
      entityToFile := Empty();
    }

    /** `add_file`: the file under the resolved key, inserting a new one only if the key is absent. */
    method AddFile(path: Path, resolve: Path -> string) returns (fi: SourceFile)
      requires Valid()
      modifies this
      ensures Valid()
      ensures entityToFile == old(entityToFile)
      ensures resolve(path) in old(files.entries) ==>
        files == old(files) && fi == old(files.entries[resolve(path)])
      ensures resolve(path) !in old(files.entries) ==>
        files.keys == old(files.keys) + [resolve(path)]
        && files.entries == old(files.entries)[resolve(path) := NewFile(path)]
        && fi == NewFile(path)
    {
      var key := resolve(path);
      if key !in files.entries {
        files := Put(files, key, NewFile(path));
      }
      fi := files.entries[key];
    }
  }

  // ---------------------------------------------------------------------------
  // build_project

  /** `sorted(set(vhdl_files))`. */
  function SortedPaths(paths: seq<Path>): seq<Path> {
    SortedSet(paths, PathLess)
  }

  /** The input files are visited once each, in increasing path order. */
  lemma SortedPathsSpec(paths: seq<Path>)
    ensures StrictlySorted(SortedPaths(paths), PathLess)
    ensures forall p :: p in SortedPaths(paths) <==> p in paths
  {
    PathLessStrictTotal();
    SortedSetSpec(paths, PathLess);
  }

  /** `proj.files` after the files `fs` are parsed in order. */
  function FilesOf(fs: seq<Path>, resolve: Path -> string, parse: Path -> SourceFile): (r: Dict<string, SourceFile>)
    ensures r.Valid()
    decreases |fs|
  {
    if fs == [] then Empty()
    else
      var f := fs[|fs| - 1];
      Put(FilesOf(fs[..|fs| - 1], resolve, parse), resolve(f), parse(f))
  }

  /** The entities of one file recorded against its resolved path, in dictionary order. */
  function RecordEntities(m: Dict<string, string>, ents: seq<Entity>, file: string): (r: Dict<string, string>)
    requires m.Valid()
    ensures r.Valid()
    decreases |ents|
  {
    if ents == [] then m
    else Put(RecordEntities(m, ents[..|ents| - 1], file), ents[|ents| - 1].name, file)
  }

  /** `proj.entity_to_file` after the files `fs` are parsed in order. */
  function EntityFiles(fs: seq<Path>, resolve: Path -> string, parse: Path -> SourceFile): (r: Dict<string, string>)
    ensures r.Valid()
    decreases |fs|
  {
    if fs == [] then Empty()
    else
      var f := fs[|fs| - 1];
      RecordEntities(EntityFiles(fs[..|fs| - 1], resolve, parse), parse(f).entities, resolve(f))
  }

  /** Recording a file's entities maps each of them to that file and leaves the other names alone. */
  lemma {:induction false} RecordEntitiesSpec(m: Dict<string, string>, ents: seq<Entity>, file: string)
    requires m.Valid()
    ensures forall n :: n in RecordEntities(m, ents, file).entries <==> n in m.entries || exists e :: e in ents && e.name == n
    ensures forall n :: n in RecordEntities(m, ents, file).entries ==>
      RecordEntities(m, ents, file).entries[n] == if exists e :: e in ents && e.name == n then file else m.entries[n]
    decreases |ents|
  {
    if ents != [] {
      var init := ents[..|ents| - 1];
      RecordEntitiesSpec(m, init, file);
      assert forall e :: e in ents <==> e in init || e == ents[|ents| - 1];
    }
  }

  /** `RecordEntitiesSpec` for one name. */
  lemma {:induction false} RecordEntitiesAt(m: Dict<string, string>, ents: seq<Entity>, file: string, n: string)
    requires m.Valid()
    ensures n in RecordEntities(m, ents, file).entries <==> n in m.entries || exists e :: e in ents && e.name == n
    ensures n in RecordEntities(m, ents, file).entries ==>
      RecordEntities(m, ents, file).entries[n] == if exists e :: e in ents && e.name == n then file else m.entries[n]
    decreases |ents|
  {
    if ents != [] {
      var init := ents[..|ents| - 1];
      RecordEntitiesAt(m, init, file, n);
      assert forall e :: e in ents <==> e in init || e == ents[|ents| - 1];
    }
  }

  /** The file `fs[i]` defines an entity called `n`. */
  predicate Defines(fs: seq<Path>, parse: Path -> SourceFile, i: nat, n: string)
    requires i < |fs|
  {
    exists e :: e in parse(fs[i]).entities && e.name == n
  }

  /**
   * An entity name maps to the last file in visiting order that defines it,
   * and every defined name is mapped.
   */
  lemma EntityFilesLastWins(fs: seq<Path>, resolve: Path -> string, parse: Path -> SourceFile)
    ensures forall i, n :: 0 <= i < |fs| && Defines(fs, parse, i, n) ==> n in EntityFiles(fs, resolve, parse).entries
    ensures forall n :: n in EntityFiles(fs, resolve, parse).entries ==>
      exists i :: 0 <= i < |fs| && Defines(fs, parse, i, n)
        && EntityFiles(fs, resolve, parse).entries[n] == resolve(fs[i])
        && forall j :: i < j < |fs| ==> !Defines(fs, parse, j, n)
  {
    EntityFilesDefined(fs, resolve, parse);
    EntityFilesLast(fs, resolve, parse);
    forall n | n in EntityFiles(fs, resolve, parse).entries
      ensures exists i :: (0 <= i < |fs| && Defines(fs, parse, i, n)
        && EntityFiles(fs, resolve, parse).entries[n] == resolve(fs[i])
        && forall j :: i < j < |fs| ==> !Defines(fs, parse, j, n))
    {
      assert LastDefiner(fs, resolve, parse, n);
    }
  }

  /** Every name some file defines is mapped. */
  lemma {:induction false} EntityFilesDefined(fs: seq<Path>, resolve: Path -> string, parse: Path -> SourceFile)
    ensures forall i, n :: 0 <= i < |fs| && Defines(fs, parse, i, n) ==> n in EntityFiles(fs, resolve, parse).entries
    decreases |fs|
  {
    if fs != [] {
      var init := fs[..|fs| - 1];
      var last := |fs| - 1;
      var f := fs[last];
      var prev := EntityFiles(init, resolve, parse);
      var m := EntityFiles(fs, resolve, parse);
      EntityFilesDefined(init, resolve, parse);
      RecordEntitiesSpec(prev, parse(f).entities, resolve(f));
      forall i, n | 0 <= i < |fs| && Defines(fs, parse, i, n) ensures n in m.entries {
        if i < last {
          assert init[i] == fs[i];
          assert Defines(init, parse, i, n);
        }
      }
    }
  }

  /** A mapped name maps to the last file that defines it. */
  lemma {:induction false} EntityFilesLast(fs: seq<Path>, resolve: Path -> string, parse: Path -> SourceFile)
    ensures forall n :: n in EntityFiles(fs, resolve, parse).entries ==> LastDefiner(fs, resolve, parse, n)
    decreases |fs|
  {
    if fs != [] {
      var init := fs[..|fs| - 1];
      EntityFilesLast(init, resolve, parse);
      forall n | n in EntityFiles(fs, resolve, parse).entries ensures LastDefiner(fs, resolve, parse, n) {
        LastDefinerStep(fs, resolve, parse, n);
      }
    }
  }

  /** Some file defines `n`, `n` maps to it, and no later file defines `n`. */
  ghost predicate LastDefiner(fs: seq<Path>, resolve: Path -> string, parse: Path -> SourceFile, n: string)
    requires n in EntityFiles(fs, resolve, parse).entries
  {
    exists i :: 0 <= i < |fs| && Defines(fs, parse, i, n)
      && EntityFiles(fs, resolve, parse).entries[n] == resolve(fs[i])
      && forall j :: i < j < |fs| ==> !Defines(fs, parse, j, n)
  }

  lemma LastDefinerStep(fs: seq<Path>, resolve: Path -> string, parse: Path -> SourceFile, n: string)
    requires fs != [] && n in EntityFiles(fs, resolve, parse).entries
    requires var init := fs[..|fs| - 1];
      forall n :: n in EntityFiles(init, resolve, parse).entries ==> LastDefiner(init, resolve, parse, n)
    ensures LastDefiner(fs, resolve, parse, n)
  {
    if Defines(fs, parse, |fs| - 1, n) {
      LastDefinerHere(fs, resolve, parse, n);
    } else {
      var init := fs[..|fs| - 1];
      StillMapped(fs, resolve, parse, n);
      LastDefinerEarlier(fs, resolve, parse, n);
    }
  }

  /** A name the last file does not define was already mapped, to the same file. */
  lemma StillMapped(fs: seq<Path>, resolve: Path -> string, parse: Path -> SourceFile, n: string)
    requires fs != [] && n in EntityFiles(fs, resolve, parse).entries
    requires !Defines(fs, parse, |fs| - 1, n)
    ensures n in EntityFiles(fs[..|fs| - 1], resolve, parse).entries
    ensures EntityFiles(fs, resolve, parse).entries[n] == EntityFiles(fs[..|fs| - 1], resolve, parse).entries[n]
  {
    var f := fs[|fs| - 1];
    RecordEntitiesAt(EntityFiles(fs[..|fs| - 1], resolve, parse), parse(f).entities, resolve(f), n);
  }

  /** The last file defines `n`, and `n` maps to it. */
  lemma LastDefinerHere(fs: seq<Path>, resolve: Path -> string, parse: Path -> SourceFile, n: string)
    requires fs != [] && n in EntityFiles(fs, resolve, parse).entries
    requires Defines(fs, parse, |fs| - 1, n)
    ensures LastDefiner(fs, resolve, parse, n)
  {
    var init := fs[..|fs| - 1];
    var f := fs[|fs| - 1];
    RecordEntitiesAt(EntityFiles(init, resolve, parse), parse(f).entities, resolve(f), n);
    assert EntityFiles(fs, resolve, parse).entries[n] == resolve(fs[|fs| - 1]);
  }

  /** The last file does not define `n`, so the earlier files' last definer stays. */
  lemma LastDefinerEarlier(fs: seq<Path>, resolve: Path -> string, parse: Path -> SourceFile, n: string)
    requires fs != [] && n in EntityFiles(fs, resolve, parse).entries
    requires !Defines(fs, parse, |fs| - 1, n)
    requires n in EntityFiles(fs[..|fs| - 1], resolve, parse).entries
    requires EntityFiles(fs, resolve, parse).entries[n] == EntityFiles(fs[..|fs| - 1], resolve, parse).entries[n]
    requires LastDefiner(fs[..|fs| - 1], resolve, parse, n)
    ensures LastDefiner(fs, resolve, parse, n)
  {
    var init := fs[..|fs| - 1];
    var mapped := EntityFiles(init, resolve, parse).entries[n];
    var i :| 0 <= i < |init| && Defines(init, parse, i, n) && mapped == resolve(init[i])
      && forall j :: i < j < |init| ==> !Defines(init, parse, j, n);
    NoLaterDefiner(fs, init, parse, n, i);
    assert init[i] == fs[i];
    assert EntityFiles(fs, resolve, parse).entries[n] == resolve(fs[i]);
  }

  /** A last definer among `init`, all of `fs` but its last file, stays last when that file does not define `n`. */
  lemma NoLaterDefiner(fs: seq<Path>, init: seq<Path>, parse: Path -> SourceFile, n: string, i: nat)
    requires fs != [] && init == fs[..|fs| - 1] && i < |init| && !Defines(fs, parse, |fs| - 1, n)
    requires Defines(init, parse, i, n)
    requires forall j :: i < j < |init| ==> !Defines(init, parse, j, n)
    ensures Defines(fs, parse, i, n)
    ensures forall j :: i < j < |fs| ==> !Defines(fs, parse, j, n)
  {
    assert init[i] == fs[i];
    forall j | i < j < |fs| ensures !Defines(fs, parse, j, n) {
      if j < |fs| - 1 {
        assert init[j] == fs[j];
        assert !Defines(init, parse, j, n);
      }
    }
  }

  /** The inner loop of `build_project` over one file's entities. */
  method RecordFileEntities(proj: Project, ents: seq<Entity>, file: string)
    requires proj.Valid()
    modifies proj
    ensures proj.Valid() && proj.files == old(proj.files)
    ensures proj.entityToFile == RecordEntities(old(proj.entityToFile), ents, file)
  {
    ghost var m0 := proj.entityToFile;
    for i := 0 to |ents|
      invariant proj.Valid() && proj.files == old(proj.files)
      invariant proj.entityToFile == RecordEntities(m0, ents[..i], file)
    {
      assert ents[..i + 1][..i] == ents[..i];
      proj.entityToFile := Put(proj.entityToFile, ents[i].name, file);
    }
    assert ents[..|ents|] == ents;
  }

  /**
   * `build_project` from the collected list of VHDL files: the files are
   * deduplicated and sorted, then each is parsed and recorded.
   */
  method BuildProject(vhdlFiles: seq<Path>, resolve: Path -> string, parse: Path -> SourceFile)
    returns (proj: Project)
    ensures fresh(proj) && proj.Valid()
    ensures proj.files == FilesOf(SortedPaths(vhdlFiles), resolve, parse)
    ensures proj.entityToFile == EntityFiles(SortedPaths(vhdlFiles), resolve, parse)
  {
    proj := new Project();
    var fs := SortedSet(vhdlFiles, PathLess);
    for i := 0 to |fs|
      invariant proj.Valid()
      invariant proj.files == FilesOf(fs[..i], resolve, parse)
      invariant proj.entityToFile == EntityFiles(fs[..i], resolve, parse)
    {
      var f := fs[i];
      assert fs[..i + 1][..i] == fs[..i];
      var fi := parse(f);
      proj.files := Put(proj.files, resolve(f), fi);
      RecordFileEntities(proj, fi.entities, resolve(f));
    }
    assert fs[..|fs|] == fs;
  }

  // ---------------------------------------------------------------------------
  // project_to_model

  datatype EntityEdge = EntityEdge(from: string, to: string, file: string)

  datatype FileEdge = FileEdge(from: string, to: string, via: string)

  datatype EntityNode = EntityNode(id: string, file: string)

  datatype FileNode = FileNode(id: string, fileLabel: string)

  datatype FileRecord = FileRecord(path: string, entities: seq<Entity>, architectures: seq<Architecture>)

  datatype Model = Model(
    files: seq<FileRecord>,
    entityNodes: seq<EntityNode>,
    entityEdges: seq<EntityEdge>,
    fileNodes: seq<FileNode>,
    fileEdges: seq<FileEdge>)

  /** The file record: the resolved path, every entity with its ports, and the architectures. */
  function FileRecordOf(fkey: string, fi: SourceFile): FileRecord {
    FileRecord(fkey, fi.entities, fi.architectures)
  }

  /** One instantiation site: the file, the architecture's entity, the instance. */
  datatype Site = Site(fkey: string, ofEntity: string, ins: Instance)

  function InstSites(fkey: string, ofEntity: string, insts: seq<Instance>): (r: seq<Site>)
    ensures |r| == |insts| && forall k :: 0 <= k < |insts| ==> r[k] == Site(fkey, ofEntity, insts[k])
  {
    seq(|insts|, k requires 0 <= k < |insts| => Site(fkey, ofEntity, insts[k]))
  }

  function ArchSites(fkey: string, archs: seq<Architecture>): seq<Site>
    decreases |archs|
  {
    if archs == [] then []
    else
      var a := archs[|archs| - 1];
      ArchSites(fkey, archs[..|archs| - 1]) + InstSites(fkey, a.ofEntity, a.instances)
  }

  /** Every instantiation site of the files `keys`, in file, architecture, instance order. */
  /** The architectures of the file recorded under `k`. */
  function ArchsOf(files: Dict<string, SourceFile>, k: string): seq<Architecture> {
    if k in files.entries then files.entries[k].architectures else []
  }

  function FileSites(files: Dict<string, SourceFile>, keys: seq<string>): seq<Site>
    decreases |keys|
  {
    if keys == [] then []
    else
      var k := keys[|keys| - 1];
      FileSites(files, keys[..|keys| - 1]) + ArchSites(k, ArchsOf(files, k))
  }

  /** The entity edge a site contributes: one when the target is non-empty. */
  function EntityEdgeOf(s: Site): seq<EntityEdge> {
    if s.ins.target != "" then [EntityEdge(s.ofEntity, s.ins.target, s.fkey)] else []
  }

  /** The file edge a site contributes: one when the target's file is known and is another file. */
  function FileEdgeOf(entityToFile: Dict<string, string>, s: Site): seq<FileEdge> {
    var dst := if s.ins.target in entityToFile.entries then Some(entityToFile.entries[s.ins.target]) else None;
    if Truthy(dst) && dst.value != s.fkey then [FileEdge(s.fkey, dst.value, s.ins.target)] else []
  }

  function EntityEdgesOf(sites: seq<Site>): seq<EntityEdge>
    decreases |sites|
  {
    if sites == [] then [] else EntityEdgesOf(sites[..|sites| - 1]) + EntityEdgeOf(sites[|sites| - 1])
  }

  function FileEdgesOf(entityToFile: Dict<string, string>, sites: seq<Site>): seq<FileEdge>
    decreases |sites|
  {
    if sites == [] then [] else FileEdgesOf(entityToFile, sites[..|sites| - 1]) + FileEdgeOf(entityToFile, sites[|sites| - 1])
  }

  /** `Path(f).name`: the part after the last `/`. */
  function BaseName(f: string): (r: string)
    ensures |r| <= |f| && '/' !in r
    ensures r == f[|f| - |r|..]
    ensures |r| < |f| ==> f[|f| - |r| - 1] == '/'
    decreases |f|
  {
    if f == [] then ""
    else if f[|f| - 1] == '/' then ""
    else
      var init := f[..|f| - 1];
      var r := BaseName(init);
      assert init[|init| - |r|..] == f[|f| - 1 - |r|..|f| - 1];
      assert |r| < |init| ==> init[|init| - |r| - 1] == f[|f| - |r| - 2];
      assert f[|f| - 1 - |r|..] == f[|f| - 1 - |r|..|f| - 1] + [f[|f| - 1]];
      r + [f[|f| - 1]]
  }

  function FileRecords(files: Dict<string, SourceFile>, keys: seq<string>): seq<FileRecord>
    decreases |keys|
  {
    if keys == [] then []
    else
      var k := keys[|keys| - 1];
      FileRecords(files, keys[..|keys| - 1]) + [FileRecordOf(k, files.Get(k, NewFile([])))]
  }

  lemma FileRecordsStep(files: Dict<string, SourceFile>, keys: seq<string>, i: nat)
    requires i < |keys|
    ensures FileRecords(files, keys[..i + 1]) == FileRecords(files, keys[..i]) + [FileRecordOf(keys[i], files.Get(keys[i], NewFile([])))]
  {
    assert keys[..i + 1][..i] == keys[..i];
  }

  function EntityNodes(entityToFile: Dict<string, string>): (r: seq<EntityNode>)
    requires entityToFile.Valid()
    ensures |r| == |entityToFile.keys|
    ensures forall i :: 0 <= i < |r| ==>
      r[i] == EntityNode(entityToFile.keys[i], entityToFile.entries[entityToFile.keys[i]])
  {
    var ks := entityToFile.keys;
    seq(|ks|, i requires 0 <= i < |ks| => EntityNode(ks[i], entityToFile.entries[ks[i]]))
  }

  function FileNodes(keys: seq<string>): (r: seq<FileNode>)
    ensures |r| == |keys| && forall i :: 0 <= i < |keys| ==> r[i] == FileNode(keys[i], BaseName(keys[i]))
  {
    seq(|keys|, i requires 0 <= i < |keys| => FileNode(keys[i], BaseName(keys[i])))
  }

  /** The whole of `project_to_model`. */
  function ModelOf(files: Dict<string, SourceFile>, entityToFile: Dict<string, string>): Model
    requires files.Valid() && entityToFile.Valid()
  {
    var sites := FileSites(files, files.keys);
    Model(FileRecords(files, files.keys), EntityNodes(entityToFile), EntityEdgesOf(sites),
      FileNodes(files.keys), FileEdgesOf(entityToFile, sites))
  }

  lemma {:induction false} EntityEdgesAppend(a: seq<Site>, b: seq<Site>)
    ensures EntityEdgesOf(a + b) == EntityEdgesOf(a) + EntityEdgesOf(b)
    decreases |b|
  {
    if b != [] {
      var init := b[..|b| - 1];
      assert (a + b)[..|a + b| - 1] == a + init;
      EntityEdgesAppend(a, init);
    } else {
      assert a + b == a;
    }
  }

  lemma {:induction false} FileEdgesAppend(e2f: Dict<string, string>, a: seq<Site>, b: seq<Site>)
    ensures FileEdgesOf(e2f, a + b) == FileEdgesOf(e2f, a) + FileEdgesOf(e2f, b)
    decreases |b|
  {
    if b != [] {
      var init := b[..|b| - 1];
      assert (a + b)[..|a + b| - 1] == a + init;
      FileEdgesAppend(e2f, a, init);
    } else {
      assert a + b == a;
    }
  }

  /** The sites `pre` followed by `site`: one more step of each edge list. */
  lemma EdgesSnoc(e2f: Dict<string, string>, pre: seq<Site>, site: Site)
    ensures EntityEdgesOf(pre + [site]) == EntityEdgesOf(pre) + EntityEdgeOf(site)
    ensures FileEdgesOf(e2f, pre + [site]) == FileEdgesOf(e2f, pre) + FileEdgeOf(e2f, site)
  {
    assert (pre + [site])[..|pre|] == pre;
  }

  /** One architecture more: its instances' edges follow those of the architectures before it. */
  lemma ArchEdgesStep(e2f: Dict<string, string>, fkey: string, archs: seq<Architecture>, j: nat)
    requires j < |archs|
    ensures EntityEdgesOf(ArchSites(fkey, archs[..j + 1]))
         == EntityEdgesOf(ArchSites(fkey, archs[..j])) + EntityEdgesOf(InstSites(fkey, archs[j].ofEntity, archs[j].instances))
    ensures FileEdgesOf(e2f, ArchSites(fkey, archs[..j + 1]))
         == FileEdgesOf(e2f, ArchSites(fkey, archs[..j])) + FileEdgesOf(e2f, InstSites(fkey, archs[j].ofEntity, archs[j].instances))
  {
    assert archs[..j + 1][..j] == archs[..j];
    EntityEdgesAppend(ArchSites(fkey, archs[..j]), InstSites(fkey, archs[j].ofEntity, archs[j].instances));
    FileEdgesAppend(e2f, ArchSites(fkey, archs[..j]), InstSites(fkey, archs[j].ofEntity, archs[j].instances));
  }

  /** One file more: its architectures' edges follow those of the files before it. */
  lemma FileEdgesStep(files: Dict<string, SourceFile>, e2f: Dict<string, string>, keys: seq<string>, i: nat)
    requires i < |keys|
    ensures EntityEdgesOf(FileSites(files, keys[..i + 1]))
         == EntityEdgesOf(FileSites(files, keys[..i])) + EntityEdgesOf(ArchSites(keys[i], ArchsOf(files, keys[i])))
    ensures FileEdgesOf(e2f, FileSites(files, keys[..i + 1]))
         == FileEdgesOf(e2f, FileSites(files, keys[..i])) + FileEdgesOf(e2f, ArchSites(keys[i], ArchsOf(files, keys[i])))
  {
    assert keys[..i + 1][..i] == keys[..i];
    EntityEdgesAppend(FileSites(files, keys[..i]), ArchSites(keys[i], ArchsOf(files, keys[i])));
    FileEdgesAppend(e2f, FileSites(files, keys[..i]), ArchSites(keys[i], ArchsOf(files, keys[i])));
  }

  /** The entity and file edges of one architecture's instances, in order. */
  method InstanceEdges(e2f: Dict<string, string>, fkey: string, arch: Architecture)
    returns (ee: seq<EntityEdge>, fe: seq<FileEdge>)
    ensures ee == EntityEdgesOf(InstSites(fkey, arch.ofEntity, arch.instances))
    ensures fe == FileEdgesOf(e2f, InstSites(fkey, arch.ofEntity, arch.instances))
  {
    ee, fe := [], [];
    var insts := arch.instances;
    for k := 0 to |insts|
      invariant ee == EntityEdgesOf(InstSites(fkey, arch.ofEntity, insts[..k]))
      invariant fe == FileEdgesOf(e2f, InstSites(fkey, arch.ofEntity, insts[..k]))
    {
      var ins := insts[k];
      ghost var site := Site(fkey, arch.ofEntity, ins);
      assert InstSites(fkey, arch.ofEntity, insts[..k + 1]) == InstSites(fkey, arch.ofEntity, insts[..k]) + [site];
      EdgesSnoc(e2f, InstSites(fkey, arch.ofEntity, insts[..k]), site);
      var dstEntity := ins.target;
      if dstEntity != "" {
        ee := ee + [EntityEdge(arch.ofEntity, dstEntity, fkey)];
      }
      var dstFile := if dstEntity in e2f.entries then Some(e2f.entries[dstEntity]) else None;
      if Truthy(dstFile) && dstFile.value != fkey {
        fe := fe + [FileEdge(fkey, dstFile.value, dstEntity)];
      }
    }
    assert insts[..|insts|] == insts;
  }

  /** The architecture records of one file and the edges of all its instances. */
  method ArchitectureEdges(e2f: Dict<string, string>, fkey: string, archs: seq<Architecture>)
    returns (recs: seq<Architecture>, ee: seq<EntityEdge>, fe: seq<FileEdge>)
    ensures recs == archs
    ensures ee == EntityEdgesOf(ArchSites(fkey, archs))
    ensures fe == FileEdgesOf(e2f, ArchSites(fkey, archs))
  {
    recs, ee, fe := [], [], [];
    for j := 0 to |archs|
      invariant recs == archs[..j]
      invariant ee == EntityEdgesOf(ArchSites(fkey, archs[..j]))
      invariant fe == FileEdgesOf(e2f, ArchSites(fkey, archs[..j]))
    {
      var arch := archs[j];
      recs := recs + [Architecture(arch.name, arch.ofEntity, arch.signals, arch.instances)];
      assert recs == archs[..j + 1];
      var ee1, fe1 := InstanceEdges(e2f, fkey, arch);
      ArchEdgesStep(e2f, fkey, archs, j);
      ee, fe := ee + ee1, fe + fe1;
    }
    assert archs[..|archs|] == archs;
  }

  /** The entity records of one file: each entity's name and its ports' name, direction and type. */
  method EntityRecords(ents: seq<Entity>) returns (recs: seq<Entity>)
    ensures recs == ents
  {
    recs := [];
    for i := 0 to |ents|
      invariant recs == ents[..i]
    {
      var ent := ents[i];
      var ports := seq(|ent.ports|, j requires 0 <= j < |ent.ports| =>
        Port(ent.ports[j].name, ent.ports[j].direction, ent.ports[j].typeStr));
      assert ports == ent.ports;
      recs := recs + [Entity(ent.name, ports)];
      assert recs == ents[..i + 1];
    }
    assert ents[..|ents|] == ents;
  }

  /** The record of one file and the edges of all its instances. */
  method FileEntry(e2f: Dict<string, string>, fkey: string, fi: SourceFile)
    returns (rec: FileRecord, ee: seq<EntityEdge>, fe: seq<FileEdge>)
    ensures rec == FileRecordOf(fkey, fi)
    ensures ee == EntityEdgesOf(ArchSites(fkey, fi.architectures))
    ensures fe == FileEdgesOf(e2f, ArchSites(fkey, fi.architectures))
  {
    var ents := EntityRecords(fi.entities);
    var archs;
    archs, ee, fe := ArchitectureEdges(e2f, fkey, fi.architectures);
    rec := FileRecord(fkey, ents, archs);
  }

  /** The file records and dependency edges, one file at a time in dictionary order. */
  method FileLoop(files: Dict<string, SourceFile>, e2f: Dict<string, string>)
    returns (filesOut: seq<FileRecord>, ee: seq<EntityEdge>, fe: seq<FileEdge>)
    requires forall i :: 0 <= i < |files.keys| ==> files.keys[i] in files.entries
    ensures filesOut == FileRecords(files, files.keys)
    ensures ee == EntityEdgesOf(FileSites(files, files.keys))
    ensures fe == FileEdgesOf(e2f, FileSites(files, files.keys))
  {
    var keys := files.keys;
    filesOut, ee, fe := [], [], [];
    for i := 0 to |keys|
      invariant filesOut == FileRecords(files, keys[..i])
      invariant ee == EntityEdgesOf(FileSites(files, keys[..i]))
      invariant fe == FileEdgesOf(e2f, FileSites(files, keys[..i]))
    {
      var rec, ee1, fe1 := FileEntry(e2f, keys[i], files.entries[keys[i]]);
      assert ArchsOf(files, keys[i]) == files.entries[keys[i]].architectures;
      FileEdgesStep(files, e2f, keys, i);
      ee, fe := ee + ee1, fe + fe1;
      FileRecordsStep(files, keys, i);
      filesOut := filesOut + [rec];
    }
    assert keys[..|keys|] == keys;
  }

  /** One entity node per recorded entity, in dictionary order. */
  method EntityNodeList(e2f: Dict<string, string>) returns (nodes: seq<EntityNode>)
    requires e2f.Valid()
    ensures nodes == EntityNodes(e2f)
  {
    nodes := [];
    var names := e2f.keys;
    for i := 0 to |names|
      invariant |nodes| == i
      invariant forall q :: 0 <= q < i ==> nodes[q] == EntityNode(names[q], e2f.entries[names[q]])
    {
      nodes := nodes + [EntityNode(names[i], e2f.entries[names[i]])];
    }
  }

  /** `project_to_model`. */
  method ProjectToModel(proj: Project) returns (m: Model)
    requires proj.Valid()
    ensures m == ModelOf(proj.files, proj.entityToFile)
  {
    assert forall i :: 0 <= i < |proj.files.keys| ==> proj.files.keys[i] in proj.files.entries;
    var filesOut, entityEdges, fileEdges := FileLoop(proj.files, proj.entityToFile);
    var entityNodes := EntityNodeList(proj.entityToFile);
    var keys := proj.files.keys;
    var fileNodes := seq(|keys|, i requires 0 <= i < |keys| => FileNode(keys[i], BaseName(keys[i])));
    m := Model(filesOut, entityNodes, entityEdges, fileNodes, fileEdges);
  }

  // ---------------------------------------------------------------------------
  // Properties of the model

  /** A site is listed exactly when its instance belongs to an architecture of that file. */
  lemma {:induction false} ArchSitesMembers(fkey: string, archs: seq<Architecture>, s: Site)
    ensures s in ArchSites(fkey, archs) <==>
      s.fkey == fkey && exists a :: a in archs && a.ofEntity == s.ofEntity && s.ins in a.instances
    decreases |archs|
  {
    if archs != [] {
      var init := archs[..|archs| - 1];
      var a := archs[|archs| - 1];
      ArchSitesMembers(fkey, init, s);
      assert forall b :: b in archs <==> b in init || b == a;
      if s in InstSites(fkey, a.ofEntity, a.instances) {
        var k :| 0 <= k < |a.instances| && InstSites(fkey, a.ofEntity, a.instances)[k] == s;
        assert s.ins == a.instances[k];
      }
      if s.fkey == fkey && a.ofEntity == s.ofEntity && s.ins in a.instances {
        var k :| 0 <= k < |a.instances| && a.instances[k] == s.ins;
        assert InstSites(fkey, a.ofEntity, a.instances)[k] == s;
      }
    }
  }

  lemma {:induction false} FileSitesMembers(files: Dict<string, SourceFile>, keys: seq<string>, s: Site)
    ensures s in FileSites(files, keys) <==>
      s.fkey in keys && s in ArchSites(s.fkey, ArchsOf(files, s.fkey))
    decreases |keys|
  {
    if keys != [] {
      var init := keys[..|keys| - 1];
      var k := keys[|keys| - 1];
      assert forall x :: x in keys <==> x in init || x == k;
      FileSitesMembers(files, init, s);
      ArchSitesMembers(k, ArchsOf(files, k), s);
    }
  }

  /** An entity edge is exactly a site with a non-empty target, from the architecture's entity to the target. */
  lemma {:induction false} EntityEdgesMembers(sites: seq<Site>, e: EntityEdge)
    ensures e in EntityEdgesOf(sites) <==>
      exists s :: s in sites && s.ins.target != "" && e == EntityEdge(s.ofEntity, s.ins.target, s.fkey)
    decreases |sites|
  {
    if sites != [] {
      var init := sites[..|sites| - 1];
      EntityEdgesMembers(init, e);
      assert forall s :: s in sites <==> s in init || s == sites[|sites| - 1];
    }
  }

  /** One entity edge per site with a non-empty target. */
  lemma {:induction false} EntityEdgesCount(sites: seq<Site>)
    ensures |EntityEdgesOf(sites)| == |set k | 0 <= k < |sites| && sites[k].ins.target != ""|
    decreases |sites|
  {
    if sites != [] {
      var init := sites[..|sites| - 1];
      EntityEdgesCount(init);
      var si := set k | 0 <= k < |init| && init[k].ins.target != "";
      var s := set k | 0 <= k < |sites| && sites[k].ins.target != "";
      if sites[|sites| - 1].ins.target != "" {
        assert s == si + {|sites| - 1};
      } else {
        assert s == si;
      }
    }
  }

  /**
   * A file edge is exactly a site whose target is mapped to a file that is
   * non-empty and not the site's own file; in particular an instantiation of
   * an entity from the same file never yields one.
   */
  lemma {:induction false} FileEdgesMembers(entityToFile: Dict<string, string>, sites: seq<Site>, e: FileEdge)
    ensures e in FileEdgesOf(entityToFile, sites) <==>
      exists s :: s in sites && s.ins.target in entityToFile.entries
        && entityToFile.entries[s.ins.target] != "" && entityToFile.entries[s.ins.target] != s.fkey
        && e == FileEdge(s.fkey, entityToFile.entries[s.ins.target], s.ins.target)
    decreases |sites|
  {
    if sites != [] {
      var init := sites[..|sites| - 1];
      FileEdgesMembers(entityToFile, init, e);
      assert forall s :: s in sites <==> s in init || s == sites[|sites| - 1];
    }
  }

  /** One record per file, in dictionary order, carrying that file's entities and architectures. */
  lemma {:induction false} FileRecordsSpec(files: Dict<string, SourceFile>, keys: seq<string>)
    requires forall i :: 0 <= i < |keys| ==> keys[i] in files.entries
    ensures |FileRecords(files, keys)| == |keys|
    ensures forall i :: 0 <= i < |keys| ==>
      FileRecords(files, keys)[i] == FileRecord(keys[i], files.entries[keys[i]].entities, files.entries[keys[i]].architectures)
    decreases |keys|
  {
    if keys != [] {
      FileRecordsSpec(files, keys[..|keys| - 1]);
    }
  }

  /** The file records, the file graph's nodes and the entity graph's nodes of a project's model. */
  lemma ModelNodes(files: Dict<string, SourceFile>, entityToFile: Dict<string, string>)
    requires files.Valid() && entityToFile.Valid()
    ensures |ModelOf(files, entityToFile).files| == |ModelOf(files, entityToFile).fileNodes| == |files.keys|
    ensures forall i :: 0 <= i < |files.keys| ==>
      ModelOf(files, entityToFile).files[i].path == files.keys[i]
      && ModelOf(files, entityToFile).files[i].entities == files.entries[files.keys[i]].entities
      && ModelOf(files, entityToFile).fileNodes[i] == FileNode(files.keys[i], BaseName(files.keys[i]))
    ensures |ModelOf(files, entityToFile).entityNodes| == |entityToFile.keys|
    ensures forall n :: n in entityToFile.entries <==> exists v :: EntityNode(n, v) in ModelOf(files, entityToFile).entityNodes
  {
    assert forall i :: 0 <= i < |files.keys| ==> files.keys[i] in files.entries;
    FileRecordsSpec(files, files.keys);
    var nodes := EntityNodes(entityToFile);
    forall n | n in entityToFile.entries
      ensures exists v :: EntityNode(n, v) in nodes
    {
      var i :| 0 <= i < |entityToFile.keys| && entityToFile.keys[i] == n;
      assert nodes[i] == EntityNode(n, entityToFile.entries[n]);
    }
    forall n, v | EntityNode(n, v) in nodes ensures n in entityToFile.entries {
      var i :| 0 <= i < |nodes| && nodes[i] == EntityNode(n, v);
    }
  }

  /** The properties above, for the model of a project. */
  lemma ModelEdges(files: Dict<string, SourceFile>, entityToFile: Dict<string, string>)
    requires files.Valid() && entityToFile.Valid()
    ensures forall e :: e in ModelOf(files, entityToFile).fileEdges ==>
      e.from != e.to && e.to != "" && e.via in entityToFile.entries && entityToFile.entries[e.via] == e.to
      && e.from in files.entries
    ensures forall e :: e in ModelOf(files, entityToFile).entityEdges ==>
      e.to != "" && e.file in files.entries
      && exists a :: (a in files.entries[e.file].architectures && a.ofEntity == e.from
        && exists ins :: ins in a.instances && ins.target == e.to)
  {
    var sites := FileSites(files, files.keys);
    forall e | e in ModelOf(files, entityToFile).fileEdges
      ensures e.from != e.to && e.to != "" && e.via in entityToFile.entries && entityToFile.entries[e.via] == e.to
        && e.from in files.entries
    {
      FileEdgesMembers(entityToFile, sites, e);
      var s :| s in sites && s.ins.target in entityToFile.entries
        && entityToFile.entries[s.ins.target] != "" && entityToFile.entries[s.ins.target] != s.fkey
        && e == FileEdge(s.fkey, entityToFile.entries[s.ins.target], s.ins.target);
      FileSitesMembers(files, files.keys, s);
    }
    forall e | e in ModelOf(files, entityToFile).entityEdges
      ensures e.to != "" && e.file in files.entries
        && exists a :: (a in files.entries[e.file].architectures && a.ofEntity == e.from
          && exists ins :: ins in a.instances && ins.target == e.to)
    {
      EntityEdgesMembers(sites, e);
      var s :| s in sites && s.ins.target != "" && e == EntityEdge(s.ofEntity, s.ins.target, s.fkey);
      FileSitesMembers(files, files.keys, s);
      ArchSitesMembers(s.fkey, ArchsOf(files, s.fkey), s);
    }
  }
}
