/**
 * The structural facts of one design unit, as the extractor hands them to
 * the connectivity builder: declared ports and signals, instances with their
 * formal-to-actual port maps, and concurrent assignments.
 */
module Design {
  import opened Wrappers

  /** A declared entity port; `direction` is kept as written (`in`, `OUT`, `buffer`, ...). */
  datatype Port = Port(name: string, direction: string, dtype: string)

  datatype Signal = Signal(name: string, dtype: string)

  /**
   * An instantiation `label : comp` (component name) or
   * `label : entity work.ent` (entity reference). `portMap` lists the
   * formal-to-actual bindings in the order the port map dictionary iterates.
   */
  datatype Instance = Instance(
    instLabel: string,
    componentName: Option<string>,
    entityRef: Option<string>,
    portMap: seq<(string, string)>)

  /** A concurrent assignment `target <= expr;`. */
  datatype Assignment = Assignment(target: string, expr: string)

  /** One design unit. The assignments list is the one the builder reads. */
  datatype FileInfo = FileInfo(
    path: string,
    entityName: Option<string>,
    ports: seq<Port>,
    signals: seq<Signal>,
    instances: seq<Instance>,
    assignments: seq<Assignment>)

  /** Entity or component name to its ports, keyed by port name. */
  type PortDb = map<string, map<string, Port>>

  function SignalNames(fi: FileInfo): set<string> {
    set s | s in fi.signals :: s.name
  }

  function PortNames(fi: FileInfo): set<string> {
    set p | p in fi.ports :: p.name
  }
}
