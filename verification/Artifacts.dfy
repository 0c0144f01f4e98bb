/** Artifacts and cells, as far as the orchestrator reads and writes them. */
module Artifacts {
  import opened Wrappers

  /** Method cells, plain or distributed, know the artifact they were defined on; a state cell does not. The
      distributed kind is not a subclass of the plain one. */
  datatype CellKind = StateCell | MethodCell(origin: Artifact) | DistMethodCell(origin: Artifact)

  /** A cell, shared by reference. */
  class Cell {
    const kind: CellKind

    constructor (kind: CellKind)
      ensures this.kind == kind
    {
      this.kind := kind;
    }
  }

  /** What `getattr` finds under a name: a function of the class, some other callable kept on the
      instance, or a plain value. */
  datatype Attribute = ClassFunction | InstanceCallable | PlainValue

  class Artifact {
    const name: string                          // `__class__.__name__`
    const module_: string                       // `type(self).__module__`
    const registryId: Option<string>            // `registry_id`, if the class has one
    const registryExtension: Option<string>     // `registry_extension`, if the class has one
    const attributes: map<string, Attribute>
    var parents: seq<Artifact>
    var cells: map<string, Cell>
    var stateMap: map<string, string>

    constructor (name: string, module_: string, registryId: Option<string>, registryExtension: Option<string>,
                 attributes: map<string, Attribute>)
      ensures this.name == name && this.module_ == module_
      ensures this.registryId == registryId && this.registryExtension == registryExtension
      ensures this.attributes == attributes
      ensures parents == [] && cells == map[] && stateMap == map[]
    {
      this.name := name;
      this.module_ := module_;
      this.registryId := registryId;
      this.registryExtension := registryExtension;
      this.attributes := attributes;
      parents, cells, stateMap := [], map[], map[];
    }

    predicate CanDefine(attr: string) {
      attr in attributes && attributes[attr] != InstanceCallable
    }

    /** `register` makes a name without a cell into one by `define_state` or `define_method`; false when
        the attribute lookup raises. */
    method EnsureCell(attr: string) returns (ok: bool)
      modifies this`cells
      ensures attr in old(cells) ==> ok && cells == old(cells)
      ensures attr !in old(cells) ==> (ok <==> attr in attributes && attributes[attr] != InstanceCallable)
      ensures !ok ==> cells == old(cells)
      ensures ok ==> attr in cells && cells == old(cells)[attr := cells[attr]]
      ensures ok && attr !in old(cells) ==>
                && fresh(cells[attr])
                && cells[attr].kind == if attributes[attr] == ClassFunction then MethodCell(this) else StateCell
    {
      if attr in cells { return true; }
      if !CanDefine(attr) { return false; }
      var cell := new Cell(if attributes[attr] == ClassFunction then MethodCell(this) else StateCell);
      cells := cells[attr := cell];
      return true;
    }
  }
}
