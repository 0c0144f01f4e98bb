/** The mutable registry: what each call changes, and that no call ever breaks what the later phases
    rely on. */
module Orchestrator {
  import opened Wrappers
  import opened Text
  import opened Ordering
  import opened Registry
  import opened Digraph
  import opened Recipe
  import opened Artifacts
  import opened RegistryState
  import opened GraphCompile
  import opened CompiledForm
  import opened CycleCheck
  import opened Propagation

  datatype CompileError =
    | Renamed
    | EmptyId
    | IdTaken
    | EmptyExtension
    | NoAttribute
    | NotCompiled
    | Cycle(labels: seq<string>)

  /** `component_id or artifact.registry_id or artifact.name`, stripped */
  function RequestedId(a: Artifact, componentId: Option<string>): string {
    Strip(if componentId.Some? && componentId.value != "" then componentId.value
          else if a.registryId.Some? && a.registryId.value != "" then a.registryId.value
          else a.name)
  }

  predicate IsExplicit(a: Artifact, componentId: Option<string>) {
    componentId.Some? || a.registryId.Some?
  }

  /** `extension or getattr(artifact, "registry_extension", "core")`, stripped */
  function ResolvedExtension(a: Artifact, extension: Option<string>): string {
    Strip(if extension.Some? && extension.value != "" then extension.value
          else if a.registryExtension.Some? then a.registryExtension.value
          else "core")
  }

  function TagSet(tags: seq<string>): set<string> {
    set t | t in tags && Strip(t) != "" :: Strip(t)
  }

  /** Where the id comes from: the call, else the artifact, else the class name; empty strings do not count. */
  lemma IdComesFrom(a: Artifact, componentId: Option<string>)
    ensures componentId.Some? && componentId.value != "" ==> RequestedId(a, componentId) == Strip(componentId.value)
    ensures componentId in {None, Some("")} && a.registryId.Some? && a.registryId.value != "" ==>
              RequestedId(a, componentId) == Strip(a.registryId.value)
    ensures componentId in {None, Some("")} && a.registryId in {None, Some("")} ==>
              RequestedId(a, componentId) == Strip(a.name)
    ensures IsExplicit(a, componentId) <==> !(componentId == None && a.registryId == None)
  {}

  /** Likewise the extension, which is `core` for want of another; an artifact's own may be empty. */
  lemma ExtensionComesFrom(a: Artifact, extension: Option<string>)
    ensures extension.Some? && extension.value != "" ==> ResolvedExtension(a, extension) == Strip(extension.value)
    ensures extension in {None, Some("")} && a.registryExtension.Some? ==>
              ResolvedExtension(a, extension) == Strip(a.registryExtension.value)
    ensures extension in {None, Some("")} && a.registryExtension == None ==>
              ResolvedExtension(a, extension) == Strip("core")
  {}

  /** Tags are stripped, and empty ones dropped. */
  lemma TagsAreStripped(tags: seq<string>, t: string)
    ensures t in TagSet(tags) <==> t != "" && exists i :: 0 <= i < |tags| && Strip(tags[i]) == t
  {
    if t in TagSet(tags) {
      var u :| u in tags && Strip(u) == t;
      var i :| 0 <= i < |tags| && tags[i] == u;
    }
  }

  predicate Rejects(ids: map<string, Artifact>, a: Artifact, componentId: Option<string>, extension: Option<string>) {
    || RequestedId(a, componentId) == ""
    || (IsExplicit(a, componentId) && RequestedId(a, componentId) in ids)
    || ResolvedExtension(a, extension) == ""
  }

  /** The requested id if it is free, or else the least free `#N` with N at least 2. */
  ghost predicate Claims(ids: map<string, Artifact>, requested: string, id: string) {
    && id !in ids
    && (id == requested
        || (requested in ids
            && exists n :: 2 <= n && id == Numbered(requested, n) &&
                      forall k :: 2 <= k < n ==> Numbered(requested, k) in ids))
  }

  ghost predicate Describes(ids: map<string, Artifact>, a: Artifact, componentId: Option<string>,
                            extension: Option<string>, tags: seq<string>, m: Metadata) {
    && Claims(ids, RequestedId(a, componentId), m.componentId)
    && m.extension == ResolvedExtension(a, extension)
    && StrictlySortedBy(m.tags, TagKey)
    && (forall t :: t in m.tags <==> t in TagSet(tags))
  }

  /** The arguments of a call determine the metadata it records. */
  lemma DescriptionIsUnique(ids: map<string, Artifact>, a: Artifact, componentId: Option<string>,
                            extension: Option<string>, tags: seq<string>, m: Metadata, n: Metadata)
    requires Describes(ids, a, componentId, extension, tags, m) && Describes(ids, a, componentId, extension, tags, n)
    ensures m == n
  {
    StrictlySortedUnique(m.tags, n.tags, TagKey);
  }

  /** With an explicit id they do so whatever ids are taken, so accepted calls record the same in any order. */
  lemma ExplicitDescriptionIgnoresOrder(
      ids: map<string, Artifact>, others: map<string, Artifact>, a: Artifact, componentId: Option<string>,
      extension: Option<string>, tags: seq<string>, m: Metadata, n: Metadata)
    requires IsExplicit(a, componentId)
    requires !Rejects(ids, a, componentId, extension) && !Rejects(others, a, componentId, extension)
    requires Describes(ids, a, componentId, extension, tags, m)
    requires Describes(others, a, componentId, extension, tags, n)
    ensures m == n && m.componentId == RequestedId(a, componentId)
  {
    hide Strip, StrictlySortedBy, RequestedId, ResolvedExtension, TagSet;
    StrictlySortedUnique(m.tags, n.tags, TagKey);
  }

  /** `h` continues `before` by adding at most `child` and `parent`. */
  predicate AddsOnly(before: seq<Effect>, h: seq<Effect>, child: Artifact, parent: Artifact) {
    && before <= h
    && forall i :: |before| <= i < |h| ==> h[i].Added? && (h[i].a == child || h[i].a == parent)
  }

  function KindOf(c: Cell): (kind: string)
    ensures kind in {"method", "state"}
  {
    if c.kind.StateCell? then "state" else "method"
  }

  ghost function ParentsOf(registry: seq<Artifact>): (g: Graph<Artifact>)
    reads registry`parents
    ensures forall a :: a in g ==> a in registry
    ensures forall a :: a in registry ==> a in g && g[a] == a.parents
  {
    map a | a in registry :: a.parents
  }

  lemma ParentsOfOneMore(registry: seq<Artifact>, a: Artifact)
    ensures ParentsOf(registry + [a]) == ParentsOf(registry)[a := a.parents]
  {}

  class RegistryOrchestrator {
    var registry: seq<Artifact>
    var metadata: map<Artifact, Metadata>
    var ids: map<string, Artifact>
    var bindings: seq<BindingSpec>
    var edges: seq<(Artifact, Artifact)>
    var compiled: Option<RegistryGraph>

    /** The accepted calls so far. */
    ghost var history: seq<Effect>

    ghost function Contents(): State
      reads this, registry`parents
    {
      State(registry, metadata, ids, bindings, edges, ParentsOf(registry))
    }

    ghost predicate Valid()
      reads this, registry`parents
    {
      && IsRun(history)
      && Contents() == RunOf(history)
      && (compiled.Some? ==> CompilesTo(history, compiled.value))
    }

    constructor ()
      ensures Valid() && history == [] && compiled == None
    {
      registry, metadata, ids, bindings, edges, compiled := [], map[], map[], [], [], None;
      history := [];
    }

    /** `_claim_component_id`: the search for a free `#N` ends because only finitely many are taken. */
    method ClaimComponentId(requested: string, explicit: bool) returns (r: Result<string, CompileError>)
      ensures r.Err? <==> requested in ids && explicit
      ensures r.Err? ==> r.error == IdTaken
      ensures r.Ok? ==> Claims(ids, requested, r.value)
      ensures r.Ok? ==> r.value !in ids
      ensures r.Ok? && requested !in ids ==> r.value == requested
      ensures r.Ok? && requested in ids ==>
                exists n :: 2 <= n && r.value == requested + "#" + Decimal(n)
                            && forall k :: 2 <= k < n ==> requested + "#" + Decimal(k) in ids
    {
      if requested !in ids { return Ok(requested); }
      if explicit { return Err(IdTaken); }
      var suffix := 2;
      while Numbered(requested, suffix) in ids
        invariant 2 <= suffix <= |ids| + 2
        invariant forall k :: 2 <= k < suffix ==> Numbered(requested, k) in ids
        decreases |ids| + 2 - suffix
      {
        suffix := suffix + 1;
        var taken := Suffixed(requested, suffix);
        assert taken <= ids.Keys;
        FewerThan(taken, ids.Keys);
      }
      assert forall k: nat :: Numbered(requested, k) == requested + "#" + Decimal(k);
      assert Numbered(requested, suffix) == requested + "#" + Decimal(suffix);
      return Ok(Numbered(requested, suffix));
    }

    /** `add`; a rejected call changes nothing. */
    method Add(a: Artifact, componentId: Option<string>, extension: Option<string>, tags: seq<string>)
      returns (r: Result<Artifact, CompileError>)
      requires Valid() && (a !in metadata ==> a.parents == [])
      modifies this
      ensures Valid()
      ensures r.Ok? ==> r.value == a && a in metadata
      ensures r.Err? || old(a in metadata) ==> unchanged(this)
      ensures old(a in metadata) ==>
                (r.Err? <==> componentId.Some? && componentId.value != old(metadata[a].componentId))
      ensures old(a !in metadata) ==> (r.Err? <==> Rejects(old(ids), a, componentId, extension))
      ensures r.Err? ==>
                r.error == if old(a in metadata) then Renamed
                           else if RequestedId(a, componentId) == "" then EmptyId
                           else if IsExplicit(a, componentId) && RequestedId(a, componentId) in ids then IdTaken
                           else EmptyExtension
      ensures r.Ok? && old(a !in metadata) ==>
                && Describes(old(ids), a, componentId, extension, tags, metadata[a])
                && metadata == old(metadata)[a := metadata[a]]
                && history == old(history) + [Added(a, metadata[a])]
                && compiled == None
    {
      hide Describes, StrictlySortedBy, IsRun, RunOf, CompilesTo;
      if a in metadata {
        if componentId.Some? && componentId.value != metadata[a].componentId {
          return Err(Renamed);
        }
        return Ok(a);
      }
      var requested := RequestedId(a, componentId);
      if requested == "" { return Err(EmptyId); }
      var id := ClaimComponentId(requested, IsExplicit(a, componentId));
      if id.Err? { return Err(id.error); }
      var ext := ResolvedExtension(a, extension);
      if ext == "" { return Err(EmptyExtension); }
      var sortedTags := SortedSet(TagSet(tags), TagKey);
      Record(a, Metadata(id.value, ext, sortedTags));
      Described(a, componentId, extension, tags, old(ids), metadata[a]);
      return Ok(a);
    }

    static lemma Described(a: Artifact, componentId: Option<string>, extension: Option<string>, tags: seq<string>,
                           ids: map<string, Artifact>, m: Metadata)
      requires Claims(ids, RequestedId(a, componentId), m.componentId)
      requires m.extension == ResolvedExtension(a, extension)
      requires StrictlySortedBy(m.tags, TagKey) && forall t :: t in m.tags <==> t in TagSet(tags)
      ensures Describes(ids, a, componentId, extension, tags, m)
    {}

    /** The updates of `add`. */
    method Record(a: Artifact, m: Metadata)
      requires Valid() && a !in metadata && a.parents == []
      requires m.componentId !in ids && StrictlySortedBy(m.tags, TagKey)
      modifies this
      ensures Valid() && compiled == None
      ensures history == old(history) + [Added(a, m)]
      ensures registry == old(registry) + [a] && bindings == old(bindings) && edges == old(edges)
      ensures metadata == old(metadata)[a := m] && ids == old(ids)[m.componentId := a]
      ensures Contents() == After(old(Contents()), Added(a, m))
    {
      hide StrictlySortedBy, IsRun, RunOf, CompilesTo, IdsAgree, ParentsOf;
      ghost var e, s := Added(a, m), Contents();
      Extend(history, e);
      MetadataIsRegistered(a);
      ParentsOfOneMore(registry, a);
      metadata := metadata[a := m];
      ids := ids[m.componentId := a];
      registry := registry + [a];
      compiled := None;
      history := history + [e];
    }

    /** What `register` and `connect` share: the binding, `parents`, the edge, the invalidation. */
    method Link(child: Artifact, parent: Artifact, cell: Option<CellSpec>)
      requires Valid() && child in metadata && parent in metadata
      requires cell.Some? ==> cell.value.kind in {"method", "state"}
      modifies this, child`parents
      ensures Valid() && compiled == None
      ensures metadata == old(metadata) && ids == old(ids)
      ensures history == old(history) + [Linked(child, parent, cell)]
      ensures Contents() == After(old(Contents()), Linked(child, parent, cell))
    {
      hide StrictlySortedBy, IsRun, RunOf, CompilesTo, IdsAgree, After, ParentsOf, AddOnce, BindingOf;
      ghost var e := Linked(child, parent, cell);
      Extend(history, e);
      MetadataIsRegistered(child);
      LinkFields(child, parent, cell);
      history := history + [e];
    }

    method LinkFields(child: Artifact, parent: Artifact, cell: Option<CellSpec>)
      requires child in metadata && parent in metadata && child in registry && metadata.Keys == Contents().parents.Keys
      requires Legal(Contents(), Linked(child, parent, cell))
      modifies this`bindings, this`edges, this`compiled, child`parents
      ensures compiled == None
      ensures Contents() == After(old(Contents()), Linked(child, parent, cell))
    {
      hide AddOnce, ParentsOf, After;
      ghost var s := Contents();
      if cell.Some? {
        bindings := AddOnce(bindings, BindingOf(metadata, child, parent, cell.value));
      }
      AddParent(child, parent);
      edges := AddOnce(edges, (child, parent));
      compiled := None;
      LinkedIs(s, Contents(), child, parent, cell);
    }

    static lemma LinkedIs(s: State, t: State, child: Artifact, parent: Artifact, cell: Option<CellSpec>)
      requires s.parents.Keys == s.metadata.Keys && Legal(s, Linked(child, parent, cell))
      requires t.registry == s.registry && t.metadata == s.metadata && t.ids == s.ids
      requires t.edges == AddOnce(s.edges, (child, parent))
      requires t.parents == s.parents[child := AddOnce(s.parents[child], parent)]
      requires t.bindings == if cell.None? then s.bindings
                             else AddOnce(s.bindings, BindingOf(s.metadata, child, parent, cell.value))
      ensures t == After(s, Linked(child, parent, cell))
    {}

    /** `child.parents.append(parent)` unless it is there */
    method AddParent(child: Artifact, parent: Artifact)
      requires child in registry
      modifies child`parents
      ensures ParentsOf(registry) == old(ParentsOf(registry))[child := AddOnce(old(ParentsOf(registry))[child], parent)]
    {
      child.parents := AddOnce(child.parents, parent);
    }

    lemma MetadataIsRegistered(a: Artifact)
      requires Valid()
      ensures (a in metadata <==> a in registry) && metadata.Keys == Contents().parents.Keys
    {}

    /** `connect` */
    method Connect(child: Artifact, parent: Artifact) returns (r: Result<(), CompileError>)
      requires Valid()
      requires child !in metadata ==> child.parents == []
      requires parent !in metadata ==> parent.parents == []
      modifies this, child`parents
      ensures Valid()
      ensures r.Ok? <==> child in metadata && parent in metadata
      ensures r.Err? ==> AddsOnly(old(history), history, child, parent) && child.parents == old(child.parents)
      ensures r.Ok? ==>
                && compiled == None
                && |history| > 0 && history[|history| - 1] == Linked(child, parent, None)
                && AddsOnly(old(history), history[..|history| - 1], child, parent)
      ensures child !in metadata ==> old(child !in metadata && Rejects(ids, child, None, None))
      ensures child in metadata && parent !in metadata ==>
                old(parent !in metadata) && Rejects(ids, parent, None, None)
    {
      hide Rejects, Describes, After, Valid, Contents, RunOf;
      var added := Add(child, None, None, []);
      if added.Err? { return Err(added.error); }
      added := Add(parent, None, None, []);
      if added.Err? { return Err(added.error); }
      Link(child, parent, None);
      return Ok(());
    }

    /** `register`: a missing cell is defined first, and stays defined if the rest is rejected. */
    method Register(child: Artifact, attr: string, parent: Artifact) returns (r: Result<(), CompileError>)
      requires Valid()
      requires child !in metadata ==> child.parents == []
      requires parent !in metadata ==> parent.parents == []
      modifies this, child`parents, child`cells
      ensures Valid()
      ensures r.Ok? <==> attr in child.cells && child in metadata && parent in metadata
      ensures r.Err? ==> AddsOnly(old(history), history, child, parent) && child.parents == old(child.parents)
      ensures r.Ok? ==>
                && compiled == None
                && |history| > 0
                && history[|history| - 1] ==
                     Linked(child, parent, Some(CellSpec(attr, if child.cells[attr].kind == StateCell then "state"
                                                               else "method")))
                && AddsOnly(old(history), history[..|history| - 1], child, parent)
      ensures attr in old(child.cells) ==> child.cells == old(child.cells)
      ensures attr !in old(child.cells) ==>
                (attr in child.cells <==> attr in child.attributes && child.attributes[attr] != InstanceCallable)
      ensures attr !in child.cells ==> child.cells == old(child.cells)
      ensures attr in child.cells && attr !in old(child.cells) ==>
                && child.cells == old(child.cells)[attr := child.cells[attr]]
                && child.cells[attr].kind ==
                    if child.attributes[attr] == ClassFunction then MethodCell(child) else StateCell
      ensures child !in metadata && attr in child.cells ==> old(child !in metadata && Rejects(ids, child, None, None))
      ensures child in metadata && parent !in metadata && attr in child.cells ==>
                old(parent !in metadata) && Rejects(ids, parent, None, None)
    {
      hide Rejects, Describes, After, Valid, Contents, RunOf;
      var ok := child.EnsureCell(attr);
      if !ok { return Err(NoAttribute); }
      var added := Add(child, None, None, []);
      if added.Err? { return Err(added.error); }
      added := Add(parent, None, None, []);
      if added.Err? { return Err(added.error); }
      Link(child, parent, Some(CellSpec(attr, KindOf(child.cells[attr]))));
      return Ok(());
    }

    /** `compile`: fails exactly when some chain of parents returns to its start, and names such a chain. */
    method Compile() returns (r: Result<RegistryGraph, CompileError>, ghost order: seq<Artifact>,
                   ghost cycle: seq<Artifact>)
      requires Valid()
      modifies this`compiled
      ensures Valid() && Good(Contents())
      ensures r.Err? <==> exists w: seq<Artifact> :: IsClosedWalk(Contents().parents, w)
      ensures r.Err? ==>
                && compiled == old(compiled)
                && IsClosedWalk(Contents().parents, cycle)
                && (forall a :: a in cycle ==> a in metadata)
                && r.error == Cycle(IdsOf(metadata, cycle))
      ensures r.Ok? ==>
                && compiled == Some(r.value)
                && CompilesTo(history, r.value)
                && IsPostorder(Contents().parents, order) && Covers(Contents().parents, order)
      ensures old(compiled).Some? ==> r.Ok? && compiled == old(compiled)
    {
      hide IsRun, RunOf, IsClosedWalk, IsPostorder, Covers, IsCompiled, Acyclic, RecipeOf, Closed, IdsAgree,
           TopologyAgrees, BindingsAgree;
      RunIsGood(history);
      ghost var s := Contents();
      CheckReady(s);
      var walk, finished := CheckCycles(registry, s.parents);
      cycle, order := walk, finished;
      if old(compiled).Some? { CompiledHasNoParentCycle(s, compiled.value, cycle); }
      if walk != [] {
        WalkIsRegistered(s, walk);
        r := Err(Cycle(IdsOf(metadata, walk)));
      } else {
        var g := Freeze(s, order, registry, metadata, edges, bindings);
        if old(compiled).Some? { CachedIsFresh(history, compiled.value, g); }
        compiled := Some(g);
        r := Ok(g);
        forall w: seq<Artifact> ensures !IsClosedWalk(s.parents, w) { PostorderExcludesCycles(s.parents, order, w); }
      }
    }

    /** What was compiled is one component per registered artifact. */
    lemma CompiledComponents()
      requires Valid() && compiled.Some?
      ensures compiled.value.schema == "artifact-registry-graph.v1"
      ensures forall a :: a in metadata ==>
                exists c :: c in compiled.value.components && c.componentId == metadata[a].componentId
      ensures forall c :: c in compiled.value.components ==>
                exists a :: a in metadata && metadata[a].componentId == c.componentId
    {
      hide IsRun, RunOf, IsCompiled, Acyclic, Good;
      ComponentsAre(Contents(), compiled.value);
    }

    /** It has the class and module of its artifact, and the extension and tags the artifact was added with. */
    lemma CompiledFields()
      requires Valid() && compiled.Some?
      ensures forall c, a ::
                c in compiled.value.components && a in metadata && metadata[a].componentId == c.componentId ==>
                  && c.componentType == a.name
                  && c.module_ == a.module_
                  && c.extension == metadata[a].extension
                  && c.tags == metadata[a].tags
    {
      hide IsRun, RunOf, IsCompiled, Acyclic, Good;
      ComponentsAre(Contents(), compiled.value);
    }

    /** Of two components the earlier has an id that is a proper prefix of the later's, or smaller where they first
        differ. */
    lemma CompiledOrder()
      requires Valid() && compiled.Some?
      ensures forall i, j :: 0 <= i < j < |compiled.value.components| ==>
                var a, b := compiled.value.components[i].componentId, compiled.value.components[j].componentId;
                a < b || exists k :: 0 <= k < |a| && k < |b| && a[..k] == b[..k] && a[k] < b[k]
    {
      hide IsRun, RunOf, Good, RecipeOf, Acyclic, SortedBy;
      ComponentsAscend(compiled.value.components);
    }

    /** Each has the cells of the registered bindings that name it. */
    lemma CompiledCells()
      requires Valid() && compiled.Some?
      ensures forall c, x :: c in compiled.value.components && x in c.provided ==>
                exists b :: b in bindings && b.providerId == c.componentId && b.cellName.Some?
                      && CellSpec(b.cellName.value, b.kind) == x
      ensures forall c, b :: c in compiled.value.components && b in bindings && b.providerId == c.componentId ==>
                b.cellName.Some? && CellSpec(b.cellName.value, b.kind) in c.provided
      ensures forall c, x :: c in compiled.value.components && x in c.required ==>
                exists b :: b in bindings && b.consumerId == c.componentId && b.cellName.Some?
                      && CellSpec(b.cellName.value, b.kind) == x
      ensures forall c, b :: c in compiled.value.components && b in bindings && b.consumerId == c.componentId ==>
                b.cellName.Some? && CellSpec(b.cellName.value, b.kind) in c.required
    {
      hide IsRun, RunOf, IsCompiled, Acyclic, Good;
      CellsAre(Contents(), compiled.value);
    }

    /** The bindings are those registered, and one for each other connected pair. */
    lemma CompiledBindings()
      requires Valid() && compiled.Some?
      ensures forall b :: b in bindings ==> b in compiled.value.bindings
      ensures forall b :: b in compiled.value.bindings && b !in bindings ==>
                b.cellName == None && b.kind == "component"
      ensures forall b, x :: b in compiled.value.bindings && b !in bindings && x in bindings ==>
                x.providerId != b.providerId || x.consumerId != b.consumerId
      ensures forall e :: e in edges ==>
                && e.0 in metadata && e.1 in metadata
                && exists b :: b in compiled.value.bindings && b.providerId == metadata[e.0].componentId
                               && b.consumerId == metadata[e.1].componentId
      ensures forall b :: b in compiled.value.bindings ==>
                exists e :: e in edges && e.0 in metadata && e.1 in metadata
                            && b.providerId == metadata[e.0].componentId && b.consumerId == metadata[e.1].componentId
    {
      hide IsRun, RunOf, IsCompiled, Acyclic, Good;
      BindingsAre(Contents(), compiled.value);
      PairsAre(Contents(), compiled.value);
    }

    static lemma CheckReady(s: State)
      requires Good(s)
      ensures Closed(s.parents) && s.parents.Keys == s.metadata.Keys
      ensures forall a :: a in s.parents <==> a in s.registry
    {}

    static lemma WalkIsRegistered(s: State, w: seq<Artifact>)
      requires Good(s) && IsClosedWalk(s.parents, w)
      ensures forall a :: a in w ==> a in s.metadata
    {}

    /** `finalize`: compile, then one sweep over the cells; a registry with a cycle is left as it was. */
    method Finalize() returns (r: Result<RegistryGraph, CompileError>, ghost order: seq<Artifact>)
      requires Valid()
      modifies this`compiled, registry`cells, registry`stateMap
      ensures Valid()
      ensures r.Err? <==> exists w: seq<Artifact> :: IsClosedWalk(Contents().parents, w)
      ensures r.Err? ==> compiled == old(compiled) && forall a :: a in registry ==> unchanged(a)
      ensures r.Ok? ==>
                && compiled == Some(r.value) && CompilesTo(history, r.value)
                && IsPostorder(Contents().parents, order) && Covers(Contents().parents, order)
                && HoldingOf(metadata.Keys) == Sweep(old(HoldingOf(metadata.Keys)), Contents().parents, order, registry)
    {
      hide IsRun, RunOf, IsClosedWalk, IsPostorder, Covers, Sweep, CompilesTo, IdsAgree, TopologyAgrees, BindingsAgree;
      ghost var cycle;
      ghost var s := Contents();
      r, order, cycle := Compile();
      CheckReady(s);
      if r.Ok? {
        PropagateAll(registry, s.parents, order);
        forall w: seq<Artifact> ensures !IsClosedWalk(s.parents, w) { PostorderExcludesCycles(s.parents, order, w); }
      }
    }

    /** `compiled_graph` */
    method CompiledGraph() returns (r: Result<RegistryGraph, CompileError>)
      requires Valid()
      ensures r.Err? <==> compiled.None?
      ensures r.Ok? ==> CompilesTo(history, r.value)
    {
      if compiled.None? { return Err(NotCompiled); }
      return Ok(compiled.value);
    }
  }

  lemma FewerThan<T>(a: set<T>, b: set<T>)
    requires a <= b
    ensures |a| <= |b|
  {
    assert b == a + (b - a);
  }
}
