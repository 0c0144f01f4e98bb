/** What a compiled graph must be, as a function of what was registered and regardless of the order in
    which it was. */
module Recipe {
  import opened Wrappers
  import opened Ordering
  import opened Registry
  import opened Digraph

  datatype Info = Info(componentType: string, module_: string, extension: string, tags: seq<string>)

  /** Everything registered, without order: components by id, child/parent pairs, cell bindings. */
  datatype Recipe = Recipe(components: map<string, Info>, edges: set<(string, string)>, bindings: set<BindingSpec>)

  ghost predicate ValidRecipe(r: Recipe) {
    && (forall b :: b in r.bindings ==> (b.providerId, b.consumerId) in r.edges)
    && (forall e :: e in r.edges ==> e.0 in r.components && e.1 in r.components)
    && (forall id :: id in r.components ==> SortedBy(r.components[id].tags, TagKey))
  }

  ghost predicate Provides(r: Recipe, id: string, cell: CellSpec) {
    exists consumer :: BindingSpec(id, consumer, Some(cell.name), cell.kind) in r.bindings
  }

  ghost predicate Requires(r: Recipe, id: string, cell: CellSpec) {
    exists provider :: BindingSpec(provider, id, Some(cell.name), cell.kind) in r.bindings
  }

  ghost predicate PairBound(bs: set<BindingSpec>, provider: string, consumer: string) {
    exists b :: b in bs && b.providerId == provider && b.consumerId == consumer
  }

  function TopologyBinding(e: (string, string)): BindingSpec {
    BindingSpec(e.0, e.1, None, "component")
  }

  /** The bindings of the compiled graph: every cell binding, and a component binding for each pair that
      was connected without a cell. */
  ghost predicate IsBinding(r: Recipe, b: BindingSpec) {
    b in r.bindings
    || (b == TopologyBinding((b.providerId, b.consumerId))
        && (b.providerId, b.consumerId) in r.edges
        && !PairBound(r.bindings, b.providerId, b.consumerId))
  }

  ghost predicate IsComponent(r: Recipe, c: ComponentSpec) {
    && c.componentId in r.components
    && r.components[c.componentId] == Info(c.componentType, c.module_, c.extension, c.tags)
    && StrictlySortedBy(c.provided, CellKey)
    && StrictlySortedBy(c.required, CellKey)
    && (forall cell :: cell in c.provided <==> Provides(r, c.componentId, cell))
    && (forall cell :: cell in c.required <==> Requires(r, c.componentId, cell))
  }

  ghost predicate IsCompiled(r: Recipe, g: RegistryGraph) {
    && g.schema == SCHEMA
    && StrictlySortedBy(g.components, ComponentKey)
    && (forall c :: c in g.components ==> IsComponent(r, c))
    && (forall id :: id in r.components ==> Knows(g.components, id))
    && StrictlySortedBy(g.bindings, BindingKey)
    && (forall b :: b in g.bindings <==> IsBinding(r, b))
  }

  /** Equal recipes compile to equal graphs: the order of registration leaves no trace. */
  lemma CompiledIsUnique(r: Recipe, g: RegistryGraph, h: RegistryGraph)
    requires IsCompiled(r, g) && IsCompiled(r, h)
    ensures g == h
  {
    forall c ensures c in g.components <==> c in h.components {
      if c in g.components { ComponentIsShared(r, g, h, c); }
      if c in h.components { ComponentIsShared(r, h, g, c); }
    }
    StrictlySortedUnique(g.components, h.components, ComponentKey);
    StrictlySortedUnique(g.bindings, h.bindings, BindingKey);
  }

  lemma ComponentIsShared(r: Recipe, g: RegistryGraph, h: RegistryGraph, c: ComponentSpec)
    requires IsCompiled(r, g) && IsCompiled(r, h) && c in g.components
    ensures c in h.components
  {
    assert IsComponent(r, c);
    var i :| 0 <= i < |h.components| && h.components[i].componentId == c.componentId;
    var d := h.components[i];
    assert d in h.components && IsComponent(r, d);
    StrictlySortedUnique(c.provided, d.provided, CellKey);
    StrictlySortedUnique(c.required, d.required, CellKey);
  }

  /** A compiled graph is in the canonical form that survives printing and parsing. */
  lemma CompiledIsCanonical(r: Recipe, g: RegistryGraph)
    requires ValidRecipe(r) && IsCompiled(r, g)
    ensures Canonical(g)
  {
    forall i | 0 <= i < |g.components| ensures CanonicalComponent(g.components[i]) {
      assert g.components[i] in g.components;
      assert IsComponent(r, g.components[i]);
    }
    forall i | 0 <= i < |g.bindings|
      ensures Knows(g.components, g.bindings[i].providerId) && Knows(g.components, g.bindings[i].consumerId)
    {
      assert g.bindings[i] in g.bindings;
      assert IsBinding(r, g.bindings[i]);
      assert (g.bindings[i].providerId, g.bindings[i].consumerId) in r.edges;
    }
  }

  /** The provider/consumer pairs of a compiled graph are exactly the connected pairs. */
  lemma PairsAreEdges(r: Recipe, g: RegistryGraph, provider: string, consumer: string)
    requires ValidRecipe(r) && IsCompiled(r, g)
    ensures (provider, consumer) in r.edges <==>
            exists b :: b in g.bindings && b.providerId == provider && b.consumerId == consumer
  {
    if (provider, consumer) in r.edges {
      if PairBound(r.bindings, provider, consumer) {
        var b :| b in r.bindings && b.providerId == provider && b.consumerId == consumer;
        assert IsBinding(r, b);
      } else {
        assert IsBinding(r, TopologyBinding((provider, consumer)));
      }
    }
    if b :| b in g.bindings && b.providerId == provider && b.consumerId == consumer {
      assert IsBinding(r, b);
    }
  }

  /** Component ids can be listed so that every consumer comes before its providers. */
  ghost predicate Acyclic(g: RegistryGraph) {
    exists ids: seq<string> :: ConsumersFirst(g, ids)
  }

  ghost predicate ConsumersFirst(g: RegistryGraph, ids: seq<string>) {
    && NoRepeats(ids)
    && forall b :: b in g.bindings ==> b.consumerId in ids && b.providerId in ids
                                       && Pos(ids, b.consumerId) < Pos(ids, b.providerId)
  }

  predicate Linked(g: RegistryGraph, provider: string, consumer: string) {
    exists b :: b in g.bindings && b.providerId == provider && b.consumerId == consumer
  }

  /** An acyclic graph has no cycle of bindings. */
  lemma AcyclicHasNoCycle(g: RegistryGraph, w: seq<string>)
    requires Acyclic(g) && |w| >= 2
    requires forall i :: 0 <= i < |w| - 1 ==> LinkedAt(g, w, i)
    ensures w[0] != w[|w| - 1]
  {
    var ids: seq<string> :| ConsumersFirst(g, ids);
    BindingsDescend(g, ids, w, |w| - 1);
  }

  predicate LinkedAt(g: RegistryGraph, w: seq<string>, i: nat)
    requires i + 1 < |w|
  {
    Linked(g, w[i], w[i + 1])
  }

  lemma {:induction false} BindingsDescend(g: RegistryGraph, ids: seq<string>, w: seq<string>, i: nat)
    requires ConsumersFirst(g, ids) && 0 < i < |w|
    requires forall j :: 0 <= j < |w| - 1 ==> LinkedAt(g, w, j)
    ensures w[i] in ids && w[0] in ids && Pos(ids, w[i]) < Pos(ids, w[0])
  {
    assert LinkedAt(g, w, i - 1);
    if i > 1 { BindingsDescend(g, ids, w, i - 1); }
  }
}
