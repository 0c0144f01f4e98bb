/** What the orchestrator's fields and its artifacts' parent lists hold together, and what each accepted
    call does to them. */
module RegistryState {
  import opened Wrappers
  import opened Ordering
  import opened Registry
  import opened Digraph
  import opened Recipe
  import opened Artifacts

  datatype Metadata = Metadata(componentId: string, extension: string, tags: seq<string>)

  datatype State = State(
    registry: seq<Artifact>,
    metadata: map<Artifact, Metadata>,
    ids: map<string, Artifact>,
    bindings: seq<BindingSpec>,
    edges: seq<(Artifact, Artifact)>,
    parents: Graph<Artifact>)

  const EMPTY := State([], map[], map[], [], [], map[])

  /** An accepted `add` of a new artifact, or a `connect` (no cell) or `register` of two registered ones. */
  datatype Effect =
    | Added(a: Artifact, m: Metadata)
    | Linked(child: Artifact, parent: Artifact, cell: Option<CellSpec>)

  predicate Legal(s: State, e: Effect) {
    match e
    case Added(a, m) => a !in s.metadata && m.componentId !in s.ids && StrictlySortedBy(m.tags, TagKey)
    case Linked(child, parent, cell) =>
      child in s.metadata && parent in s.metadata && (cell.Some? ==> cell.value.kind in {"method", "state"})
  }

  function AddOnce<T(==)>(s: seq<T>, x: T): (r: seq<T>)
    ensures x in r && (forall y :: y in s ==> y in r) && (forall y :: y in r ==> y in s || y == x)
    ensures NoRepeats(s) ==> NoRepeats(r)
  {
    if x in s then s else s + [x]
  }

  function BindingOf(metadata: map<Artifact, Metadata>, child: Artifact, parent: Artifact, cell: CellSpec): BindingSpec
    requires child in metadata && parent in metadata
  {
    BindingSpec(metadata[child].componentId, metadata[parent].componentId, Some(cell.name), cell.kind)
  }

  function After(s: State, e: Effect): State
    requires s.parents.Keys == s.metadata.Keys && Legal(s, e)
  {
    match e
    case Added(a, m) =>
      s.(registry := s.registry + [a], metadata := s.metadata[a := m], ids := s.ids[m.componentId := a],
         parents := s.parents[a := []])
    case Linked(child, parent, cell) =>
      s.(edges := AddOnce(s.edges, (child, parent)),
         parents := s.parents[child := AddOnce(s.parents[child], parent)],
         bindings := if cell.None? then s.bindings
                     else AddOnce(s.bindings, BindingOf(s.metadata, child, parent, cell.value)))
  }

  /** Linking adds the edge, the parent and the binding behind those already there, each of them once. */
  lemma LinkedAdds(s: State, child: Artifact, parent: Artifact, cell: Option<CellSpec>)
    requires s.parents.Keys == s.metadata.Keys && Legal(s, Linked(child, parent, cell))
    ensures var t := After(s, Linked(child, parent, cell));
            && t.registry == s.registry && t.metadata == s.metadata && t.ids == s.ids
            && t.edges == (if (child, parent) in s.edges then s.edges else s.edges + [(child, parent)])
            && t.parents == s.parents[child := if parent in s.parents[child] then s.parents[child]
                                               else s.parents[child] + [parent]]
            && (cell == None ==> t.bindings == s.bindings)
    ensures cell.Some? ==>
              var b := BindingSpec(s.metadata[child].componentId, s.metadata[parent].componentId,
                                   Some(cell.value.name), cell.value.kind);
              After(s, Linked(child, parent, cell)).bindings
              == if b in s.bindings then s.bindings else s.bindings + [b]
  {}

  // ---- Invariants ----

  /** Ids and metadata are inverse to each other, over exactly the registered artifacts. */
  ghost predicate IdsAgree(s: State) {
    && NoRepeats(s.registry)
    && s.metadata.Keys == s.parents.Keys
    && (forall a :: a in s.metadata ==> a in s.registry)
    && (forall a :: a in s.registry ==> a in s.metadata)
    && (forall a :: a in s.metadata ==> s.metadata[a].componentId in s.ids && s.ids[s.metadata[a].componentId] == a)
    && (forall id :: id in s.ids ==> s.ids[id] in s.metadata && s.metadata[s.ids[id]].componentId == id)
    && (forall a :: a in s.metadata ==> StrictlySortedBy(s.metadata[a].tags, TagKey))
  }

  /** `parents` and `_topology_edges` are the same relation over registered artifacts. */
  ghost predicate TopologyAgrees(s: State) {
    && NoRepeats(s.edges)
    && (forall a :: a in s.parents ==> NoRepeats(s.parents[a]))
    && (forall a, p :: a in s.parents && p in s.parents[a] ==> p in s.parents && (a, p) in s.edges)
    && (forall e :: e in s.edges ==> e.0 in s.parents && e.1 in s.parents[e.0])
  }

  /** Every cell binding names two connected components. */
  ghost predicate BindingsAgree(s: State) {
    && NoRepeats(s.bindings)
    && forall b :: b in s.bindings ==>
         && b.cellName.Some? && b.kind in {"method", "state"}
         && b.providerId in s.ids && b.consumerId in s.ids
         && (s.ids[b.providerId], s.ids[b.consumerId]) in s.edges
  }

  ghost predicate Good(s: State) {
    IdsAgree(s) && TopologyAgrees(s) && BindingsAgree(s)
  }

  lemma AfterKeepsIds(s: State, e: Effect)
    requires IdsAgree(s) && Legal(s, e)
    ensures IdsAgree(After(s, e))
  {
    hide StrictlySortedBy;
  }

  lemma AfterKeepsTopology(s: State, e: Effect)
    requires IdsAgree(s) && TopologyAgrees(s) && Legal(s, e)
    ensures TopologyAgrees(After(s, e))
  {
    hide IdsAgree, StrictlySortedBy;
    assert s.metadata.Keys == s.parents.Keys by { Keys(s); }
  }

  lemma Keys(s: State)
    requires IdsAgree(s)
    ensures s.metadata.Keys == s.parents.Keys
  {}

  lemma AfterKeepsBindings(s: State, e: Effect)
    requires Good(s) && Legal(s, e)
    ensures BindingsAgree(After(s, e))
  {
    hide TopologyAgrees, StrictlySortedBy;
  }

  // ---- Runs ----

  ghost predicate IsRun(h: seq<Effect>)
    decreases |h|, 0
  {
    h == [] || (IsRun(h[..|h| - 1]) && Legal(RunOf(h[..|h| - 1]), h[|h| - 1]))
  }

  ghost function RunOf(h: seq<Effect>): (s: State)
    requires IsRun(h)
    ensures IdsAgree(s)
    decreases |h|, 1
  {
    if h == [] then EMPTY
    else
      var s := RunOf(h[..|h| - 1]);
      AfterKeepsIds(s, h[|h| - 1]);
      After(s, h[|h| - 1])
  }

  /** Whatever calls were accepted, in whatever order, the three views agree. */
  lemma {:induction false} RunIsGood(h: seq<Effect>)
    requires IsRun(h)
    ensures Good(RunOf(h))
  {
    if h != [] {
      var front, e := h[..|h| - 1], h[|h| - 1];
      RunIsGood(front);
      var s := RunOf(front);
      AfterKeepsIds(s, e);
      AfterKeepsTopology(s, e);
      AfterKeepsBindings(s, e);
    }
  }

  lemma Extend(h: seq<Effect>, e: Effect)
    requires IsRun(h) && Legal(RunOf(h), e)
    ensures IsRun(h + [e]) && RunOf(h + [e]) == After(RunOf(h), e)
  {
    var x := h + [e];
    assert x[..|x| - 1] == h;
  }

  // ---- The recipe of a state ----

  function InfoOf(metadata: map<Artifact, Metadata>, a: Artifact): Info
    requires a in metadata
  {
    Info(a.name, a.module_, metadata[a].extension, metadata[a].tags)
  }

  ghost function RecipeOf(s: State): Recipe
    requires Good(s)
  {
    Recipe(
      map id | id in s.ids :: InfoOf(s.metadata, s.ids[id]),
      set e | e in s.edges :: (s.metadata[e.0].componentId, s.metadata[e.1].componentId),
      set b | b in s.bindings)
  }

  lemma RecipeIsValid(s: State)
    requires Good(s)
    ensures ValidRecipe(RecipeOf(s))
  {
    var r := RecipeOf(s);
    forall b | b in r.bindings ensures (b.providerId, b.consumerId) in r.edges {
      var e := (s.ids[b.providerId], s.ids[b.consumerId]);
      assert e in s.edges;
    }
    forall id | id in r.components ensures SortedBy(r.components[id].tags, TagKey) {
      assert s.ids[id] in s.metadata;
    }
  }

  /** Run states are determined, up to the order of their lists, by which calls were accepted. */
  lemma RunRemembers(h: seq<Effect>)
    requires IsRun(h)
    ensures LinksRegistered(h)
    ensures forall a, m :: Added(a, m) in h <==> a in RunOf(h).metadata && RunOf(h).metadata[a] == m
    ensures forall c, p :: (c, p) in RunOf(h).edges <==> exists cell :: Linked(c, p, cell) in h
    ensures forall b :: b in RunOf(h).bindings <==> Bound(h, b)
  {
    RunRemembersAdds(h);
    RunRemembersLinks(h);
    forall b ensures b in RunOf(h).bindings <==> Bound(h, b) { RunRemembersBinding(h, b); }
  }

  lemma {:induction false} RunRemembersAdds(h: seq<Effect>)
    requires IsRun(h)
    ensures LinksRegistered(h)
    ensures forall a, m :: Added(a, m) in h <==> a in RunOf(h).metadata && RunOf(h).metadata[a] == m
  {
    hide StrictlySortedBy, IdsAgree;
    if h != [] {
      var front, e := h[..|h| - 1], h[|h| - 1];
      RunRemembersAdds(front);
      assert h == front + [e];
    }
  }

  lemma {:induction false} RunRemembersLinks(h: seq<Effect>)
    requires IsRun(h)
    ensures forall c, p :: (c, p) in RunOf(h).edges <==> exists cell :: Linked(c, p, cell) in h
  {
    hide StrictlySortedBy, IdsAgree, BindingOf, NoRepeats;
    if h != [] {
      var front, e := h[..|h| - 1], h[|h| - 1];
      RunRemembersLinks(front);
      assert h == front + [e];
      forall c, p ensures (c, p) in RunOf(h).edges <==> exists cell :: Linked(c, p, cell) in h {
        if (c, p) in RunOf(front).edges {
          var cell :| Linked(c, p, cell) in front;
          assert Linked(c, p, cell) in h;
        } else if (c, p) in RunOf(h).edges {
          assert Linked(c, p, e.cell) in h;
        }
      }
    }
  }

  lemma {:induction false} RunRemembersBinding(h: seq<Effect>, b: BindingSpec)
    requires IsRun(h)
    ensures b in RunOf(h).bindings <==> Bound(h, b)
  {
    hide IdsAgree, StrictlySortedBy, LinksRegistered, Legal;
    if h != [] {
      var front, e := h[..|h| - 1], h[|h| - 1];
      RunRemembersBinding(front, b);
      RunRemembersAdds(front);
      assert h == front + [e];
      BoundExtends(front, e, b);
    }
  }

  /** Some accepted `register` asked for the binding. */
  ghost predicate Bound(h: seq<Effect>, b: BindingSpec)
    requires IsRun(h)
  {
    exists e :: e in h && Asks(RunOf(h).metadata, e, b)
  }

  predicate Asks(metadata: map<Artifact, Metadata>, e: Effect, b: BindingSpec) {
    && e.Linked? && e.cell.Some? && e.child in metadata && e.parent in metadata
    && b == BindingOf(metadata, e.child, e.parent, e.cell.value)
  }

  lemma BoundExtends(h: seq<Effect>, e: Effect, b: BindingSpec)
    requires IsRun(h + [e]) && IsRun(h) && Legal(RunOf(h), e) && RunOf(h + [e]) == After(RunOf(h), e)
    requires b in RunOf(h).bindings <==> Bound(h, b)
    requires LinksRegistered(h)
    ensures b in RunOf(h + [e]).bindings <==> Bound(h + [e], b)
  {
    hide IsRun, RunOf, IdsAgree, StrictlySortedBy;
    var s, t := RunOf(h), RunOf(h + [e]);
    assert forall a :: a in s.metadata ==> a in t.metadata && t.metadata[a] == s.metadata[a];
    if Bound(h, b) {
      var x :| x in h && Asks(s.metadata, x, b);
      assert x in h + [e] && Asks(t.metadata, x, b);
    } else if b in t.bindings {
      assert e in h + [e] && Asks(t.metadata, e, b);
    }
    if Bound(h + [e], b) {
      var x :| x in h + [e] && Asks(t.metadata, x, b);
      if x in h {
        assert Asks(s.metadata, x, b);
      }
    }
  }

  ghost predicate LinksRegistered(h: seq<Effect>)
    requires IsRun(h)
  {
    forall e :: e in h && e.Linked? ==> e.child in RunOf(h).metadata && e.parent in RunOf(h).metadata
  }

  /** The same accepted calls in any order, with any repetition, compile to the same graph. */
  lemma CompileIsCanonical(h: seq<Effect>, k: seq<Effect>, g: RegistryGraph, f: RegistryGraph)
    requires IsRun(h) && IsRun(k) && (forall e :: e in h <==> e in k)
    requires Good(RunOf(h)) && IsCompiled(RecipeOf(RunOf(h)), g)
    requires Good(RunOf(k)) && IsCompiled(RecipeOf(RunOf(k)), f)
    ensures g == f
  {
    SameRecipe(h, k);
    CompiledIsUnique(RecipeOf(RunOf(h)), g, f);
  }

  lemma SameRecipe(h: seq<Effect>, k: seq<Effect>)
    requires IsRun(h) && IsRun(k) && (forall e :: e in h <==> e in k)
    requires Good(RunOf(h)) && Good(RunOf(k))
    ensures RecipeOf(RunOf(h)) == RecipeOf(RunOf(k))
  {
    hide IsRun, RunOf, TopologyAgrees, BindingsAgree, StrictlySortedBy;
    RunRemembers(h);
    RunRemembers(k);
    var s, t := RunOf(h), RunOf(k);
    SameMetadata(h, k);
    forall id | id in s.ids ensures id in t.ids && t.ids[id] == s.ids[id] { assert s.ids[id] in t.metadata; }
    forall id | id in t.ids ensures id in s.ids { assert t.ids[id] in s.metadata; }
    assert s.ids == t.ids;
    forall e ensures e in s.edges <==> e in t.edges { assert e == (e.0, e.1); }
    forall b ensures b in s.bindings <==> b in t.bindings { SameBound(h, k, b); }
    var x, y := RecipeOf(s), RecipeOf(t);
    assert x.components == y.components;
    assert x.edges == y.edges;
    assert x.bindings == y.bindings;
  }

  lemma SameMetadata(h: seq<Effect>, k: seq<Effect>)
    requires IsRun(h) && IsRun(k) && (forall e :: e in h <==> e in k)
    ensures RunOf(h).metadata == RunOf(k).metadata
  {
    hide IsRun, RunOf, IdsAgree;
    var s, t := RunOf(h).metadata, RunOf(k).metadata;
    forall a | a in s ensures a in t && t[a] == s[a] { AddedIff(h, a, s[a]); AddedIff(k, a, s[a]); }
    forall a | a in t ensures a in s { AddedIff(h, a, t[a]); AddedIff(k, a, t[a]); }
  }

  lemma AddedIff(h: seq<Effect>, a: Artifact, m: Metadata)
    requires IsRun(h)
    ensures Added(a, m) in h <==> a in RunOf(h).metadata && RunOf(h).metadata[a] == m
  {
    hide IsRun, RunOf;
    RunRemembersAdds(h);
  }

  lemma SameBound(h: seq<Effect>, k: seq<Effect>, b: BindingSpec)
    requires IsRun(h) && IsRun(k) && (forall e :: e in h <==> e in k)
    requires RunOf(h).metadata == RunOf(k).metadata
    ensures Bound(h, b) <==> Bound(k, b)
  {}
}
