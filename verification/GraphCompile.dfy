/** The graph compile: from registered components, edges and bindings to the frozen graph. */
module GraphCompile {
  import opened Wrappers
  import opened Ordering
  import opened Registry
  import opened Digraph
  import opened Recipe
  import opened Artifacts
  import opened RegistryState
  import opened RegistryFilter
  import opened CompiledForm

  // ---- Sorting sets ----

  lemma {:induction false} OnceEach<T>(s: seq<T>)
    requires NoRepeats(s)
    ensures forall x :: multiset(s)[x] <= 1
  {
    if s != [] {
      var n := |s| - 1;
      OnceEach(s[..n]);
      assert s == s[..n] + [s[n]];
      assert s[n] !in multiset(s[..n]);
    }
  }

  /** Sorting a list without repetition by a key that tells its elements apart sorts it strictly. */
  lemma SortIsStrict<T(!new)>(s: seq<T>, key: T -> seq<string>)
    requires NoRepeats(s)
    requires forall x, y :: x in s && y in s && key(x) == key(y) ==> x == y
    ensures StrictlySortedBy(SortBy(s, key), key)
    ensures forall x :: x in SortBy(s, key) <==> x in s
  {
    var r := SortBy(s, key);
    SortSorts(s, key);
    SameMembers(r, s);
    RearrangedOnceEach(s, r);
    forall i, j | 0 <= i < j < |r| ensures key(r[i]) != key(r[j]) {
      var x, y := r[i], r[j];
      assert x != y && x in r && y in r;
      assert x in multiset(s) && y in multiset(s);
    }
  }

  lemma RearrangedOnceEach<T>(s: seq<T>, r: seq<T>)
    requires NoRepeats(s) && multiset(s) == multiset(r)
    ensures NoRepeats(r)
  {
    OnceEach(s);
    forall i, j | 0 <= i < j < |r| ensures r[i] != r[j] {
      var m := multiset(r[..j]) + multiset(r[j..]);
      assert r == r[..j] + r[j..];
      assert r[i] in r[..j] && r[j] in r[j..];
      assert multiset(r)[r[i]] <= 1;
    }
  }

  /** `sorted(s)` of a set: its one strictly sorted listing. */
  method SortedSet<T(==,!new)>(s: set<T>, key: T -> seq<string>) returns (r: seq<T>)
    requires forall x, y :: x in s && y in s && key(x) == key(y) ==> x == y
    ensures StrictlySortedBy(r, key)
    ensures forall x :: x in r <==> x in s
  {
    var rest, list := s, [];
    while rest != {}
      invariant rest <= s
      invariant forall x :: x in list <==> x in s && x !in rest
      invariant NoRepeats(list)
      decreases rest
    {
      var x :| x in rest;
      rest, list := rest - {x}, list + [x];
    }
    r := SortBy(list, key);
    SortIsStrict(list, key);
  }

  // ---- Bindings ----

  function EdgeIds(metadata: map<Artifact, Metadata>, e: (Artifact, Artifact)): (string, string)
    requires e.0 in metadata && e.1 in metadata
  {
    (metadata[e.0].componentId, metadata[e.1].componentId)
  }

  /** The bindings of the compiled graph: those registered, and one for each edge that no binding covers. */
  method AllBindings(ghost s: State, metadata: map<Artifact, Metadata>, edges: seq<(Artifact, Artifact)>,
                     registered: seq<BindingSpec>)
    returns (all: seq<BindingSpec>)
    requires Good(s) && metadata == s.metadata && edges == s.edges && registered == s.bindings
    ensures StrictlySortedBy(all, BindingKey)
    ensures forall b :: b in all <==> IsBinding(RecipeOf(s), b)
  {
    hide IdsAgree, BindingsAgree, StrictlySortedBy;
    EdgesHaveIds(s);
    BindingsHaveCells(s);
    var boundPairs := set b | b in registered :: (b.providerId, b.consumerId);
    all := registered;
    ghost var r := RecipeOf(s);
    for i := 0 to |edges|
      invariant NoRepeats(all)
      invariant forall b :: b in registered ==> b in all
      invariant forall b :: b in all ==> b in registered || (Uncovered(r, b) && FromEdges(metadata, edges[..i], b))
      invariant forall j :: 0 <= j < i && EdgeIds(metadata, edges[j]) !in boundPairs
                            ==> TopologyBinding(EdgeIds(metadata, edges[j])) in all
    {
      var pair := EdgeIds(metadata, edges[i]);
      if pair !in boundPairs {
        EdgeIsNew(s, i);
        all := all + [TopologyBinding(pair)];
      }
    }
    var unsorted := all;
    forall b ensures b in all <==> IsBinding(r, b) {
      if IsBinding(r, b) && b !in registered {
        var e :| e in s.edges && EdgeIds(metadata, e) == (b.providerId, b.consumerId);
      }
    }
    all := SortBy(all, BindingKey);
    forall x, y | x in unsorted && y in unsorted && BindingKey(x) == BindingKey(y) ensures x == y {
      KeyTellsBindingsApart(x, y);
    }
    SortIsStrict(unsorted, BindingKey);
  }

  lemma EdgesHaveIds(s: State)
    requires Good(s)
    ensures forall e :: e in s.edges ==> e.0 in s.metadata && e.1 in s.metadata
  {}

  lemma BindingsHaveCells(s: State)
    requires Good(s)
    ensures NoRepeats(s.bindings)
    ensures forall b :: b in s.bindings ==> HasCell(b)
  {}

  predicate HasCell(b: BindingSpec) {
    b.cellName.Some? && b.kind in {"method", "state"}
  }

  ghost predicate Uncovered(r: Recipe, b: BindingSpec) {
    && b == TopologyBinding((b.providerId, b.consumerId))
    && (b.providerId, b.consumerId) in r.edges
    && !PairBound(r.bindings, b.providerId, b.consumerId)
  }

  ghost predicate FromEdges(metadata: map<Artifact, Metadata>, edges: seq<(Artifact, Artifact)>, b: BindingSpec) {
    exists e :: e in edges && e.0 in metadata && e.1 in metadata && EdgeIds(metadata, e) == (b.providerId, b.consumerId)
  }

  /** Ids are injective, so no two edges join the same pair of ids. */
  lemma EdgeIsNew(s: State, i: nat)
    requires Good(s) && i < |s.edges|
    ensures s.edges[i].0 in s.metadata && s.edges[i].1 in s.metadata
    ensures !FromEdges(s.metadata, s.edges[..i], TopologyBinding(EdgeIds(s.metadata, s.edges[i])))
  {
    hide BindingsAgree, StrictlySortedBy;
    var e := s.edges[i];
    assert e in s.edges;
    forall d | d in s.edges[..i] && d.0 in s.metadata && d.1 in s.metadata
      ensures EdgeIds(s.metadata, d) != EdgeIds(s.metadata, e)
    {
      assert d != e;
      assert d.0 == s.ids[s.metadata[d.0].componentId] && d.1 == s.ids[s.metadata[d.1].componentId];
    }
  }

  lemma KeyTellsBindingsApart(x: BindingSpec, y: BindingSpec)
    requires HasCell(x) || (x.cellName.None? && x.kind == "component")
    requires HasCell(y) || (y.cellName.None? && y.kind == "component")
    requires BindingKey(x) == BindingKey(y)
    ensures x == y
  {
    assert BindingKey(x)[0] == BindingKey(y)[0] && BindingKey(x)[1] == BindingKey(y)[1]
           && BindingKey(x)[2] == BindingKey(y)[2] && BindingKey(x)[3] == BindingKey(y)[3];
  }

  // ---- Cells ----

  /** `provided.get(id, ())` */
  function CellsAt(m: map<string, set<CellSpec>>, id: string): set<CellSpec> {
    if id in m then m[id] else {}
  }

  function WithCell(m: map<string, set<CellSpec>>, id: string, c: CellSpec): (r: map<string, set<CellSpec>>)
    ensures forall k, x :: x in CellsAt(r, k) <==> x in CellsAt(m, k) || (k == id && x == c)
  {
    m[id := CellsAt(m, id) + {c}]
  }

  method CellSets(bindings: seq<BindingSpec>)
    returns (provided: map<string, set<CellSpec>>, required: map<string, set<CellSpec>>)
    ensures forall id, c :: c in CellsAt(provided, id) <==> ProvidedIn(bindings, id, c)
    ensures forall id, c :: c in CellsAt(required, id) <==> RequiredIn(bindings, id, c)
  {
    hide WithCell;
    provided, required := map[], map[];
    for i := 0 to |bindings|
      invariant forall id, c :: c in CellsAt(provided, id) <==> ProvidedIn(bindings[..i], id, c)
      invariant forall id, c :: c in CellsAt(required, id) <==> RequiredIn(bindings[..i], id, c)
    {
      var b := bindings[i];
      assert bindings[..i + 1] == bindings[..i] + [b];
      if b.kind == "component" || b.cellName.None? { continue; }
      var cell := CellSpec(b.cellName.value, b.kind);
      provided := WithCell(provided, b.providerId, cell);
      required := WithCell(required, b.consumerId, cell);
    }
    assert bindings[..|bindings|] == bindings;
  }

  predicate Carries(b: BindingSpec, c: CellSpec) {
    b.kind != "component" && b.cellName == Some(c.name) && b.kind == c.kind
  }

  predicate ProvidedIn(bindings: seq<BindingSpec>, id: string, c: CellSpec) {
    exists b :: b in bindings && b.providerId == id && Carries(b, c)
  }

  predicate RequiredIn(bindings: seq<BindingSpec>, id: string, c: CellSpec) {
    exists b :: b in bindings && b.consumerId == id && Carries(b, c)
  }

  /** Bindings without a cell do not show up in any component. */
  lemma CellsAreRegistered(s: State, all: seq<BindingSpec>, id: string, c: CellSpec)
    requires Good(s) && forall b :: b in all <==> IsBinding(RecipeOf(s), b)
    ensures ProvidedIn(all, id, c) <==> Provides(RecipeOf(s), id, c)
    ensures RequiredIn(all, id, c) <==> Requires(RecipeOf(s), id, c)
  {
    hide TopologyAgrees, IdsAgree, StrictlySortedBy;
    var r := RecipeOf(s);
    if ProvidedIn(all, id, c) {
      var b :| b in all && b.providerId == id && Carries(b, c);
      assert IsBinding(r, b);
      assert b == BindingSpec(id, b.consumerId, Some(c.name), c.kind);
    }
    if RequiredIn(all, id, c) {
      var b :| b in all && b.consumerId == id && Carries(b, c);
      assert IsBinding(r, b);
      assert b == BindingSpec(b.providerId, id, Some(c.name), c.kind);
    }
    if Provides(r, id, c) {
      var k :| BindingSpec(id, k, Some(c.name), c.kind) in r.bindings;
      var b := BindingSpec(id, k, Some(c.name), c.kind);
      assert b in s.bindings && IsBinding(r, b) && Carries(b, c);
    }
    if Requires(r, id, c) {
      var k :| BindingSpec(k, id, Some(c.name), c.kind) in r.bindings;
      var b := BindingSpec(k, id, Some(c.name), c.kind);
      assert b in s.bindings && IsBinding(r, b) && Carries(b, c);
    }
  }

  // ---- Components ----

  ghost predicate CellsAgree(r: Recipe, provided: map<string, set<CellSpec>>, required: map<string, set<CellSpec>>) {
    && (forall id, c :: c in CellsAt(provided, id) <==> Provides(r, id, c))
    && (forall id, c :: c in CellsAt(required, id) <==> Requires(r, id, c))
  }

  lemma CellKeyTellsApart(x: CellSpec, y: CellSpec)
    requires CellKey(x) == CellKey(y)
    ensures x == y
  {
    assert CellKey(x)[0] == CellKey(y)[0] && CellKey(x)[1] == CellKey(y)[1];
  }

  method ComponentOf(ghost s: State, a: Artifact, m: Metadata,
                     provided: map<string, set<CellSpec>>, required: map<string, set<CellSpec>>)
    returns (c: ComponentSpec)
    requires Good(s) && a in s.metadata && s.metadata[a] == m && CellsAgree(RecipeOf(s), provided, required)
    ensures IsComponent(RecipeOf(s), c) && c.componentId == m.componentId
  {
    hide TopologyAgrees, BindingsAgree, Provides, Requires, CellsAt, CellKey;
    forall x, y | CellKey(x) == CellKey(y) ensures x == y { CellKeyTellsApart(x, y); }
    var ps := SortedSet(CellsAt(provided, m.componentId), CellKey);
    var rs := SortedSet(CellsAt(required, m.componentId), CellKey);
    c := ComponentSpec(m.componentId, a.name, a.module_, m.extension, m.tags, ps, rs);
  }

  method Components(ghost s: State, registry: seq<Artifact>, metadata: map<Artifact, Metadata>,
                    provided: map<string, set<CellSpec>>, required: map<string, set<CellSpec>>)
    returns (cs: seq<ComponentSpec>)
    requires Good(s) && registry == s.registry && metadata == s.metadata && CellsAgree(RecipeOf(s), provided, required)
    ensures StrictlySortedBy(cs, ComponentKey)
    ensures forall c :: c in cs ==> IsComponent(RecipeOf(s), c)
    ensures forall id :: id in RecipeOf(s).components ==> Knows(cs, id)
    ensures forall i, j :: 0 <= i < j < |cs| ==>
              var a, b := cs[i].componentId, cs[j].componentId;
              a < b || exists k :: 0 <= k < |a| && k < |b| && a[..k] == b[..k] && a[k] < b[k]
  {
    hide TopologyAgrees, BindingsAgree, IsComponent, CellsAgree, StrictlySortedBy, SortedBy, SortBy;
    var list: seq<ComponentSpec> := [];
    for i := 0 to |registry|
      invariant |list| == i
      invariant forall c :: c in list ==> IsComponent(RecipeOf(s), c)
      invariant forall j :: 0 <= j < i ==>
                  registry[j] in metadata && list[j].componentId == metadata[registry[j]].componentId
    {
      var a := registry[i];
      assert a in s.registry;
      var c := ComponentOf(s, a, metadata[a], provided, required);
      list := list + [c];
    }
    forall i, j | 0 <= i < j < |list| ensures list[i].componentId != list[j].componentId {
      assert registry[i] != registry[j];
      assert s.ids[metadata[registry[i]].componentId] == registry[i];
      assert s.ids[metadata[registry[j]].componentId] == registry[j];
    }
    cs := SortBy(list, ComponentKey);
    DistinctIds(list);
    ComponentsAscend(cs);
    forall id | id in RecipeOf(s).components ensures Knows(cs, id) {
      var a := s.ids[id];
      assert a in s.registry;
      var j :| 0 <= j < |registry| && registry[j] == a;
      assert list[j] in cs;
    }
  }

  lemma DistinctIds(list: seq<ComponentSpec>)
    requires forall i, j :: 0 <= i < j < |list| ==> list[i].componentId != list[j].componentId
    ensures StrictlySortedBy(SortBy(list, ComponentKey), ComponentKey)
    ensures forall c :: c in SortBy(list, ComponentKey) <==> c in list
  {
    forall x, y | x in list && y in list && ComponentKey(x) == ComponentKey(y) ensures x == y {
      assert ComponentKey(x)[0] == ComponentKey(y)[0];
    }
    SortIsStrict(list, ComponentKey);
  }

  // ---- The graph ----

  /** `g` is what compiling after the calls `h` must return. */
  ghost predicate CompilesTo(h: seq<Effect>, g: RegistryGraph)
    requires IsRun(h)
  {
    Good(RunOf(h)) && IsCompiled(RecipeOf(RunOf(h)), g) && Acyclic(g)
  }

  /** `compile` after its cycle check. */
  method Freeze(ghost s: State, ghost order: seq<Artifact>, registry: seq<Artifact>, metadata: map<Artifact, Metadata>,
                edges: seq<(Artifact, Artifact)>, registered: seq<BindingSpec>)
    returns (g: RegistryGraph)
    requires Good(s) && registry == s.registry && metadata == s.metadata && edges == s.edges && registered == s.bindings
    requires IsPostorder(s.parents, order) && Covers(s.parents, order)
    ensures IsCompiled(RecipeOf(s), g) && Acyclic(g)
  {
    hide Good, IsPostorder, IsBinding, Provides, Requires, CellsAt, StrictlySortedBy, ProvidedIn, RequiredIn, RecipeOf,
         IsComponent, Knows, Acyclic;
    var bindings := AllBindings(s, metadata, edges, registered);
    var provided, required := CellSets(bindings);
    forall id, c
      ensures c in CellsAt(provided, id) <==> Provides(RecipeOf(s), id, c)
      ensures c in CellsAt(required, id) <==> Requires(RecipeOf(s), id, c)
    {
      CellsAreRegistered(s, bindings, id, c);
    }
    var components := Components(s, registry, metadata, provided, required);
    g := RegistryGraph(components, bindings, SCHEMA);
    CompiledIsAcyclic(s, order, g);
  }

  function IdsOf(metadata: map<Artifact, Metadata>, s: seq<Artifact>): (r: seq<string>)
    requires forall a :: a in s ==> a in metadata
    ensures |r| == |s| && forall i :: 0 <= i < |s| ==> r[i] == metadata[s[i]].componentId
  {
    seq(|s|, i requires 0 <= i < |s| => metadata[s[i]].componentId)
  }

  /** Artifacts in postorder give component ids with consumers first. */
  lemma CompiledIsAcyclic(s: State, order: seq<Artifact>, g: RegistryGraph)
    requires Good(s) && IsCompiled(RecipeOf(s), g)
    requires IsPostorder(s.parents, order) && Covers(s.parents, order)
    ensures Acyclic(g)
  {
    hide IsCompiled, ValidRecipe, IsPostorder, BindingsAgree, TopologyAgrees, StrictlySortedBy,
         RecipeOf, NoRepeats, Pos;
    PostorderParts(s.parents, order);
    var ids := IdsOf(s.metadata, order);
    IdsDoNotRepeat(s, order, ids);
    forall b | b in g.bindings
      ensures b.consumerId in ids && b.providerId in ids && Pos(ids, b.consumerId) < Pos(ids, b.providerId)
    {
      RecipeIsValid(s);
      PairsAreEdges(RecipeOf(s), g, b.providerId, b.consumerId);
      EdgeDescends(s, order, ids, b.providerId, b.consumerId);
    }
    assert ConsumersFirst(g, ids);
  }

  lemma EdgeDescends(s: State, order: seq<Artifact>, ids: seq<string>, provider: string, consumer: string)
    requires Good(s) && IsPostorder(s.parents, order) && Covers(s.parents, order) && NoRepeats(ids)
    requires |ids| == |order|
    requires forall i :: 0 <= i < |order| ==> order[i] in s.metadata && ids[i] == s.metadata[order[i]].componentId
    requires (provider, consumer) in RecipeOf(s).edges
    ensures consumer in ids && provider in ids && Pos(ids, consumer) < Pos(ids, provider)
  {
    hide IdsAgree, IsPostorder, BindingsAgree, StrictlySortedBy, NoRepeats, Pos;
    EdgesHaveIds(s);
    var e :| e in s.edges && EdgeIds(s.metadata, e) == (provider, consumer);
    assert e.0 in order && e.1 in s.parents[e.0];
    SuccessorIsEarlier(s.parents, order, e.0, e.1);
    PosOfId(s, order, ids, e.0);
    PosOfId(s, order, ids, e.1);
    assert EdgeIds(s.metadata, e).0 == provider && EdgeIds(s.metadata, e).1 == consumer;
  }

  lemma PostorderParts(g: Graph<Artifact>, order: seq<Artifact>)
    requires IsPostorder(g, order)
    ensures NoRepeats(order) && forall a :: a in order ==> a in g
  {}

  lemma IdsDoNotRepeat(s: State, order: seq<Artifact>, ids: seq<string>)
    requires IdsAgree(s) && NoRepeats(order) && |ids| == |order|
    requires forall i :: 0 <= i < |order| ==> order[i] in s.metadata && ids[i] == s.metadata[order[i]].componentId
    ensures NoRepeats(ids)
  {
    forall i, j | 0 <= i < j < |ids| ensures ids[i] != ids[j] {
      assert s.ids[ids[i]] == order[i] && s.ids[ids[j]] == order[j];
    }
  }

  lemma PosOfId(s: State, order: seq<Artifact>, ids: seq<string>, a: Artifact)
    requires NoRepeats(ids) && |ids| == |order| && a in order && a in s.metadata
    requires forall i :: 0 <= i < |order| ==> order[i] in s.metadata && ids[i] == s.metadata[order[i]].componentId
    ensures s.metadata[a].componentId in ids && Pos(ids, s.metadata[a].componentId) == Pos(order, a)
  {
    assert ids[Pos(order, a)] == s.metadata[a].componentId;
  }

  /** A graph that compiled has no cycle of parents behind it. */
  lemma CompiledHasNoParentCycle(s: State, g: RegistryGraph, w: seq<Artifact>)
    requires Good(s) && IsCompiled(RecipeOf(s), g) && Acyclic(g)
    ensures !IsClosedWalk(s.parents, w)
  {
    hide IsCompiled, ValidRecipe, Acyclic, BindingsAgree, StrictlySortedBy;
    if IsClosedWalk(s.parents, w) {
      assert forall i :: 0 <= i < |w| ==> w[i] in s.metadata;
      var ids := IdsOf(s.metadata, w);
      RecipeIsValid(s);
      forall i | 0 <= i < |ids| - 1 ensures LinkedAt(g, ids, i) {
        assert StepAt(s.parents, w, i);
        assert (w[i], w[i + 1]) in s.edges;
        assert EdgeIds(s.metadata, (w[i], w[i + 1])) in RecipeOf(s).edges;
        PairsAreEdges(RecipeOf(s), g, ids[i], ids[i + 1]);
      }
      AcyclicHasNoCycle(g, ids);
    }
  }

  /** A cached compiled graph is what compiling again would return. */
  lemma CachedIsFresh(h: seq<Effect>, cached: RegistryGraph, recompiled: RegistryGraph)
    requires IsRun(h) && CompilesTo(h, cached) && CompilesTo(h, recompiled)
    ensures cached == recompiled
  {
    CompiledIsUnique(RecipeOf(RunOf(h)), cached, recompiled);
  }

  /** Whatever was compiled survives its dictionary form, filtered or not. */
  lemma CompiledRoundTrip(h: seq<Effect>, g: RegistryGraph, repr: Json -> string, extensions: seq<string>,
                          tags: seq<string>)
    requires IsRun(h) && CompilesTo(h, g)
    ensures FromDict(repr, ToDict(g)) == Ok(g)
    ensures FromDict(repr, ToDict(FilterGraph(g, extensions, tags))) == Ok(FilterGraph(g, extensions, tags))
  {
    hide FromDict, ToDict, FilterGraph, Canonical;
    RecipeIsValid(RunOf(h));
    CompiledIsCanonical(RecipeOf(RunOf(h)), g);
    PrintThenParse(repr, g);
    FilteredRoundTrip(repr, g, extensions, tags);
  }
}
