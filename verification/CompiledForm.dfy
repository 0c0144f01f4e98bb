/** A compiled graph spelled out: its order, and each of its entries in terms of what is registered. */
module CompiledForm {
  import opened Wrappers
  import opened Ordering
  import opened Registry
  import opened Digraph
  import opened Recipe
  import opened Artifacts
  import opened RegistryState

  // ---- Order ----

  lemma OneKey(a: string, b: string)
    ensures KeyLe([a], [b]) <==> StrLe(a, b)
  {
    StrLeTotal(a, a);
  }

  /** Of two components the earlier has an id that is a proper prefix of the later's, or smaller where they first
      differ. */
  lemma ComponentsAscend(cs: seq<ComponentSpec>)
    requires StrictlySortedBy(cs, ComponentKey)
    ensures forall i, j :: 0 <= i < j < |cs| ==>
              var a, b := cs[i].componentId, cs[j].componentId;
              a < b || exists k :: 0 <= k < |a| && k < |b| && a[..k] == b[..k] && a[k] < b[k]
  {
    forall i, j | 0 <= i < j < |cs|
      ensures var a, b := cs[i].componentId, cs[j].componentId;
              a < b || exists k :: 0 <= k < |a| && k < |b| && a[..k] == b[..k] && a[k] < b[k]
    {
      var a, b := cs[i].componentId, cs[j].componentId;
      assert ComponentKey(cs[i]) == [a] && ComponentKey(cs[j]) == [b] && [a] != [b];
      OneKey(a, b);
      StrLeIsLexicographic(a, b);
    }
  }

  lemma TagsAscend(ts: seq<string>)
    requires SortedBy(ts, TagKey)
    ensures forall i, j :: 0 <= i < j < |ts| ==> StrLe(ts[i], ts[j])
  {
    forall i, j | 0 <= i < j < |ts| ensures StrLe(ts[i], ts[j]) {
      OneKey(ts[i], ts[j]);
    }
  }

  /** Cells come by name, then kind. */
  lemma CellsAscend(cs: seq<CellSpec>)
    requires SortedBy(cs, CellKey)
    ensures forall i, j :: 0 <= i < j < |cs| ==>
              StrLe(cs[i].name, cs[j].name) && (cs[i].name == cs[j].name ==> StrLe(cs[i].kind, cs[j].kind))
  {
    forall i, j | 0 <= i < j < |cs|
      ensures StrLe(cs[i].name, cs[j].name) && (cs[i].name == cs[j].name ==> StrLe(cs[i].kind, cs[j].kind))
    {
      KeyLeHead(CellKey(cs[i]), CellKey(cs[j]));
      OneKey(cs[i].kind, cs[j].kind);
    }
  }

  lemma KeyLeHead(a: seq<string>, b: seq<string>)
    requires |a| == |b| > 0 && KeyLe(a, b)
    ensures StrLe(a[0], b[0]) && (a[0] == b[0] ==> KeyLe(a[1..], b[1..]))
  {
    StrLeTotal(a[0], a[0]);
  }

  /** Bindings come by provider, then consumer, then cell (none counting as an empty name), then kind. */
  lemma BindingsAscend(bs: seq<BindingSpec>)
    requires SortedBy(bs, BindingKey)
    ensures forall i, j :: 0 <= i < j < |bs| ==>
              var x, y := bs[i], bs[j];
              var m, n := if x.cellName.Some? then x.cellName.value else "",
                          if y.cellName.Some? then y.cellName.value else "";
              && StrLe(x.providerId, y.providerId)
              && (x.providerId == y.providerId ==>
                    && StrLe(x.consumerId, y.consumerId)
                    && (x.consumerId == y.consumerId ==> StrLe(m, n) && (m == n ==> StrLe(x.kind, y.kind))))
  {
    hide StrLe, SortedBy;
    forall i, j | 0 <= i < j < |bs|
      ensures var x, y := bs[i], bs[j];
              var m, n := if x.cellName.Some? then x.cellName.value else "",
                          if y.cellName.Some? then y.cellName.value else "";
              && StrLe(x.providerId, y.providerId)
              && (x.providerId == y.providerId ==>
                    && StrLe(x.consumerId, y.consumerId)
                    && (x.consumerId == y.consumerId ==> StrLe(m, n) && (m == n ==> StrLe(x.kind, y.kind))))
    {
      SortedPair(bs, i, j);
      BindingPair(bs[i], bs[j]);
    }
  }

  lemma SortedPair(bs: seq<BindingSpec>, i: nat, j: nat)
    requires SortedBy(bs, BindingKey) && i < j < |bs|
    ensures KeyLe(BindingKey(bs[i]), BindingKey(bs[j]))
  {}

  lemma BindingPair(x: BindingSpec, y: BindingSpec)
    requires KeyLe(BindingKey(x), BindingKey(y))
    ensures var m, n := if x.cellName.Some? then x.cellName.value else "",
                        if y.cellName.Some? then y.cellName.value else "";
            && StrLe(x.providerId, y.providerId)
            && (x.providerId == y.providerId ==>
                  && StrLe(x.consumerId, y.consumerId)
                  && (x.consumerId == y.consumerId ==> StrLe(m, n) && (m == n ==> StrLe(x.kind, y.kind))))
  {
    hide StrLe, KeyLe;
    var a, b := BindingKey(x), BindingKey(y);
    KeyLeHead(a, b);
    if a[0] == b[0] {
      KeyLeHead(a[1..], b[1..]);
      if a[1] == b[1] {
        KeyLeHead(a[1..][1..], b[1..][1..]);
        if a[2] == b[2] { KeyLeHead(a[1..][1..][1..], b[1..][1..][1..]); }
      }
    }
  }

  // ---- Entries ----

  /** The ids of the components are those of the registered artifacts, and each component has the class, module,
      extension and tags of its artifact. */
  lemma ComponentsAre(s: State, g: RegistryGraph)
    requires Good(s) && IsCompiled(RecipeOf(s), g)
    ensures g.schema == "artifact-registry-graph.v1"
    ensures forall a :: a in s.metadata <==> a in s.registry
    ensures forall a :: a in s.metadata ==> exists c :: c in g.components && c.componentId == s.metadata[a].componentId
    ensures forall c :: c in g.components ==> exists a :: a in s.metadata && s.metadata[a].componentId == c.componentId
    ensures forall c, a :: c in g.components && a in s.metadata && s.metadata[a].componentId == c.componentId ==>
              && c.componentType == a.name
              && c.module_ == a.module_
              && c.extension == s.metadata[a].extension
              && c.tags == s.metadata[a].tags
  {
    hide TopologyAgrees, BindingsAgree, StrictlySortedBy, Provides, Requires, IsBinding;
    var r := RecipeOf(s);
    forall c | c in g.components ensures exists a :: a in s.metadata && s.metadata[a].componentId == c.componentId {
      assert IsComponent(r, c) && s.ids[c.componentId] in s.metadata;
    }
    forall a | a in s.metadata ensures exists c :: c in g.components && c.componentId == s.metadata[a].componentId {
      var id := s.metadata[a].componentId;
      assert id in r.components && Knows(g.components, id);
      var i :| 0 <= i < |g.components| && g.components[i].componentId == id;
      assert g.components[i] in g.components;
    }
    forall c, a | c in g.components && a in s.metadata && s.metadata[a].componentId == c.componentId
      ensures InfoOf(s.metadata, a) == Info(c.componentType, c.module_, c.extension, c.tags)
    {
      assert IsComponent(r, c) && s.ids[c.componentId] == a;
    }
  }

  /** A component provides (requires) exactly the cells of the bindings registered with it as provider (consumer). */
  lemma CellsAre(s: State, g: RegistryGraph)
    requires Good(s) && IsCompiled(RecipeOf(s), g)
    ensures forall c, x :: c in g.components && x in c.provided ==>
              exists b :: b in s.bindings && b.providerId == c.componentId && b.cellName.Some?
                      && CellSpec(b.cellName.value, b.kind) == x
    ensures forall c, b :: c in g.components && b in s.bindings && b.providerId == c.componentId ==>
              b.cellName.Some? && CellSpec(b.cellName.value, b.kind) in c.provided
    ensures forall c, x :: c in g.components && x in c.required ==>
              exists b :: b in s.bindings && b.consumerId == c.componentId && b.cellName.Some?
                      && CellSpec(b.cellName.value, b.kind) == x
    ensures forall c, b :: c in g.components && b in s.bindings && b.consumerId == c.componentId ==>
              b.cellName.Some? && CellSpec(b.cellName.value, b.kind) in c.required
  {
    hide IdsAgree, TopologyAgrees, StrictlySortedBy, IsBinding;
    var r := RecipeOf(s);
    forall c, x | c in g.components && x in c.provided
      ensures exists b :: b in s.bindings && b.providerId == c.componentId && b.cellName.Some?
                          && CellSpec(b.cellName.value, b.kind) == x
    {
      assert IsComponent(r, c) && Provides(r, c.componentId, x);
      var consumer :| BindingSpec(c.componentId, consumer, Some(x.name), x.kind) in r.bindings;
      assert BindingSpec(c.componentId, consumer, Some(x.name), x.kind) in s.bindings;
    }
    forall c, x | c in g.components && x in c.required
      ensures exists b :: b in s.bindings && b.consumerId == c.componentId && b.cellName.Some?
                          && CellSpec(b.cellName.value, b.kind) == x
    {
      assert IsComponent(r, c) && Requires(r, c.componentId, x);
      var provider :| BindingSpec(provider, c.componentId, Some(x.name), x.kind) in r.bindings;
      assert BindingSpec(provider, c.componentId, Some(x.name), x.kind) in s.bindings;
    }
    forall c, b | c in g.components && b in s.bindings
      ensures b.cellName.Some?
      ensures b.providerId == c.componentId ==> CellSpec(b.cellName.value, b.kind) in c.provided
      ensures b.consumerId == c.componentId ==> CellSpec(b.cellName.value, b.kind) in c.required
    {
      assert IsComponent(r, c) && b in r.bindings;
      assert b == BindingSpec(b.providerId, b.consumerId, Some(b.cellName.value), b.kind);
    }
  }

  /** The registered bindings are all there; any other has kind `component`, no cell, and a pair of ids that no
      registered binding joins. */
  lemma BindingsAre(s: State, g: RegistryGraph)
    requires Good(s) && IsCompiled(RecipeOf(s), g)
    ensures forall b :: b in s.bindings ==> b in g.bindings
    ensures forall b :: b in g.bindings && b !in s.bindings ==> b.cellName == None && b.kind == "component"
    ensures forall b, x :: b in g.bindings && b !in s.bindings && x in s.bindings ==>
              x.providerId != b.providerId || x.consumerId != b.consumerId
  {
    hide IdsAgree, TopologyAgrees, BindingsAgree, StrictlySortedBy, IsComponent;
    var r := RecipeOf(s);
    assert forall x :: x in s.bindings <==> x in r.bindings;
    forall b ensures b in g.bindings <==> IsBinding(r, b) {}
  }

  /** Providers and consumers of the bindings are exactly the connected pairs, child and parent. */
  lemma PairsAre(s: State, g: RegistryGraph)
    requires Good(s) && IsCompiled(RecipeOf(s), g)
    ensures forall e :: e in s.edges ==>
              && e.0 in s.metadata && e.1 in s.metadata
              && exists b :: b in g.bindings && b.providerId == s.metadata[e.0].componentId
                             && b.consumerId == s.metadata[e.1].componentId
    ensures forall b :: b in g.bindings ==>
              exists e :: e in s.edges && e.0 in s.metadata && e.1 in s.metadata
                          && b.providerId == s.metadata[e.0].componentId && b.consumerId == s.metadata[e.1].componentId
  {
    hide IsCompiled, IsBinding, ValidRecipe, BindingsAgree, StrictlySortedBy;
    var r := RecipeOf(s);
    RecipeIsValid(s);
    forall e | e in s.edges
      ensures && e.0 in s.metadata && e.1 in s.metadata
              && exists b :: b in g.bindings && b.providerId == s.metadata[e.0].componentId
                             && b.consumerId == s.metadata[e.1].componentId
    {
      var p, q := s.metadata[e.0].componentId, s.metadata[e.1].componentId;
      assert (p, q) in r.edges;
      PairsAreEdges(r, g, p, q);
    }
    forall b | b in g.bindings
      ensures exists e :: e in s.edges && e.0 in s.metadata && e.1 in s.metadata
                  && b.providerId == s.metadata[e.0].componentId && b.consumerId == s.metadata[e.1].componentId
    {
      PairsAreEdges(r, g, b.providerId, b.consumerId);
      var e :| e in s.edges
               && (s.metadata[e.0].componentId, s.metadata[e.1].componentId) == (b.providerId, b.consumerId);
      assert e.0 in s.metadata && e.1 in s.metadata;
    }
  }

  /** The lists of a compiled graph in their order, cells and tags of each component included. */
  lemma CompiledAscends(r: Recipe, g: RegistryGraph)
    requires ValidRecipe(r) && IsCompiled(r, g)
    ensures forall i, j :: 0 <= i < j < |g.components| ==>
              var a, b := g.components[i].componentId, g.components[j].componentId;
              a < b || exists k :: 0 <= k < |a| && k < |b| && a[..k] == b[..k] && a[k] < b[k]
    ensures forall i, j :: 0 <= i < j < |g.bindings| ==>
              var x, y := g.bindings[i], g.bindings[j];
              var m, n := if x.cellName.Some? then x.cellName.value else "",
                          if y.cellName.Some? then y.cellName.value else "";
              && StrLe(x.providerId, y.providerId)
              && (x.providerId == y.providerId ==>
                    && StrLe(x.consumerId, y.consumerId)
                    && (x.consumerId == y.consumerId ==> StrLe(m, n) && (m == n ==> StrLe(x.kind, y.kind))))
    ensures forall c, i, j :: c in g.components && 0 <= i < j < |c.tags| ==> StrLe(c.tags[i], c.tags[j])
    ensures forall c, i, j :: c in g.components && 0 <= i < j < |c.provided| ==>
              && StrLe(c.provided[i].name, c.provided[j].name)
              && (c.provided[i].name == c.provided[j].name ==> StrLe(c.provided[i].kind, c.provided[j].kind))
    ensures forall c, i, j :: c in g.components && 0 <= i < j < |c.required| ==>
              && StrLe(c.required[i].name, c.required[j].name)
              && (c.required[i].name == c.required[j].name ==> StrLe(c.required[i].kind, c.required[j].kind))
  {
    hide StrLe, Provides, Requires, IsBinding, KeyLe;
    ComponentsAscend(g.components);
    BindingsAscend(g.bindings);
    forall c | c in g.components
      ensures SortedBy(c.tags, TagKey) && SortedBy(c.provided, CellKey) && SortedBy(c.required, CellKey)
    {
      assert IsComponent(r, c);
    }
    forall c | c in g.components
      ensures forall i, j :: 0 <= i < j < |c.tags| ==> StrLe(c.tags[i], c.tags[j])
      ensures forall i, j :: 0 <= i < j < |c.provided| ==>
                && StrLe(c.provided[i].name, c.provided[j].name)
                && (c.provided[i].name == c.provided[j].name ==> StrLe(c.provided[i].kind, c.provided[j].kind))
      ensures forall i, j :: 0 <= i < j < |c.required| ==>
                && StrLe(c.required[i].name, c.required[j].name)
                && (c.required[i].name == c.required[j].name ==> StrLe(c.required[i].kind, c.required[j].kind))
    {
      TagsAscend(c.tags);
      CellsAscend(c.provided);
      CellsAscend(c.required);
    }
  }
}
