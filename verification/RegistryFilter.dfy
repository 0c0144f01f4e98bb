/** Selecting part of a compiled graph by extension and tags. */
module RegistryFilter {
  import opened Wrappers
  import opened Ordering
  import opened Registry

  function Keep<T>(s: seq<T>, p: T -> bool): (r: seq<T>) {
    if s == [] then []
    else
      var n := |s| - 1;
      Keep(s[..n], p) + if p(s[n]) then [s[n]] else []
  }

  /** `{item for item in items if item}` */
  function NonEmpty(items: seq<string>): set<string> {
    set x | x in items && x != ""
  }

  predicate Selected(c: ComponentSpec, extensions: set<string>, tags: set<string>) {
    && (extensions == {} || c.extension in extensions)
    && tags <= (set t | t in c.tags)
  }

  predicate Internal(cs: seq<ComponentSpec>, b: BindingSpec) {
    Knows(cs, b.providerId) && Knows(cs, b.consumerId)
  }

  /** `filter_registry_graph` */
  function FilterGraph(g: RegistryGraph, extensions: seq<string>, tags: seq<string>): RegistryGraph {
    var components := Keep(g.components, (c: ComponentSpec) => Selected(c, NonEmpty(extensions), NonEmpty(tags)));
    RegistryGraph(components, Keep(g.bindings, (b: BindingSpec) => Internal(components, b)), SCHEMA)
  }

  lemma {:induction false} KeepMembers<T>(s: seq<T>, p: T -> bool, x: T)
    ensures x in Keep(s, p) <==> x in s && p(x)
  {
    if s != [] {
      var n := |s| - 1;
      KeepMembers(s[..n], p, x);
      assert s == s[..n] + [s[n]];
    }
  }

  lemma {:induction false} KeepStaysSorted<T>(s: seq<T>, p: T -> bool, key: T -> seq<string>)
    ensures SortedBy(s, key) ==> SortedBy(Keep(s, p), key)
    ensures StrictlySortedBy(s, key) ==> StrictlySortedBy(Keep(s, p), key)
  {
    if s != [] && SortedBy(s, key) {
      var n := |s| - 1;
      KeepStaysSorted(s[..n], p, key);
      var front := Keep(s[..n], p);
      forall i | 0 <= i < |front|
        ensures KeyLe(key(front[i]), key(s[n]))
        ensures StrictlySortedBy(s, key) ==> key(front[i]) != key(s[n])
      {
        KeepMembers(s[..n], p, front[i]);
        assert front[i] in s[..n];
        var j :| 0 <= j < n && s[j] == front[i];
      }
    }
  }

  /** A component stays exactly when it has all the tags asked for and, if extensions are asked for, one of them;
      a binding exactly when both its components stay. Empty strings ask for nothing. */
  lemma FilterIsExact(g: RegistryGraph, extensions: seq<string>, tags: seq<string>)
    ensures var h := FilterGraph(g, extensions, tags);
            && h.schema == "artifact-registry-graph.v1"
            && (forall c :: c in h.components <==>
                  && c in g.components
                  && (forall t :: t in tags && t != "" ==> t in c.tags)
                  && ((forall e :: e in extensions ==> e == "") || (c.extension in extensions && c.extension != "")))
            && (forall b :: b in h.bindings <==>
                  && b in g.bindings
                  && (exists c :: c in h.components && c.componentId == b.providerId)
                  && (exists c :: c in h.components && c.componentId == b.consumerId))
  {
    var h := FilterGraph(g, extensions, tags);
    forall c ensures c in h.components <==>
        && c in g.components
        && (forall t :: t in tags && t != "" ==> t in c.tags)
        && ((forall e :: e in extensions ==> e == "") || (c.extension in extensions && c.extension != ""))
    {
      FilteredComponents(g, extensions, tags, c);
      SelectedIs(c, extensions, tags);
    }
    forall b ensures b in h.bindings <==>
        && b in g.bindings
        && (exists c :: c in h.components && c.componentId == b.providerId)
        && (exists c :: c in h.components && c.componentId == b.consumerId)
    {
      FilteredBindings(g, extensions, tags, b);
      KnownIs(h.components, b.providerId);
      KnownIs(h.components, b.consumerId);
    }
  }

  lemma SelectedIs(c: ComponentSpec, extensions: seq<string>, tags: seq<string>)
    ensures Selected(c, NonEmpty(extensions), NonEmpty(tags)) <==>
              && (forall t :: t in tags && t != "" ==> t in c.tags)
              && ((forall e :: e in extensions ==> e == "") || (c.extension in extensions && c.extension != ""))
  {
    forall t | t in tags && t != "" ensures t in NonEmpty(tags) {}
    if e :| e in extensions && e != "" { assert e in NonEmpty(extensions); }
    if NonEmpty(extensions) != {} {
      var e :| e in NonEmpty(extensions);
      assert e in extensions && e != "";
    }
  }

  lemma KnownIs(cs: seq<ComponentSpec>, id: string)
    ensures Knows(cs, id) <==> exists c :: c in cs && c.componentId == id
  {
    if c :| c in cs && c.componentId == id { var i :| 0 <= i < |cs| && cs[i] == c; }
  }

  lemma FilteredComponents(g: RegistryGraph, extensions: seq<string>, tags: seq<string>, c: ComponentSpec)
    ensures c in FilterGraph(g, extensions, tags).components <==>
              c in g.components && Selected(c, NonEmpty(extensions), NonEmpty(tags))
  {
    KeepMembers(g.components, (c: ComponentSpec) => Selected(c, NonEmpty(extensions), NonEmpty(tags)), c);
  }

  lemma FilteredBindings(g: RegistryGraph, extensions: seq<string>, tags: seq<string>, b: BindingSpec)
    ensures var h := FilterGraph(g, extensions, tags);
            b in h.bindings
            <==> b in g.bindings && Knows(h.components, b.providerId) && Knows(h.components, b.consumerId)
  {
    var h := FilterGraph(g, extensions, tags);
    KeepMembers(g.bindings, (b: BindingSpec) => Internal(h.components, b), b);
  }

  /** A filtered canonical graph is canonical: unique ids, sorted, no dangling binding. */
  lemma FilterKeepsCanonical(g: RegistryGraph, extensions: seq<string>, tags: seq<string>)
    requires Canonical(g)
    ensures Canonical(FilterGraph(g, extensions, tags))
  {
    var h := FilterGraph(g, extensions, tags);
    KeepStaysSorted(g.components, (c: ComponentSpec) => Selected(c, NonEmpty(extensions), NonEmpty(tags)),
                    ComponentKey);
    KeepStaysSorted(g.bindings, (b: BindingSpec) => Internal(h.components, b), BindingKey);
    forall i | 0 <= i < |h.components| ensures CanonicalComponent(h.components[i]) {
      FilteredComponents(g, extensions, tags, h.components[i]);
      assert h.components[i] in g.components;
    }
    forall i | 0 <= i < |h.bindings| ensures Internal(h.components, h.bindings[i]) {
      FilteredBindings(g, extensions, tags, h.bindings[i]);
    }
  }

  /** So a filtered graph survives printing and parsing too. */
  lemma FilteredRoundTrip(repr: Json -> string, g: RegistryGraph, extensions: seq<string>, tags: seq<string>)
    requires Canonical(g)
    ensures FromDict(repr, ToDict(FilterGraph(g, extensions, tags))) == Ok(FilterGraph(g, extensions, tags))
  {
    FilterKeepsCanonical(g, extensions, tags);
    PrintThenParse(repr, FilterGraph(g, extensions, tags));
  }
}
