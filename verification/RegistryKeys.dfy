/** The dictionary form of a registry graph, key by key. */
module RegistryKeys {
  import opened Wrappers
  import opened Ordering
  import opened Registry

  /** `get` finds the first entry with the key. */
  lemma {:induction false} GetIs(fields: seq<(string, Json)>, key: string)
    ensures Get(fields, key).None? <==> forall i :: 0 <= i < |fields| ==> fields[i].0 != key
    ensures Get(fields, key).Some? ==>
              exists i :: 0 <= i < |fields| && fields[i] == (key, Get(fields, key).value)
                          && forall j :: 0 <= j < i ==> fields[j].0 != key
  {
    if fields != [] {
      GetIs(fields[1..], key);
      if fields[0].0 != key && Get(fields, key).Some? {
        var i :| 0 <= i < |fields| - 1 && fields[1..][i] == (key, Get(fields, key).value)
                 && forall j :: 0 <= j < i ==> fields[1..][j].0 != key;
        assert fields[i + 1] == (key, Get(fields, key).value);
        forall j | 0 <= j < i + 1 ensures fields[j].0 != key {
          if j > 0 { assert fields[j] == fields[1..][j - 1]; }
        }
      }
      forall i | 1 <= i < |fields| ensures fields[i] == fields[1..][i - 1] {}
    }
  }

  // ---- Printing ----

  lemma ComponentKeys(c: ComponentSpec)
    ensures ComponentJson(c).JObj?
    ensures Get(ComponentJson(c).fields, "component_id") == Some(JStr(c.componentId))
    ensures Get(ComponentJson(c).fields, "component_type") == Some(JStr(c.componentType))
    ensures Get(ComponentJson(c).fields, "module") == Some(JStr(c.module_))
    ensures Get(ComponentJson(c).fields, "extension") == Some(JStr(c.extension))
    ensures Get(ComponentJson(c).fields, "tags") == Some(TagsJson(c.tags))
    ensures Get(ComponentJson(c).fields, "provides") == Some(CellsJson(c.provided))
    ensures Get(ComponentJson(c).fields, "requires") == Some(CellsJson(c.required))
  {
    hide TagsJson, CellsJson;
    var f := ComponentJson(c).fields;
    GetAt(f, 0);
    GetAt(f, 1);
    GetAt(f, 2);
    GetAt(f, 3);
    GetAt(f, 4);
    GetAt(f, 5);
    GetAt(f, 6);
  }

  lemma ListKeys(ts: seq<string>, cs: seq<CellSpec>)
    ensures TagsJson(ts).JArr? && |TagsJson(ts).items| == |ts|
    ensures forall i :: 0 <= i < |ts| ==> TagsJson(ts).items[i] == JStr(ts[i])
    ensures CellsJson(cs).JArr? && |CellsJson(cs).items| == |cs|
    ensures forall i :: 0 <= i < |cs| ==>
              && CellsJson(cs).items[i].JObj?
              && Get(CellsJson(cs).items[i].fields, "name") == Some(JStr(cs[i].name))
              && Get(CellsJson(cs).items[i].fields, "kind") == Some(JStr(cs[i].kind))
  {
    forall i | 0 <= i < |cs|
      ensures Get(CellJson(cs[i]).fields, "name") == Some(JStr(cs[i].name))
      ensures Get(CellJson(cs[i]).fields, "kind") == Some(JStr(cs[i].kind))
    {
      GetAt(CellJson(cs[i]).fields, 0);
      GetAt(CellJson(cs[i]).fields, 1);
    }
  }

  lemma BindingKeys(b: BindingSpec)
    ensures BindingJson(b).JObj?
    ensures Get(BindingJson(b).fields, "provider_id") == Some(JStr(b.providerId))
    ensures Get(BindingJson(b).fields, "consumer_id") == Some(JStr(b.consumerId))
    ensures Get(BindingJson(b).fields, "cell_name")
            == Some(if b.cellName.None? then JNull else JStr(b.cellName.value))
    ensures Get(BindingJson(b).fields, "kind") == Some(JStr(b.kind))
  {
    var f := BindingJson(b).fields;
    GetAt(f, 0);
    GetAt(f, 1);
    GetAt(f, 2);
    GetAt(f, 3);
  }

  lemma GraphKeys(g: RegistryGraph)
    ensures Get(ToDict(g), "schema") == Some(JStr(g.schema))
    ensures Get(ToDict(g), "components").Some? && Get(ToDict(g), "components").value.JArr?
    ensures var items := Get(ToDict(g), "components").value.items;
            |items| == |g.components| && forall i :: 0 <= i < |items| ==> items[i] == ComponentJson(g.components[i])
    ensures Get(ToDict(g), "bindings").Some? && Get(ToDict(g), "bindings").value.JArr?
    ensures var items := Get(ToDict(g), "bindings").value.items;
            |items| == |g.bindings| && forall i :: 0 <= i < |items| ==> items[i] == BindingJson(g.bindings[i])
  {
    hide ComponentJson, BindingJson;
    var d := ToDict(g);
    GetAt(d, 0);
    GetAt(d, 1);
    GetAt(d, 2);
  }

  // ---- Parsing ----

  /** An accepted component has an id, a type and a module; what else is missing gets its default. */
  lemma ComponentReads(repr: Json -> string, v: Json, c: ComponentSpec)
    requires ParseComponent(repr, v) == Ok(c)
    ensures v.JObj?
    ensures var id := Get(v.fields, "component_id");
            id.Some? && c.componentId == if id.value.JStr? then id.value.s else repr(id.value)
    ensures var type_ := Get(v.fields, "component_type");
            type_.Some? && c.componentType == if type_.value.JStr? then type_.value.s else repr(type_.value)
    ensures var m := Get(v.fields, "module");
            m.Some? && c.module_ == if m.value.JStr? then m.value.s else repr(m.value)
    ensures var e := Get(v.fields, "extension");
            c.extension == if e.None? then "core" else if e.value.JStr? then e.value.s else repr(e.value)
    ensures var t := Get(v.fields, "tags");
            if t.None? then c.tags == [] else ParseTags(repr, t.value) == Ok(c.tags)
    ensures var p := Get(v.fields, "provides");
            if p.None? then c.provided == [] else ParseCells(repr, p.value) == Ok(c.provided)
    ensures var r := Get(v.fields, "requires");
            if r.None? then c.required == [] else ParseCells(repr, r.value) == Ok(c.required)
  {
    hide Get, ParseTags, ParseCells;
    NothingParses(repr);
  }

  lemma NothingParses(repr: Json -> string)
    ensures ParseTags(repr, JArr([])) == Ok([])
    ensures ParseCells(repr, JArr([])) == Ok([])
  {}

  lemma TagsRead(repr: Json -> string, items: seq<Json>) returns (ts: seq<string>)
    ensures |ts| == |items| && forall i :: 0 <= i < |ts| ==>
              ts[i] == if items[i].JStr? then items[i].s else repr(items[i])
    ensures ParseTags(repr, JArr(items)).Ok?
    ensures multiset(ParseTags(repr, JArr(items)).value) == multiset(ts)
  {
    ts := seq(|items|, i requires 0 <= i < |items| => Str(repr, items[i]));
  }

  lemma CellsRead(repr: Json -> string, items: seq<Json>, cs: seq<CellSpec>) returns (raw: seq<CellSpec>)
    requires ParseCells(repr, JArr(items)) == Ok(cs)
    ensures |raw| == |items| && multiset(raw) == multiset(cs)
    ensures forall i :: 0 <= i < |items| ==> ParseCell(repr, items[i]) == Ok(raw[i])
  {
    hide ParseCell, SortBy;
    var parse := (c: Json) => ParseCell(repr, c);
    raw := ParseAll(items, parse).value;
    forall i | 0 <= i < |items| ensures ParseCell(repr, items[i]) == Ok(raw[i]) {
      ParsedElement(items, parse, raw, i);
    }
  }

  /** A cell needs a name and a kind. */
  lemma CellReads(repr: Json -> string, v: Json)
    ensures !v.JObj? ==> ParseCell(repr, v) == Err(WrongType)
    ensures v.JObj? && Get(v.fields, "name").None? ==> ParseCell(repr, v) == Err(KeyMissing("name"))
    ensures v.JObj? && Get(v.fields, "name").Some? && Get(v.fields, "kind").None? ==>
              ParseCell(repr, v) == Err(KeyMissing("kind"))
    ensures v.JObj? && Get(v.fields, "name").Some? && Get(v.fields, "kind").Some? ==>
              var n, k := Get(v.fields, "name").value, Get(v.fields, "kind").value;
              if !k.JStr? then ParseCell(repr, v) == Err(WrongType)
              else ParseCell(repr, v) == Ok(CellSpec(if n.JStr? then n.s else repr(n), k.s))
  {
    hide Get;
  }

  /** A string is iterated by its characters, a dictionary by its keys. */
  lemma IterateIs(v: Json)
    ensures Iterate(v).Err? <==> v.JNull? || v.JBool? || v.JNum?
    ensures Iterate(v).Err? ==> Iterate(v).error == WrongType
    ensures v.JArr? ==> Iterate(v).value == v.items
    ensures v.JStr? ==> |Iterate(v).value| == |v.s|
                        && forall i :: 0 <= i < |v.s| ==> Iterate(v).value[i] == JStr([v.s[i]])
    ensures v.JObj? ==> |Iterate(v).value| == |v.fields|
                        && forall i :: 0 <= i < |v.fields| ==> Iterate(v).value[i] == JStr(v.fields[i].0)
  {}

  /** The first missing key is the one reported. */
  lemma ComponentErrors(repr: Json -> string, v: Json)
    ensures !v.JObj? ==> ParseComponent(repr, v) == Err(WrongType)
    ensures v.JObj? && Get(v.fields, "component_id").None? ==>
              ParseComponent(repr, v) == Err(KeyMissing("component_id"))
    ensures v.JObj? && Get(v.fields, "component_id").Some? && Get(v.fields, "component_type").None? ==>
              ParseComponent(repr, v) == Err(KeyMissing("component_type"))
    ensures v.JObj? && Get(v.fields, "component_id").Some? && Get(v.fields, "component_type").Some?
            && Get(v.fields, "module").None? ==>
              ParseComponent(repr, v) == Err(KeyMissing("module"))
    ensures v.JObj? && Get(v.fields, "component_id").Some? && Get(v.fields, "component_type").Some?
            && Get(v.fields, "module").Some? && Get(v.fields, "tags").None? && Get(v.fields, "provides").None?
            && Get(v.fields, "requires").None? ==>
              ParseComponent(repr, v).Ok?
  {
    hide Get, ParseTags, ParseCells;
    NothingParses(repr);
  }

  lemma BindingReads(repr: Json -> string, v: Json)
    ensures !v.JObj? ==> ParseBinding(repr, v) == Err(WrongType)
    ensures v.JObj? && Get(v.fields, "provider_id").None? ==> ParseBinding(repr, v) == Err(KeyMissing("provider_id"))
    ensures v.JObj? && Get(v.fields, "provider_id").Some? && Get(v.fields, "consumer_id").None? ==>
              ParseBinding(repr, v) == Err(KeyMissing("consumer_id"))
    ensures v.JObj? && Get(v.fields, "provider_id").Some? && Get(v.fields, "consumer_id").Some?
            && Get(v.fields, "kind").None? ==>
              ParseBinding(repr, v) == Err(KeyMissing("kind"))
    ensures v.JObj? && Get(v.fields, "provider_id").Some? && Get(v.fields, "consumer_id").Some?
            && Get(v.fields, "kind").Some? ==>
              var p, q, n, k := Get(v.fields, "provider_id").value, Get(v.fields, "consumer_id").value,
                                Get(v.fields, "cell_name"), Get(v.fields, "kind").value;
              if !k.JStr? then ParseBinding(repr, v) == Err(WrongType)
              else ParseBinding(repr, v)
                   == Ok(BindingSpec(if p.JStr? then p.s else repr(p), if q.JStr? then q.s else repr(q),
                                     if n.None? || n.value.JNull? then None
                                     else Some(if n.value.JStr? then n.value.s else repr(n.value)), k.s))
  {
    hide Get;
  }

  // ---- Verdicts ----

  lemma {:induction false} SomeItemFails<T>(items: seq<Json>, parse: Json -> Result<T, Error>)
    ensures ParseAll(items, parse).Err? ==>
              exists i :: 0 <= i < |items| && parse(items[i]).Err?
                          && parse(items[i]).error == ParseAll(items, parse).error
  {
    if items != [] { SomeItemFails(items[..|items| - 1], parse); }
  }

  predicate IsItemError(e: Error) {
    e.KeyMissing? || e == WrongType
  }

  lemma CellsFail(repr: Json -> string, v: Json)
    ensures ParseCells(repr, v).Err? ==> IsItemError(ParseCells(repr, v).error)
  {
    IterateIs(v);
    if Iterate(v).Ok? { SomeItemFails(Iterate(v).value, (c: Json) => ParseCell(repr, c)); }
  }

  lemma TagsFail(repr: Json -> string, v: Json)
    ensures ParseTags(repr, v).Err? ==> IsItemError(ParseTags(repr, v).error)
  {}

  lemma BindingsFail(repr: Json -> string, v: Json)
    ensures ParseBinding(repr, v).Err? ==> IsItemError(ParseBinding(repr, v).error)
  {
    hide Get;
  }

  lemma ComponentsFail(repr: Json -> string, v: Json)
    ensures ParseComponent(repr, v).Err? ==> IsItemError(ParseComponent(repr, v).error)
  {
    hide Get, ParseCells, ParseTags;
    if v.JObj? {
      TagsFail(repr, Lookup(v.fields, "tags", JArr([])));
      CellsFail(repr, Lookup(v.fields, "provides", JArr([])));
      CellsFail(repr, Lookup(v.fields, "requires", JArr([])));
    }
  }

  /** A wrong schema is the only reason for that error, and comes first. */
  lemma SchemaIsChecked(repr: Json -> string, d: seq<(string, Json)>)
    ensures FromDict(repr, d) == Err(UnsupportedSchema)
            <==> Get(d, "schema") != Some(JStr("artifact-registry-graph.v1"))
  {
    hide Get, ParseComponent, ParseBinding, ParseAll, SortBy, UniqueIds, EndpointsKnown;
    forall v { ComponentsFail(repr, v); }
    forall v { BindingsFail(repr, v); }
    var components := Iterate(Lookup(d, "components", JArr([])));
    if components.Ok? { SomeItemFails(components.value, (c: Json) => ParseComponent(repr, c)); }
    var bindings := Iterate(Lookup(d, "bindings", JArr([])));
    if bindings.Ok? { SomeItemFails(bindings.value, (b: Json) => ParseBinding(repr, b)); }
  }

  /** The first component that does not parse decides. */
  lemma FirstBadComponent(repr: Json -> string, d: seq<(string, Json)>, items: seq<Json>, n: nat)
    requires Get(d, "schema") == Some(JStr("artifact-registry-graph.v1"))
    requires Get(d, "components") == Some(JArr(items)) && n < |items|
    requires forall i :: 0 <= i < n ==> ParseComponent(repr, items[i]).Ok?
    requires ParseComponent(repr, items[n]).Err?
    ensures FromDict(repr, d) == Err(ParseComponent(repr, items[n]).error)
  {
    hide Get, ParseComponent, ParseBinding, SortBy, UniqueIds, EndpointsKnown;
    var parse := (c: Json) => ParseComponent(repr, c);
    var good := seq(n, i requires 0 <= i < n => ParseComponent(repr, items[i]).value);
    ParseAllElements(items[..n], parse, good);
    assert items[..n + 1][..n] == items[..n];
    ParseAllFails(items, parse, n + 1);
  }

  /** Unique ids are a matter of the list, not of its order. */
  lemma SortedIdsUnique(cs: seq<ComponentSpec>)
    ensures UniqueIds(SortBy(cs, ComponentKey))
            <==> forall i, j :: 0 <= i < j < |cs| ==> cs[i].componentId != cs[j].componentId
  {
    hide SortBy;
    var sorted := SortBy(cs, ComponentKey);
    if UniqueIds(sorted) {
      forall i, j | 0 <= i < j < |cs| ensures cs[i].componentId != cs[j].componentId {
        var a, b := TwoPlaces(cs, sorted, i, j);
      }
    }
    if forall i, j :: 0 <= i < j < |cs| ==> cs[i].componentId != cs[j].componentId {
      forall i, j | 0 <= i < j < |sorted| ensures sorted[i].componentId != sorted[j].componentId {
        var a, b := TwoPlaces(sorted, cs, i, j);
      }
    }
  }

  lemma KnownIffListed(cs: seq<ComponentSpec>, sorted: seq<ComponentSpec>, id: string)
    requires multiset(sorted) == multiset(cs)
    ensures Knows(sorted, id) <==> exists c :: c in cs && c.componentId == id
  {
    SameMembers(sorted, cs);
    if Knows(sorted, id) {
      var i :| 0 <= i < |sorted| && sorted[i].componentId == id;
      assert sorted[i] in cs;
    }
    if c :| c in cs && c.componentId == id {
      var i :| 0 <= i < |sorted| && sorted[i] == c;
    }
  }

  lemma EndpointsAreListed(cs: seq<ComponentSpec>, bs: seq<BindingSpec>)
    ensures EndpointsKnown(SortBy(cs, ComponentKey), SortBy(bs, BindingKey))
            <==> forall b :: b in bs ==>
                   && (exists c :: c in cs && c.componentId == b.providerId)
                   && (exists c :: c in cs && c.componentId == b.consumerId)
  {
    hide SortBy, Knows;
    var components, bindings := SortBy(cs, ComponentKey), SortBy(bs, BindingKey);
    SameMembers(bindings, bs);
    forall id { KnownIffListed(cs, components, id); }
    forall i | 0 <= i < |bindings| ensures bindings[i] in bs {}
  }

  /** Once all items parse: two components of one id are refused, then a binding whose provider or consumer is not
      listed; anything else is accepted, with exactly the items of the two lists. */
  lemma Verdict(repr: Json -> string, d: seq<(string, Json)>, items: seq<Json>, cs: seq<ComponentSpec>,
                bindingItems: seq<Json>, bs: seq<BindingSpec>)
    requires Get(d, "schema") == Some(JStr("artifact-registry-graph.v1"))
    requires Get(d, "components") == Some(JArr(items)) || (Get(d, "components") == None && items == [])
    requires |cs| == |items| && forall i :: 0 <= i < |cs| ==> ParseComponent(repr, items[i]) == Ok(cs[i])
    requires Get(d, "bindings") == Some(JArr(bindingItems)) || (Get(d, "bindings") == None && bindingItems == [])
    requires |bs| == |bindingItems| && forall i :: 0 <= i < |bs| ==> ParseBinding(repr, bindingItems[i]) == Ok(bs[i])
    ensures FromDict(repr, d) == Err(DuplicateIds)
            <==> exists i, j :: 0 <= i < j < |cs| && cs[i].componentId == cs[j].componentId
    ensures FromDict(repr, d) == Err(UnknownIds)
            <==> && (forall i, j :: 0 <= i < j < |cs| ==> cs[i].componentId != cs[j].componentId)
                 && exists b :: b in bs && !((exists c :: c in cs && c.componentId == b.providerId)
                                             && (exists c :: c in cs && c.componentId == b.consumerId))
    ensures FromDict(repr, d) != Err(DuplicateIds) && FromDict(repr, d) != Err(UnknownIds) ==>
              && FromDict(repr, d).Ok?
              && FromDict(repr, d).value.schema == "artifact-registry-graph.v1"
              && multiset(FromDict(repr, d).value.components) == multiset(cs)
              && multiset(FromDict(repr, d).value.bindings) == multiset(bs)
  {
    hide Get, ParseComponent, ParseBinding, ParseAll, SortBy, UniqueIds, EndpointsKnown;
    ParseAllElements(items, (c: Json) => ParseComponent(repr, c), cs);
    ParseAllElements(bindingItems, (b: Json) => ParseBinding(repr, b), bs);
    SortedIdsUnique(cs);
    EndpointsAreListed(cs, bs);
  }
}
