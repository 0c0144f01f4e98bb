/** The compiled registry graph and its dictionary form. */
module Registry {
  import opened Wrappers
  import opened Ordering

  const SCHEMA := "artifact-registry-graph.v1"

  datatype CellSpec = CellSpec(name: string, kind: string)

  datatype ComponentSpec = ComponentSpec(
    componentId: string, componentType: string, module_: string, extension: string,
    tags: seq<string>, provided: seq<CellSpec>, required: seq<CellSpec>)

  datatype BindingSpec = BindingSpec(providerId: string, consumerId: string, cellName: Option<string>, kind: string)

  datatype RegistryGraph = RegistryGraph(components: seq<ComponentSpec>, bindings: seq<BindingSpec>, schema: string)

  // ---- Sort keys ----

  function TagKey(t: string): seq<string> { [t] }

  function CellKey(c: CellSpec): seq<string> { [c.name, c.kind] }

  function ComponentKey(c: ComponentSpec): seq<string> { [c.componentId] }

  /** `(provider_id, consumer_id, cell_name or "", kind)` */
  function BindingKey(b: BindingSpec): seq<string> {
    [b.providerId, b.consumerId, if b.cellName.Some? then b.cellName.value else "", b.kind]
  }

  // ---- Dictionaries as `json` reads them ----

  datatype Json =
    | JNull
    | JBool(b: bool)
    | JNum(n: real)
    | JStr(s: string)
    | JArr(items: seq<Json>)
    | JObj(fields: seq<(string, Json)>)

  datatype Error =
    | UnsupportedSchema
    | DuplicateIds
    | UnknownIds
    | KeyMissing(key: string)
    | WrongType

  /** `d.get(key)`, keys being distinct in a dictionary */
  function Get(fields: seq<(string, Json)>, key: string): Option<Json> {
    if fields == [] then None
    else if fields[0].0 == key then Some(fields[0].1)
    else Get(fields[1..], key)
  }

  /** `d[key]` on a value that may not be a dictionary */
  function Index(v: Json, key: string): Result<Json, Error> {
    if !v.JObj? then Err(WrongType)
    else
      var f := Get(v.fields, key);
      if f.None? then Err(KeyMissing(key)) else Ok(f.value)
  }

  /** `d.get(key, default)` */
  function Lookup(fields: seq<(string, Json)>, key: string, default: Json): Json {
    var f := Get(fields, key);
    if f.None? then default else f.value
  }

  function GetOr(v: Json, key: string, default: Json): Result<Json, Error> {
    if !v.JObj? then Err(WrongType) else Ok(Lookup(v.fields, key, default))
  }

  /** The items `for item in v` yields: a string gives its characters, a dictionary its keys. */
  function Iterate(v: Json): Result<seq<Json>, Error> {
    match v
    case JArr(items) => Ok(items)
    case JStr(s) => Ok(seq(|s|, i requires 0 <= i < |s| => JStr([s[i]])))
    case JObj(fields) => Ok(seq(|fields|, i requires 0 <= i < |fields| => JStr(fields[i].0)))
    case _ => Err(WrongType)
  }

  /** `str(v)`; `repr` stands for Python's rendering of values that are not strings. */
  function Str(repr: Json -> string, v: Json): string {
    if v.JStr? then v.s else repr(v)
  }

  function ParseAll<T>(items: seq<Json>, parse: Json -> Result<T, Error>): (r: Result<seq<T>, Error>)
    ensures r.Ok? ==> |r.value| == |items|
  {
    if items == [] then Ok([])
    else
      var front :- ParseAll(items[..|items| - 1], parse);
      var last :- parse(items[|items| - 1]);
      Ok(front + [last])
  }

  // ---- to_dict ----

  function CellJson(c: CellSpec): Json {
    JObj([("name", JStr(c.name)), ("kind", JStr(c.kind))])
  }

  function CellsJson(cs: seq<CellSpec>): Json {
    JArr(seq(|cs|, i requires 0 <= i < |cs| => CellJson(cs[i])))
  }

  function TagsJson(ts: seq<string>): Json {
    JArr(seq(|ts|, i requires 0 <= i < |ts| => JStr(ts[i])))
  }

  function ComponentJson(c: ComponentSpec): Json {
    JObj([("component_id", JStr(c.componentId)),
          ("component_type", JStr(c.componentType)),
          ("module", JStr(c.module_)),
          ("extension", JStr(c.extension)),
          ("tags", TagsJson(c.tags)),
          ("provides", CellsJson(c.provided)),
          ("requires", CellsJson(c.required))])
  }

  function BindingJson(b: BindingSpec): Json {
    JObj([("provider_id", JStr(b.providerId)),
          ("consumer_id", JStr(b.consumerId)),
          ("cell_name", if b.cellName.Some? then JStr(b.cellName.value) else JNull),
          ("kind", JStr(b.kind))])
  }

  function ToDict(g: RegistryGraph): seq<(string, Json)> {
    [("schema", JStr(g.schema)),
     ("components", JArr(seq(|g.components|, i requires 0 <= i < |g.components| => ComponentJson(g.components[i])))),
     ("bindings", JArr(seq(|g.bindings|, i requires 0 <= i < |g.bindings| => BindingJson(g.bindings[i]))))]
  }

  // ---- from_dict ----

  function ParseKind(v: Json): Result<string, Error> {
    if v.JStr? then Ok(v.s) else Err(WrongType)
  }

  function ParseCell(repr: Json -> string, v: Json): Result<CellSpec, Error> {
    var name :- Index(v, "name");
    var kind :- Index(v, "kind");
    var k :- ParseKind(kind);
    Ok(CellSpec(Str(repr, name), k))
  }

  function ParseCells(repr: Json -> string, v: Json): Result<seq<CellSpec>, Error> {
    var items :- Iterate(v);
    var cells :- ParseAll(items, (c: Json) => ParseCell(repr, c));
    Ok(SortBy(cells, CellKey))
  }

  function ParseTags(repr: Json -> string, v: Json): Result<seq<string>, Error> {
    var items :- Iterate(v);
    Ok(SortBy(seq(|items|, i requires 0 <= i < |items| => Str(repr, items[i])), TagKey))
  }

  function ParseComponent(repr: Json -> string, v: Json): Result<ComponentSpec, Error> {
    var id :- Index(v, "component_id");
    var type_ :- Index(v, "component_type");
    var module_ :- Index(v, "module");
    var ext :- GetOr(v, "extension", JStr("core"));
    var rawTags :- GetOr(v, "tags", JArr([]));
    var tags :- ParseTags(repr, rawTags);
    var rawProvides :- GetOr(v, "provides", JArr([]));
    var provided :- ParseCells(repr, rawProvides);
    var rawRequires :- GetOr(v, "requires", JArr([]));
    var required :- ParseCells(repr, rawRequires);
    Ok(ComponentSpec(Str(repr, id), Str(repr, type_), Str(repr, module_), Str(repr, ext), tags, provided, required))
  }

  function ParseBinding(repr: Json -> string, v: Json): Result<BindingSpec, Error> {
    var provider :- Index(v, "provider_id");
    var consumer :- Index(v, "consumer_id");
    var cell :- GetOr(v, "cell_name", JNull);
    var kind :- Index(v, "kind");
    var k :- ParseKind(kind);
    Ok(BindingSpec(Str(repr, provider), Str(repr, consumer), if cell.JNull? then None else Some(Str(repr, cell)), k))
  }

  predicate UniqueIds(cs: seq<ComponentSpec>) {
    forall i, j :: 0 <= i < j < |cs| ==> cs[i].componentId != cs[j].componentId
  }

  predicate Knows(cs: seq<ComponentSpec>, id: string) {
    exists i :: 0 <= i < |cs| && cs[i].componentId == id
  }

  predicate EndpointsKnown(cs: seq<ComponentSpec>, bs: seq<BindingSpec>) {
    forall i :: 0 <= i < |bs| ==> Knows(cs, bs[i].providerId) && Knows(cs, bs[i].consumerId)
  }

  function FromDict(repr: Json -> string, d: seq<(string, Json)>): Result<RegistryGraph, Error> {
    if Get(d, "schema") != Some(JStr(SCHEMA)) then Err(UnsupportedSchema)
    else
      var items :- Iterate(Lookup(d, "components", JArr([])));
      var parsed :- ParseAll(items, (c: Json) => ParseComponent(repr, c));
      var components := SortBy(parsed, ComponentKey);
      if !UniqueIds(components) then Err(DuplicateIds)
      else
        var bindingItems :- Iterate(Lookup(d, "bindings", JArr([])));
        var parsedBindings :- ParseAll(bindingItems, (b: Json) => ParseBinding(repr, b));
        var bindings := SortBy(parsedBindings, BindingKey);
        if !EndpointsKnown(components, bindings) then Err(UnknownIds)
        else Ok(RegistryGraph(components, bindings, SCHEMA))
  }

  /** `RegistryGraph.from_dict`, with its loop over the components. */
  method ParseGraph(repr: Json -> string, d: seq<(string, Json)>) returns (r: Result<RegistryGraph, Error>)
    ensures r == FromDict(repr, d)
    ensures r.Ok? ==> Canonical(r.value)
  {
    hide Canonical, UniqueIds, EndpointsKnown, ParseComponent, ParseBinding, SortBy;
    if FromDict(repr, d).Ok? { AcceptedIsCanonical(repr, d); }
    if Get(d, "schema") != Some(JStr(SCHEMA)) {
      return Err(UnsupportedSchema);
    }
    var parse := (c: Json) => ParseComponent(repr, c);
    var items := Iterate(Lookup(d, "components", JArr([])));
    if items.Err? { return Err(items.error); }
    var components := [];
    for i := 0 to |items.value|
      invariant ParseAll(items.value[..i], parse) == Ok(components)
    {
      var c := parse(items.value[i]);
      assert items.value[..i + 1][..i] == items.value[..i];
      if c.Err? {
        ParseAllFails(items.value, parse, i + 1);
        return Err(c.error);
      }
      components := components + [c.value];
    }
    assert items.value[..|items.value|] == items.value;
    components := SortBy(components, ComponentKey);
    if !UniqueIds(components) {
      return Err(DuplicateIds);
    }
    var bindingItems := Iterate(Lookup(d, "bindings", JArr([])));
    if bindingItems.Err? { return Err(bindingItems.error); }
    var parsed := ParseAll(bindingItems.value, (b: Json) => ParseBinding(repr, b));
    if parsed.Err? { return Err(parsed.error); }
    var bindings := SortBy(parsed.value, BindingKey);
    if !EndpointsKnown(components, bindings) {
      return Err(UnknownIds);
    }
    return Ok(RegistryGraph(components, bindings, SCHEMA));
  }

  lemma {:induction false} ParseAllFails<T>(items: seq<Json>, parse: Json -> Result<T, Error>, n: nat)
    requires n <= |items| && ParseAll(items[..n], parse).Err?
    ensures ParseAll(items, parse) == ParseAll(items[..n], parse)
    decreases |items|
  {
    if n < |items| {
      var front := items[..|items| - 1];
      assert front[..n] == items[..n];
      ParseAllFails(front, parse, n);
    } else {
      assert items[..n] == items;
    }
  }

  // ---- Round trips ----

  predicate CanonicalComponent(c: ComponentSpec) {
    SortedBy(c.tags, TagKey) && SortedBy(c.provided, CellKey) && SortedBy(c.required, CellKey)
  }

  /** What every accepted dictionary parses to: sorted, unique ids, no dangling binding. */
  predicate Canonical(g: RegistryGraph) {
    && g.schema == SCHEMA
    && StrictlySortedBy(g.components, ComponentKey)
    && (forall i :: 0 <= i < |g.components| ==> CanonicalComponent(g.components[i]))
    && SortedBy(g.bindings, BindingKey)
    && EndpointsKnown(g.components, g.bindings)
  }

  lemma {:induction false} ParseAllElements<T>(items: seq<Json>, parse: Json -> Result<T, Error>, vs: seq<T>)
    requires |items| == |vs|
    requires forall i :: 0 <= i < |items| ==> parse(items[i]) == Ok(vs[i])
    ensures ParseAll(items, parse) == Ok(vs)
  {
    if items != [] {
      var n := |items| - 1;
      ParseAllElements(items[..n], parse, vs[..n]);
      assert vs == vs[..n] + [vs[n]];
    }
  }

  lemma CellRoundTrip(repr: Json -> string, c: CellSpec)
    ensures ParseCell(repr, CellJson(c)) == Ok(c)
  {
    var f := CellJson(c).fields;
    GetAt(f, 0);
    GetAt(f, 1);
  }

  lemma CellsRoundTrip(repr: Json -> string, cs: seq<CellSpec>)
    ensures ParseCells(repr, CellsJson(cs)) == Ok(SortBy(cs, CellKey))
  {
    hide ParseCell, CellJson, SortBy;
    var parse := (c: Json) => ParseCell(repr, c);
    var items := CellsJson(cs).items;
    forall i | 0 <= i < |cs| ensures parse(items[i]) == Ok(cs[i]) {
      CellRoundTrip(repr, cs[i]);
    }
    ParseAllElements(items, parse, cs);
  }

  lemma TagsRoundTrip(repr: Json -> string, ts: seq<string>)
    ensures ParseTags(repr, TagsJson(ts)) == Ok(SortBy(ts, TagKey))
  {
    var items := TagsJson(ts).items;
    assert seq(|items|, i requires 0 <= i < |items| => Str(repr, items[i])) == ts;
  }

  lemma {:induction false} GetAt(fields: seq<(string, Json)>, i: nat)
    requires i < |fields| && forall j :: 0 <= j < i ==> fields[j].0 != fields[i].0
    ensures Get(fields, fields[i].0) == Some(fields[i].1)
  {
    if i > 0 { GetAt(fields[1..], i - 1); }
  }

  function Sorted(c: ComponentSpec): ComponentSpec {
    c.(tags := SortBy(c.tags, TagKey), provided := SortBy(c.provided, CellKey), required := SortBy(c.required, CellKey))
  }

  lemma ComponentRoundTrip(repr: Json -> string, c: ComponentSpec)
    ensures ParseComponent(repr, ComponentJson(c)) == Ok(Sorted(c))
  {
    var f := ComponentJson(c).fields;
    GetAt(f, 0);
    GetAt(f, 1);
    GetAt(f, 2);
    GetAt(f, 3);
    GetAt(f, 4);
    GetAt(f, 5);
    GetAt(f, 6);
    TagsRoundTrip(repr, c.tags);
    CellsRoundTrip(repr, c.provided);
    CellsRoundTrip(repr, c.required);
  }

  lemma BindingRoundTrip(repr: Json -> string, b: BindingSpec)
    ensures ParseBinding(repr, BindingJson(b)) == Ok(b)
  {
    var f := BindingJson(b).fields;
    GetAt(f, 0);
    GetAt(f, 1);
    GetAt(f, 2);
    GetAt(f, 3);
  }

  lemma CanonicalIsSorted(c: ComponentSpec)
    requires CanonicalComponent(c)
    ensures Sorted(c) == c
  {
    SortedIsFixed(c.tags, TagKey);
    SortedIsFixed(c.provided, CellKey);
    SortedIsFixed(c.required, CellKey);
  }

  lemma ComponentsRoundTrip(repr: Json -> string, cs: seq<ComponentSpec>, items: seq<Json>)
    requires |items| == |cs| && forall i :: 0 <= i < |cs| ==> items[i] == ComponentJson(cs[i])
    requires forall i :: 0 <= i < |cs| ==> CanonicalComponent(cs[i])
    ensures ParseAll(items, (c: Json) => ParseComponent(repr, c)) == Ok(cs)
  {
    hide ParseComponent, ComponentJson;
    var parse := (c: Json) => ParseComponent(repr, c);
    forall i | 0 <= i < |items| ensures parse(items[i]) == Ok(cs[i]) {
      ComponentRoundTrip(repr, cs[i]);
      CanonicalIsSorted(cs[i]);
    }
    ParseAllElements(items, parse, cs);
  }

  lemma BindingsRoundTrip(repr: Json -> string, bs: seq<BindingSpec>, items: seq<Json>)
    requires |items| == |bs| && forall i :: 0 <= i < |bs| ==> items[i] == BindingJson(bs[i])
    ensures ParseAll(items, (b: Json) => ParseBinding(repr, b)) == Ok(bs)
  {
    hide ParseBinding, BindingJson;
    var parse := (b: Json) => ParseBinding(repr, b);
    forall i | 0 <= i < |items| ensures parse(items[i]) == Ok(bs[i]) {
      BindingRoundTrip(repr, bs[i]);
    }
    ParseAllElements(items, parse, bs);
  }

  lemma StrictlySortedIdsAreUnique(cs: seq<ComponentSpec>)
    ensures StrictlySortedBy(cs, ComponentKey) <==> SortedBy(cs, ComponentKey) && UniqueIds(cs)
  {
    forall i, j | 0 <= i < j < |cs|
      ensures ComponentKey(cs[i]) != ComponentKey(cs[j]) <==> cs[i].componentId != cs[j].componentId
    {
      assert ComponentKey(cs[i])[0] == cs[i].componentId && ComponentKey(cs[j])[0] == cs[j].componentId;
    }
  }

  /** Printing a canonical graph and parsing it again gives the same graph. */
  lemma PrintThenParse(repr: Json -> string, g: RegistryGraph)
    requires Canonical(g)
    ensures FromDict(repr, ToDict(g)) == Ok(g)
  {
    hide ParseComponent, ParseBinding, ComponentJson, BindingJson, EndpointsKnown,
         CanonicalComponent, SortBy, SortedBy, ParseAll;
    var d := ToDict(g);
    GetAt(d, 0);
    GetAt(d, 1);
    GetAt(d, 2);
    ComponentsRoundTrip(repr, g.components, d[1].1.items);
    BindingsRoundTrip(repr, g.bindings, d[2].1.items);
    SortedIsFixed(g.components, ComponentKey);
    SortedIsFixed(g.bindings, BindingKey);
    StrictlySortedIdsAreUnique(g.components);
  }

  lemma {:induction false} ParsedElement<T>(items: seq<Json>, parse: Json -> Result<T, Error>, vs: seq<T>, i: nat)
    requires ParseAll(items, parse) == Ok(vs) && i < |vs|
    ensures i < |items| && parse(items[i]) == Ok(vs[i])
  {
    var n := |items| - 1;
    if i < n {
      var front := ParseAll(items[..n], parse);
      ParsedElement(items[..n], parse, front.value, i);
    }
  }

  lemma ParsedComponentIsCanonical(repr: Json -> string, v: Json)
    requires ParseComponent(repr, v).Ok?
    ensures CanonicalComponent(ParseComponent(repr, v).value)
  {
    var tags := GetOr(v, "tags", JArr([])).value;
    var items := Iterate(tags).value;
    SortSorts(seq(|items|, i requires 0 <= i < |items| => Str(repr, items[i])), TagKey);
    ParsedCellsAreSorted(repr, GetOr(v, "provides", JArr([])).value);
    ParsedCellsAreSorted(repr, GetOr(v, "requires", JArr([])).value);
  }

  lemma ParsedCellsAreSorted(repr: Json -> string, v: Json)
    requires ParseCells(repr, v).Ok?
    ensures SortedBy(ParseCells(repr, v).value, CellKey)
  {
    SortSorts(ParseAll(Iterate(v).value, (c: Json) => ParseCell(repr, c)).value, CellKey);
  }

  /** Whatever dictionary is accepted, the result is canonical. */
  lemma AcceptedIsCanonical(repr: Json -> string, d: seq<(string, Json)>)
    requires FromDict(repr, d).Ok?
    ensures Canonical(FromDict(repr, d).value)
  {
    var g := FromDict(repr, d).value;
    var parse := (c: Json) => ParseComponent(repr, c);
    var items := Iterate(Lookup(d, "components", JArr([]))).value;
    var parsed := ParseAll(items, parse).value;
    SortSorts(parsed, ComponentKey);
    SortSorts(ParseAll(Iterate(Lookup(d, "bindings", JArr([]))).value,
              (b: Json) => ParseBinding(repr, b)).value, BindingKey);
    SameMembers(g.components, parsed);
    forall i | 0 <= i < |g.components| ensures CanonicalComponent(g.components[i]) {
      assert g.components[i] in parsed;
      var j :| 0 <= j < |parsed| && parsed[j] == g.components[i];
      ParsedElement(items, parse, parsed, j);
      ParsedComponentIsCanonical(repr, items[j]);
    }
    StrictlySortedIdsAreUnique(g.components);
  }

  /** Parsing, printing and parsing again is the same as parsing once. */
  lemma ParsePrintParse(repr: Json -> string, d: seq<(string, Json)>)
    requires FromDict(repr, d).Ok?
    ensures FromDict(repr, ToDict(FromDict(repr, d).value)) == FromDict(repr, d)
  {
    AcceptedIsCanonical(repr, d);
    PrintThenParse(repr, FromDict(repr, d).value);
  }

  /** The graphs that survive the round trip are exactly the canonical ones. */
  lemma RoundTripIffCanonical(repr: Json -> string, g: RegistryGraph)
    ensures FromDict(repr, ToDict(g)) == Ok(g) <==> Canonical(g)
  {
    if Canonical(g) {
      PrintThenParse(repr, g);
    } else if FromDict(repr, ToDict(g)) == Ok(g) {
      AcceptedIsCanonical(repr, ToDict(g));
    }
  }
}
