/** The names under which a snapshot records the tensors inside nested containers. */
module Naming {
  import opened Ordering
  import opened Text

  /** What a hook sees: tensors, dictionaries (keys as `str` renders them, in insertion order), lists and tuples,
      anything else. */
  datatype Value<T> =
    | Tensor(t: T)
    | Mapping(entries: seq<(string, Value<T>)>)
    | Items(items: seq<Value<T>>)
    | Other

  function EntryKey<T(==)>(e: (string, Value<T>)): seq<string> { [e.0] }

  /** The parts of a container with the name segment of each: dictionaries sorted by key, lists numbered. */
  function Parts<T(==)>(v: Value<T>): (ps: seq<(string, Value<T>)>)
    ensures forall i :: 0 <= i < |ps| ==> ps[i].1 < v
  {
    match v
    case Mapping(entries) =>
      var sorted := SortBy(entries, (e: (string, Value<T>)) => EntryKey(e));
      assert forall i :: 0 <= i < |sorted| ==> sorted[i] in multiset(sorted);
      sorted
    case Items(items) => seq(|items|, i requires 0 <= i < |items| => (Decimal(i), items[i]))
    case _ => []
  }

  /** `_named_tensors` */
  function Named<T(==)>(v: Value<T>, prefix: string): seq<(string, T)>
    decreases v, |Parts(v)| + 1
  {
    if v.Tensor? then [(prefix, v.t)] else NamedParts(v, |Parts(v)|, prefix)
  }

  /** The tensors of the first `n` parts. */
  function NamedParts<T(==)>(v: Value<T>, n: nat, prefix: string): seq<(string, T)>
    requires n <= |Parts(v)|
    decreases v, n
  {
    if n == 0 then []
    else NamedParts(v, n - 1, prefix) + Named(Parts(v)[n - 1].1, prefix + "." + Parts(v)[n - 1].0)
  }

  /** Every part once: the items of a list under their positions, the entries of a dictionary by ascending key. */
  lemma PartsAre<T>(v: Value<T>)
    ensures v.Items? ==>
              |Parts(v)| == |v.items| && forall i :: 0 <= i < |v.items| ==> Parts(v)[i] == (Decimal(i), v.items[i])
    ensures v.Mapping? ==>
              multiset(Parts(v)) == multiset(v.entries)
              && forall i, j :: 0 <= i < j < |Parts(v)| ==> StrLe(Parts(v)[i].0, Parts(v)[j].0)
    ensures v.Tensor? || v.Other? ==> Parts(v) == []
  {
    if v.Mapping? {
      var key := (e: (string, Value<T>)) => EntryKey(e);
      SortSorts(v.entries, key);
      var ps := Parts(v);
      forall i, j | 0 <= i < j < |ps| ensures StrLe(ps[i].0, ps[j].0) {
        assert KeyLe(key(ps[i]), key(ps[j]));
        assert key(ps[i]) == [ps[i].0] && key(ps[j]) == [ps[j].0];
        StrLeTotal(ps[i].0, ps[i].0);
      }
    }
  }

  // ---- When names are distinct ----

  /** `name` is `prefix`, or continues it behind a dot. */
  predicate Extends(name: string, prefix: string) {
    name == prefix || (prefix + "." <= name)
  }

  /** In no container is a segment another one, or a continuation of another one behind a dot. */
  predicate Separate<T(==)>(v: Value<T>)
    decreases v
  {
    && (forall i :: 0 <= i < |Parts(v)| ==> Separate(Parts(v)[i].1))
    && (forall i, j :: 0 <= i < |Parts(v)| && 0 <= j < |Parts(v)| && i != j ==>
          !Extends(Parts(v)[i].0, Parts(v)[j].0))
  }

  predicate DistinctNames<T>(ts: seq<(string, T)>) {
    forall i, j :: 0 <= i < j < |ts| ==> ts[i].0 != ts[j].0
  }

  predicate AllExtend<T>(ts: seq<(string, T)>, prefix: string) {
    forall i :: 0 <= i < |ts| ==> Extends(ts[i].0, prefix)
  }

  lemma ExtendsTwice(name: string, prefix: string, segment: string)
    requires Extends(name, prefix + "." + segment)
    ensures Extends(name, prefix)
  {
    var p := prefix + ".";
    assert p <= p + segment;
    if name != p + segment {
      assert p + segment <= name;
      assert forall i :: 0 <= i < |p| ==> name[i] == (p + segment)[i] == p[i];
    }
  }

  /** If a name goes through two segments, one of them is the other or continues it. */
  lemma SegmentsNest(name: string, prefix: string, a: string, b: string)
    requires Extends(name, prefix + "." + a) && Extends(name, prefix + "." + b)
    ensures Extends(a, b) || Extends(b, a)
  {
    var p := prefix + ".";
    var rest := name[|p|..];
    RestExtends(name, p, a);
    RestExtends(name, p, b);
    assert a <= rest && b <= rest;
    assert |a| < |b| ==> a + "." <= b;
    assert |b| < |a| ==> b + "." <= a;
    assert |a| == |b| ==> a == b;
  }

  lemma RestExtends(name: string, p: string, a: string)
    requires Extends(name, p + a)
    ensures |p| <= |name| && Extends(name[|p|..], a)
    ensures a <= name[|p|..] && (|name[|p|..]| > |a| ==> name[|p|..][|a|] == '.')
  {
    if name != p + a {
      var q := p + a + ".";
      assert q <= name;
      var rest := name[|p|..];
      assert forall i :: 0 <= i < |a| + 1 ==> rest[i] == q[|p| + i];
      assert forall i :: 0 <= i < |a| ==> q[|p| + i] == a[i];
      assert q[|p| + |a|] == '.';
    }
  }

  lemma {:induction false} NamesExtend<T>(v: Value<T>, prefix: string)
    ensures AllExtend(Named(v, prefix), prefix)
    decreases v, |Parts(v)| + 1
  {
    if !v.Tensor? { PartNamesExtend(v, |Parts(v)|, prefix); }
  }

  lemma {:induction false} PartNamesExtend<T>(v: Value<T>, n: nat, prefix: string)
    requires n <= |Parts(v)|
    ensures AllExtend(NamedParts(v, n, prefix), prefix)
    decreases v, n
  {
    if n > 0 {
      PartNamesExtend(v, n - 1, prefix);
      var p := Parts(v)[n - 1];
      NamesExtend(p.1, prefix + "." + p.0);
      var last := Named(p.1, prefix + "." + p.0);
      forall i | 0 <= i < |last| ensures Extends(last[i].0, prefix) { ExtendsTwice(last[i].0, prefix, p.0); }
    }
  }

  /** Every name of the first `n` parts goes through the segment of one of them. */
  lemma {:induction false} ThroughSegment<T>(v: Value<T>, n: nat, prefix: string, i: nat) returns (k: nat)
    requires n <= |Parts(v)| && i < |NamedParts(v, n, prefix)|
    ensures k < n && Extends(NamedParts(v, n, prefix)[i].0, prefix + "." + Parts(v)[k].0)
  {
    var front := NamedParts(v, n - 1, prefix);
    if i < |front| {
      k := ThroughSegment(v, n - 1, prefix, i);
    } else {
      k := n - 1;
      NamesExtend(Parts(v)[k].1, prefix + "." + Parts(v)[k].0);
    }
  }

  /** Separate containers give every tensor a name of its own. */
  lemma {:induction false} SeparateNamesAreDistinct<T>(v: Value<T>, prefix: string)
    requires Separate(v)
    ensures DistinctNames(Named(v, prefix))
    decreases v, |Parts(v)| + 1
  {
    if !v.Tensor? { PartNamesAreDistinct(v, |Parts(v)|, prefix); }
  }

  lemma {:induction false} PartNamesAreDistinct<T>(v: Value<T>, n: nat, prefix: string)
    requires Separate(v) && n <= |Parts(v)|
    ensures DistinctNames(NamedParts(v, n, prefix))
    decreases v, n
  {
    if n > 0 {
      PartNamesAreDistinct(v, n - 1, prefix);
      var p := Parts(v)[n - 1];
      SeparateNamesAreDistinct(p.1, prefix + "." + p.0);
      NamesExtend(p.1, prefix + "." + p.0);
      var front, last := NamedParts(v, n - 1, prefix), Named(p.1, prefix + "." + p.0);
      forall i, j | 0 <= i < |front| && 0 <= j < |last| ensures front[i].0 != last[j].0 {
        var k := ThroughSegment(v, n - 1, prefix, i);
        if front[i].0 == last[j].0 { SegmentsNest(front[i].0, prefix, Parts(v)[k].0, p.0); }
      }
    }
  }

  // ---- The condition is exact ----

  /** A dictionary with the given keys, as `str` renders them, and values. */
  function Dictionary<T>(keys: seq<string>, values: seq<Value<T>>): (v: Value<T>)
    requires |keys| == |values|
    ensures v.Mapping? && |v.entries| == |keys|
    ensures forall i :: 0 <= i < |keys| ==> v.entries[i] == (keys[i], values[i])
  {
    Mapping(seq(|keys|, i requires 0 <= i < |keys| => (keys[i], values[i])))
  }

  predicate SeparateKeys(keys: seq<string>) {
    forall i, j :: 0 <= i < |keys| && 0 <= j < |keys| && i != j ==> !Extends(keys[i], keys[j])
  }

  lemma PartsAreEntries<T>(v: Value<T>)
    requires v.Mapping?
    ensures multiset(Parts(v)) == multiset(v.entries)
  {}

  /** A dictionary is separate exactly when its keys and its values are. */
  lemma DictionaryIsSeparate<T>(keys: seq<string>, values: seq<Value<T>>)
    requires |keys| == |values| && SeparateKeys(keys) && forall i :: 0 <= i < |values| ==> Separate(values[i])
    ensures Separate(Dictionary(keys, values))
  {
    hide Extends;
    var v := Dictionary(keys, values);
    PartsAreEntries(v);
    var ps := Parts(v);
    forall i | 0 <= i < |ps| ensures Separate(ps[i].1) {
      assert ps[i] in multiset(v.entries);
    }
    forall i, j | 0 <= i < |ps| && 0 <= j < |ps| && i != j ensures !Extends(ps[i].0, ps[j].0) {
      var a, b := TwoPlaces(ps, v.entries, i, j);
    }
  }

  /** Where the tensors of part `k` stand among those of the first `n` parts. */
  lemma {:induction false} PartStands<T>(v: Value<T>, n: nat, prefix: string, k: nat, m: nat)
    requires k < n <= |Parts(v)| && m < |Named(Parts(v)[k].1, prefix + "." + Parts(v)[k].0)|
    ensures |NamedParts(v, k, prefix)| + m < |NamedParts(v, k + 1, prefix)| <= |NamedParts(v, n, prefix)|
    ensures NamedParts(v, n, prefix)[|NamedParts(v, k, prefix)| + m]
            == Named(Parts(v)[k].1, prefix + "." + Parts(v)[k].0)[m]
    decreases n
  {
    hide Parts, Named;
    if k < n - 1 { PartStands(v, n - 1, prefix, k, m); }
  }

  /** Tensors of two parts with one name spoil the names of the whole. */
  lemma PartsCollide<T>(v: Value<T>, prefix: string, a: nat, b: nat, name: string)
    requires v.Mapping? && a < |Parts(v)| && b < |Parts(v)| && a != b
    requires HasName(Named(Parts(v)[a].1, prefix + "." + Parts(v)[a].0), name)
    requires HasName(Named(Parts(v)[b].1, prefix + "." + Parts(v)[b].0), name)
    ensures !DistinctNames(Named(v, prefix))
  {
    var n := |Parts(v)|;
    var x :| 0 <= x < |Named(Parts(v)[a].1, prefix + "." + Parts(v)[a].0)|
             && Named(Parts(v)[a].1, prefix + "." + Parts(v)[a].0)[x].0 == name;
    var y :| 0 <= y < |Named(Parts(v)[b].1, prefix + "." + Parts(v)[b].0)|
             && Named(Parts(v)[b].1, prefix + "." + Parts(v)[b].0)[y].0 == name;
    hide Parts;
    PartStands(v, n, prefix, a, x);
    PartStands(v, n, prefix, b, y);
    if a < b { StandsBefore(v, prefix, a, b); } else { StandsBefore(v, prefix, b, a); }
    assert |NamedParts(v, a, prefix)| + x != |NamedParts(v, b, prefix)| + y;
  }

  predicate HasName<T>(ts: seq<(string, T)>, name: string) {
    exists i :: 0 <= i < |ts| && ts[i].0 == name
  }

  lemma {:induction false} StandsBefore<T>(v: Value<T>, prefix: string, a: nat, b: nat)
    requires a < b <= |Parts(v)|
    ensures |NamedParts(v, a + 1, prefix)| <= |NamedParts(v, b, prefix)|
    decreases b
  {
    hide Parts, Named;
    if a + 1 < b { StandsBefore(v, prefix, a, b - 1); }
  }

  /** Under `key`, the value whose one tensor ends up with the name of a tensor right under `longer`. */
  function Rival<T>(longer: string, key: string, t: T): (v: Value<T>)
    requires Extends(longer, key)
  {
    if longer == key then Tensor(t) else Mapping([(longer[|key| + 1..], Tensor(t))])
  }

  lemma RivalsName<T>(longer: string, key: string, t: T, prefix: string)
    requires Extends(longer, key)
    ensures Separate(Rival(longer, key, t))
    ensures HasName(Named(Rival(longer, key, t), prefix + "." + key), prefix + "." + longer)
  {
    var v, under := Rival(longer, key, t), prefix + "." + key;
    if longer == key {
      assert Named(v, under)[0].0 == prefix + "." + longer;
    } else {
      var rest := longer[|key| + 1..];
      PartsOfSorted(v);
      assert Parts(v)[0].1 == Tensor(t);
      assert NamedParts(v, 0, under) == [];
      assert Named(v, under) == NamedParts(v, 1, under) == [(under + "." + rest, t)];
      assert longer == key + "." + rest;
      assert under + "." + rest == prefix + "." + longer;
      assert Named(v, under)[0].0 == prefix + "." + longer;
    }
  }

  lemma OwnName<T>(key: string, t: T, prefix: string)
    ensures Separate<T>(Tensor(t))
    ensures HasName(Named(Tensor(t), prefix + "." + key), prefix + "." + key)
  {
    assert Named(Tensor(t), prefix + "." + key)[0].0 == prefix + "." + key;
  }

  /** Keys that are not separate admit separate values whose tensors collide. */
  lemma CollidingFilling<T>(keys: seq<string>, t: T, prefix: string) returns (values: seq<Value<T>>)
    requires !SeparateKeys(keys)
    ensures |values| == |keys| && forall i :: 0 <= i < |values| ==> Separate(values[i])
    ensures !DistinctNames(Named(Dictionary(keys, values), prefix))
  {
    var i, j :| 0 <= i < |keys| && 0 <= j < |keys| && i != j && Extends(keys[i], keys[j]);
    hide Parts, Extends, Named;
    OwnName(keys[i], t, prefix);
    RivalsName(keys[i], keys[j], t, prefix);
    values := seq(|keys|, k requires 0 <= k < |keys| => if k == j then Rival(keys[i], keys[j], t) else Tensor(t));
    var v := Dictionary(keys, values);
    PartsAreEntries(v);
    var a, b := TwoPlaces(v.entries, Parts(v), i, j);
    PartsCollide(v, prefix, a, b, prefix + "." + keys[i]);
  }
  /** Every filling of a dictionary's keys with separate values keeps all names apart. */
  ghost predicate KeepsNamesApart<T(!new)>(keys: seq<string>, prefix: string) {
    forall values: seq<Value<T>> :: |values| == |keys| && (forall i :: 0 <= i < |values| ==> Separate(values[i]))
      ==> DistinctNames(Named(Dictionary(keys, values), prefix))
  }

  /** Main result: that is so exactly when no key is another one or continues another one behind a dot. */
  lemma NamesApartIff<T(!new)>(keys: seq<string>, t: T, prefix: string)
    ensures KeepsNamesApart<T>(keys, prefix) <==> SeparateKeys(keys)
  {
    hide Named, Separate, DistinctNames, SeparateKeys;
    if SeparateKeys(keys) {
      forall values: seq<Value<T>> | |values| == |keys| && forall i :: 0 <= i < |values| ==> Separate(values[i])
        ensures DistinctNames(Named(Dictionary(keys, values), prefix))
      {
        DictionaryIsSeparate(keys, values);
        SeparateNamesAreDistinct(Dictionary(keys, values), prefix);
      }
    } else {
      var values := CollidingFilling(keys, t, prefix);
    }
  }

  // ---- Lists ----

  predicate DotFree(s: string) {
    forall i :: 0 <= i < |s| ==> s[i] != '.'
  }

  /** A key without dots continues no other. */
  lemma DotFreeIsSeparate(a: string, b: string)
    requires a != b && DotFree(a)
    ensures !Extends(a, b)
  {
    assert (b + ".")[|b|] == '.';
  }

  /** So different keys without dots, such as keyword arguments have, are separate. */
  lemma DotFreeKeysAreSeparate(keys: seq<string>)
    requires forall i :: 0 <= i < |keys| ==> DotFree(keys[i])
    requires forall i, j :: 0 <= i < j < |keys| ==> keys[i] != keys[j]
    ensures SeparateKeys(keys)
  {
    hide Extends, DotFree;
    forall i, j | 0 <= i < |keys| && 0 <= j < |keys| && i != j ensures !Extends(keys[i], keys[j]) {
      DotFreeIsSeparate(keys[i], keys[j]);
    }
  }

  /** Dots alone do no harm: keys of one length are separate when they differ, `layer.0` and `layer.1` say. */
  lemma SameLengthKeysAreSeparate(keys: seq<string>, n: nat)
    requires forall i :: 0 <= i < |keys| ==> |keys[i]| == n
    requires forall i, j :: 0 <= i < j < |keys| ==> keys[i] != keys[j]
    ensures SeparateKeys(keys)
  {
    forall i, j | 0 <= i < |keys| && 0 <= j < |keys| && i != j ensures !Extends(keys[i], keys[j]) {
      assert |keys[j] + "."| > |keys[i]|;
    }
  }

  lemma {:induction false} DecimalIsDotFree(n: nat)
    ensures DotFree(Decimal(n))
  {
    if n >= 10 { DecimalIsDotFree(n / 10); }
  }

  /** Lists and tuples of separate values are separate: numbers do not collide. */
  lemma ListIsSeparate<T>(items: seq<Value<T>>)
    requires forall i :: 0 <= i < |items| ==> Separate(items[i])
    ensures Separate(Items(items))
  {
    hide Extends, DotFree;
    var v := Items(items);
    forall i, j | 0 <= i < |Parts(v)| && 0 <= j < |Parts(v)| && i != j ensures !Extends(Parts(v)[i].0, Parts(v)[j].0) {
      DecimalIsDotFree(i);
      assert Text.Value(Decimal(i)) == i && Text.Value(Decimal(j)) == j;
      DotFreeIsSeparate(Decimal(i), Decimal(j));
    }
  }

  /** Dots in keys can make two tensors share a name. */
  lemma DotsCollide<T>(t: T, u: T, prefix: string)
    ensures var v := Mapping([("a", Mapping([("b", Tensor(t))])), ("a.b", Tensor(u))]);
            Named(v, prefix) == [(prefix + ".a.b", t), (prefix + ".a.b", u)]
  {
    hide Extends, Separate, SortBy, SortedBy;
    var inner: Value<T> := Mapping([("b", Tensor(t))]);
    var v := Mapping([("a", inner), ("a.b", Tensor(u))]);
    PairIsSorted(inner);
    PairIsSorted(v);
    var under := prefix + "." + "a";
    assert NamedParts(inner, 0, under) == [] && NamedParts(v, 0, prefix) == [];
    assert Named(inner, under) == NamedParts(inner, 1, under) == [(under + "." + "b", t)];
    assert NamedParts(v, 1, prefix) == [(under + "." + "b", t)];
    assert Named(v, prefix) == NamedParts(v, 2, prefix) == [(under + "." + "b", t), (prefix + "." + "a.b", u)];
    assert under + "." + "b" == prefix + ".a.b" == prefix + "." + "a.b";
  }

  lemma PairIsSorted<T>(v: Value<T>)
    requires v.Mapping? && (|v.entries| == 1 || (|v.entries| == 2 && v.entries[0].0 == "a" && v.entries[1].0 == "a.b"))
    ensures Parts(v) == v.entries
  {
    assert StrLe("a", "a.b");
    PartsOfSorted(v);
  }

  lemma PartsOfSorted<T>(v: Value<T>)
    requires v.Mapping? && SortedBy(v.entries, (e: (string, Value<T>)) => EntryKey(e))
    ensures Parts(v) == v.entries
  {
    SortedIsFixed(v.entries, (e: (string, Value<T>)) => EntryKey(e));
  }

  /** Everything one call of a hook may record. */
  function CallTensors<T(==)>(args: Value<T>, kwargs: Value<T>, result: Value<T>, inputs: bool, outputs: bool)
    : seq<(string, T)>
  {
    (if inputs then Named(args, "input.args") + Named(kwargs, "input.kwargs") else [])
    + (if outputs then Named(result, "output") else [])
  }

  lemma CallTensorsAre<T>(args: Value<T>, kwargs: Value<T>, result: Value<T>, inputs: bool, outputs: bool)
    ensures CallTensors(args, kwargs, result, inputs, outputs)
            == (if inputs then Named(args, "input.args") + Named(kwargs, "input.kwargs") else [])
               + (if outputs then Named(result, "output") else [])
  {}

  /** The tensors of a call have names of their own exactly when those of each recorded part do. */
  lemma CallNamesAreDistinctIff<T>(args: Value<T>, kwargs: Value<T>, result: Value<T>, inputs: bool, outputs: bool)
    ensures DistinctNames(CallTensors(args, kwargs, result, inputs, outputs))
            <==> (inputs ==> DistinctNames(Named(args, "input.args")) && DistinctNames(Named(kwargs, "input.kwargs")))
                 && (outputs ==> DistinctNames(Named(result, "output")))
  {
    hide Named, Extends, DistinctNames;
    var a, k, o := Named(args, "input.args"), Named(kwargs, "input.kwargs"), Named(result, "output");
    NamesExtend(args, "input.args");
    NamesExtend(kwargs, "input.kwargs");
    NamesExtend(result, "output");
    forall i, j | 0 <= i < |a| && 0 <= j < |k| ensures a[i].0 != k[j].0 { PrefixesApart(a[i].0, k[j].0); }
    DistinctParts(a, k);
    var ins: seq<(string, T)> := if inputs then a + k else [];
    var outs: seq<(string, T)> := if outputs then o else [];
    forall i, j | 0 <= i < |ins| && 0 <= j < |outs| ensures ins[i].0 != outs[j].0 {
      PrefixesApart(ins[i].0, outs[j].0);
    }
    DistinctParts(ins, outs);
    NothingIsDistinct<T>();
  }

  lemma NothingIsDistinct<T>()
    ensures DistinctNames<T>([])
  {}

  lemma PrefixesApart(x: string, y: string)
    ensures Extends(x, "input.args") && Extends(y, "input.kwargs") ==> x != y
    ensures (Extends(x, "input.args") || Extends(x, "input.kwargs")) && Extends(y, "output") ==> x != y
  {
    assert Extends(x, "input.args") ==> |x| > 6 && x[0] == 'i' && x[6] == 'a';
    assert Extends(x, "input.kwargs") ==> |x| > 6 && x[0] == 'i';
    assert Extends(y, "input.kwargs") ==> |y| > 6 && y[6] == 'k';
    assert Extends(y, "output") ==> |y| > 0 && y[0] == 'o';
  }

  lemma DistinctParts<T>(a: seq<(string, T)>, b: seq<(string, T)>)
    requires forall i, j :: 0 <= i < |a| && 0 <= j < |b| ==> a[i].0 != b[j].0
    ensures DistinctNames(a + b) <==> DistinctNames(a) && DistinctNames(b)
  {
    var s := a + b;
    if DistinctNames(s) {
      forall i, j | 0 <= i < j < |a| ensures a[i].0 != a[j].0 { assert s[i] == a[i] && s[j] == a[j]; }
      forall i, j | 0 <= i < j < |b| ensures b[i].0 != b[j].0 { assert s[|a| + i] == b[i] && s[|a| + j] == b[j]; }
    }
  }

  predicate SeparateCall<T(==)>(args: seq<Value<T>>, kwargs: Value<T>, result: Value<T>) {
    (forall i :: 0 <= i < |args| ==> Separate(args[i])) && Separate(kwargs) && Separate(result)
  }

  /** Separate arguments and results suffice; positional arguments come in a tuple, so their being separate is
      enough. */
  lemma CallNamesAreDistinct<T>(args: seq<Value<T>>, kwargs: Value<T>, result: Value<T>, inputs: bool, outputs: bool)
    requires SeparateCall(args, kwargs, result)
    ensures DistinctNames(CallTensors(Items(args), kwargs, result, inputs, outputs))
  {
    hide Named, Separate, DistinctNames;
    ListIsSeparate(args);
    SeparateNamesAreDistinct(Items(args), "input.args");
    SeparateNamesAreDistinct(kwargs, "input.kwargs");
    SeparateNamesAreDistinct(result, "output");
    CallNamesAreDistinctIff(Items(args), kwargs, result, inputs, outputs);
  }
}
