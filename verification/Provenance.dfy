/** Which artifacts hold which cells once a sweep is over, and under which alias. */
module Provenance {
  import opened Wrappers
  import opened Digraph
  import opened Artifacts
  import opened Propagation

  ghost predicate Sweepable(c: Holding, g: Graph<Artifact>, order: seq<Artifact>, registry: seq<Artifact>) {
    IsPostorder(g, order) && (forall a :: a in c ==> a in order) && (forall a :: a in registry ==> a in order && a in c)
  }

  /** `a` is `d` or above it. */
  ghost predicate AtOrAbove(g: Graph<Artifact>, order: seq<Artifact>, a: Artifact, d: Artifact)
    requires IsPostorder(g, order) && d in order
  {
    a == d || a in Above(g, order, d)
  }

  lemma AtOrAboveIsTransitive(g: Graph<Artifact>, order: seq<Artifact>, a: Artifact, x: Artifact, d: Artifact)
    requires IsPostorder(g, order) && d in order && x in order
    requires a in Above(g, order, x) && AtOrAbove(g, order, x, d)
    ensures a in Above(g, order, d)
  {
    if x != d { AboveIsTransitive(g, order, d, x, a); }
  }

  /** `a` passes on a cell under `n` to what is above it. */
  predicate Passes(a: Artifact, h: Held, n: string) {
    n in h.cells && !Inherited(a, h.cells[n])
  }

  /** One round, name by name. */
  lemma RoundAt(c: Holding, g: Graph<Artifact>, order: seq<Artifact>, x: Artifact, a: Artifact, n: string)
    requires IsPostorder(g, order) && x in order && x in c && a in c
    ensures var r := PushFrom(c, g, order, x)[a];
            if a in Above(g, order, x) && Passes(x, c[x], n) then
              n in r.cells && r.cells[n] == c[x].cells[n] && n in r.aliases && r.aliases[n] == x.name + "_" + n
            else
              && (n in r.cells <==> n in c[a].cells) && (n in r.cells ==> r.cells[n] == c[a].cells[n])
              && (n in r.aliases <==> n in c[a].aliases) && (n in r.aliases ==> r.aliases[n] == c[a].aliases[n])
  {
    hide IsPostorder, Above;
  }

  /** Every cell held in the end was held under that name, in the beginning, by the artifact or one below. */
  lemma {:induction false} HeldCellsComeFromBelow(
      c: Holding, g: Graph<Artifact>, order: seq<Artifact>, registry: seq<Artifact>, a: Artifact, n: string)
    returns (d: Artifact)
    requires Sweepable(c, g, order, registry) && a in c && n in Sweep(c, g, order, registry)[a].cells
    ensures d in c && n in c[d].cells && c[d].cells[n] == Sweep(c, g, order, registry)[a].cells[n]
    ensures AtOrAbove(g, order, a, d)
  {
    hide IsPostorder, Above, PushFrom;
    if registry == [] {
      d := a;
    } else {
      var front, x := registry[..|registry| - 1], registry[|registry| - 1];
      var s := Sweep(c, g, order, front);
      RoundAt(s, g, order, x, a, n);
      if a in Above(g, order, x) && Passes(x, s[x], n) {
        d := HeldCellsComeFromBelow(c, g, order, front, x, n);
        AtOrAboveIsTransitive(g, order, a, x, d);
      } else {
        d := HeldCellsComeFromBelow(c, g, order, front, a, n);
      }
    }
  }

  lemma {:induction false} NamesAreKept(
      c: Holding, g: Graph<Artifact>, order: seq<Artifact>, registry: seq<Artifact>, a: Artifact, n: string)
    requires Sweepable(c, g, order, registry) && a in c && n in c[a].cells
    ensures n in Sweep(c, g, order, registry)[a].cells
  {
    hide IsPostorder, Above, PushFrom;
    if registry != [] {
      var front, x := registry[..|registry| - 1], registry[|registry| - 1];
      NamesAreKept(c, g, order, front, a, n);
      RoundAt(Sweep(c, g, order, front), g, order, x, a, n);
    }
  }

  /** A cell that arrived from below has been passed to everything above as well. */
  lemma {:induction false} ArrivedCellsGoAllTheWay(
      c: Holding, g: Graph<Artifact>, order: seq<Artifact>, registry: seq<Artifact>,
      a: Artifact, n: string, b: Artifact)
    requires Sweepable(c, g, order, registry) && a in c && b in c && b in Above(g, order, a)
    requires n in Sweep(c, g, order, registry)[a].cells
    requires n in c[a].cells ==> Sweep(c, g, order, registry)[a].cells[n] != c[a].cells[n]
    ensures n in Sweep(c, g, order, registry)[b].cells
  {
    hide IsPostorder, Above, PushFrom;
    if registry != [] {
      var front, x := registry[..|registry| - 1], registry[|registry| - 1];
      var s := Sweep(c, g, order, front);
      RoundAt(s, g, order, x, a, n);
      RoundAt(s, g, order, x, b, n);
      if a in Above(g, order, x) && Passes(x, s[x], n) {
        AtOrAboveIsTransitive(g, order, b, a, x);
      } else {
        ArrivedCellsGoAllTheWay(c, g, order, front, a, n, b);
      }
    }
  }

  /** Every ancestor of an artifact that defined a name holds some cell under that name in the end. */
  lemma {:induction false} AncestorsHoldTheName(
      c: Holding, g: Graph<Artifact>, order: seq<Artifact>, registry: seq<Artifact>,
      d: Artifact, n: string, b: Artifact)
    requires Sweepable(c, g, order, registry) && d in registry && b in c && b in Above(g, order, d)
    requires Passes(d, c[d], n)
    ensures n in Sweep(c, g, order, registry)[b].cells
  {
    hide IsPostorder, Above, PushFrom, Inherited;
    var front, x := registry[..|registry| - 1], registry[|registry| - 1];
    var s := Sweep(c, g, order, front);
    RoundAt(s, g, order, x, b, n);
    if d in front {
      AncestorsHoldTheName(c, g, order, front, d, n, b);
    } else {
      NamesAreKept(c, g, order, front, d, n);
      if !Passes(d, s[d], n) {
        ArrivedCellsGoAllTheWay(c, g, order, front, d, n, b);
      }
    }
  }

  /** `d` alone holds a cell under `n`, and it is its own. */
  ghost predicate SoleDefiner(c: Holding, d: Artifact, n: string) {
    d in c && Passes(d, c[d], n) && forall a :: a in c && n in c[a].cells ==> a == d
  }

  /** With a sole definer, exactly it and its ancestors hold the name, and all share its one cell. */
  lemma HoldersAreDefinerAndAncestors(
      c: Holding, g: Graph<Artifact>, order: seq<Artifact>, registry: seq<Artifact>,
      d: Artifact, n: string, a: Artifact)
    requires Sweepable(c, g, order, registry) && d in registry && a in c && SoleDefiner(c, d, n)
    ensures n in Sweep(c, g, order, registry)[a].cells <==> AtOrAbove(g, order, a, d)
    ensures AtOrAbove(g, order, a, d) ==> Sweep(c, g, order, registry)[a].cells[n] == c[d].cells[n]
  {
    hide IsPostorder, Above, Sweep, Inherited;
    if a == d {
      NamesAreKept(c, g, order, registry, a, n);
    } else if a in Above(g, order, d) {
      AncestorsHoldTheName(c, g, order, registry, d, n, a);
    }
    if n in Sweep(c, g, order, registry)[a].cells {
      var x := HeldCellsComeFromBelow(c, g, order, registry, a, n);
    }
  }

  // ---- Aliases ----

  /** The last registered artifact, at or above `d`, that has `a` above it. */
  ghost function LastPasser(g: Graph<Artifact>, order: seq<Artifact>, registry: seq<Artifact>, d: Artifact,
                            a: Artifact): Artifact
    requires IsPostorder(g, order) && d in order && forall x :: x in registry ==> x in order
  {
    if registry == [] then d
    else
      var x := registry[|registry| - 1];
      if AtOrAbove(g, order, x, d) && a in Above(g, order, x) then x
      else LastPasser(g, order, registry[..|registry| - 1], d, a)
  }

  /** The alias of a plain method cell names the definer; that of any other cell names the last passer, which
      need not be the definer. */
  lemma {:induction false} AliasNamesLastPasser(
      c: Holding, g: Graph<Artifact>, order: seq<Artifact>, registry: seq<Artifact>,
      d: Artifact, n: string, a: Artifact)
    requires Sweepable(c, g, order, registry) && d in registry && a in c && SoleDefiner(c, d, n)
    requires a in Above(g, order, d)
    ensures var r := Sweep(c, g, order, registry)[a];
            && n in r.aliases
            && r.aliases[n] ==
                  (if c[d].cells[n].kind.MethodCell? then d else LastPasser(g, order, registry, d, a)).name + "_" + n
  {
    hide IsPostorder, Above, PushFrom;
    var front, x := registry[..|registry| - 1], registry[|registry| - 1];
    var s := Sweep(c, g, order, front);
    RoundAt(s, g, order, x, a, n);
    if x == d {
      NamesAreKept(c, g, order, front, d, n);
      var y := HeldCellsComeFromBelow(c, g, order, front, d, n);
    } else {
      assert d in front;
      HoldersAreDefinerAndAncestors(c, g, order, front, d, n, x);
      AliasNamesLastPasser(c, g, order, front, d, n, a);
    }
  }

  lemma OriginAliasNamesArtifact(a: Artifact, b: Artifact, n: string)
    ensures OriginAlias(a, n) == OriginAlias(b, n) <==> a.name == b.name
  {
    var tail := "_" + n;
    assert OriginAlias(a, n) == a.name + tail && OriginAlias(b, n) == b.name + tail;
    if OriginAlias(a, n) == OriginAlias(b, n) {
      assert |a.name| == |b.name|;
      assert a.name == OriginAlias(a, n)[..|a.name|] && b.name == OriginAlias(b, n)[..|b.name|];
    }
  }

  /** An ancestor's alias for a state or a distributed method names its definer exactly when the last passer
      has the same class name. */
  lemma AliasNamesDefinerIff(
      c: Holding, g: Graph<Artifact>, order: seq<Artifact>, registry: seq<Artifact>,
      d: Artifact, n: string, a: Artifact)
    requires Sweepable(c, g, order, registry) && d in registry && a in c && SoleDefiner(c, d, n)
    requires a in Above(g, order, d) && !c[d].cells[n].kind.MethodCell?
    ensures var r := Sweep(c, g, order, registry)[a];
            n in r.aliases &&
            (r.aliases[n] == OriginAlias(d, n) <==> LastPasser(g, order, registry, d, a).name == d.name)
  {
    AliasNamesLastPasser(c, g, order, registry, d, n, a);
    OriginAliasNamesArtifact(LastPasser(g, order, registry, d, a), d, n);
  }

  /** The harm done, at an input: `d` is a child of `m`, `m` of `t`, all are registered in that order, and only
      `d` holds a cell under `n`, a state. Then `t` ends up with it under the alias of `m`. */
  lemma InheritedStateIsRelabelled(c: Holding, d: Artifact, m: Artifact, t: Artifact, n: string)
    requires d != m && m != t && d != t && d.name != m.name
    requires c.Keys == {d, m, t} && n !in c[m].cells && n !in c[t].cells
    requires n in c[d].cells && c[d].cells[n].kind == StateCell
    ensures var g, order, registry := map[d := [m], m := [t], t := []], [t, m, d], [d, m, t];
            && IsPostorder(g, order)
            && var r := Sweep(c, g, order, registry)[t];
               n in r.aliases && r.aliases[n] == m.name + "_" + n && r.aliases[n] != d.name + "_" + n
  {
    hide Above, AboveAny, Sweep, LastPasser;
    var g, order, registry := map[d := [m], m := [t], t := []], [t, m, d], [d, m, t];
    assert IsPostorder(g, order) by {
      assert order[..1] == [t] && order[..2] == [t, m];
    }
    assert registry[2] == t && registry[1] == m && registry[0] == d;
    assert order[0] == t && order[1] == m && order[2] == d;
    AboveInChain(g, order, d, m, t);
    LastPasserInChain(g, order, registry, d, m, t);
    AliasNamesLastPasser(c, g, order, registry, d, n, t);
    OriginAliasNamesArtifact(m, d, n);
  }

  lemma AboveInChain(g: Graph<Artifact>, order: seq<Artifact>, d: Artifact, m: Artifact, t: Artifact)
    requires IsPostorder(g, order) && d in order && m in order && t in order
    requires g[d] == [m] && g[m] == [t] && g[t] == []
    ensures t in Above(g, order, m) && m in Above(g, order, d) && t in Above(g, order, d)
    ensures t !in Above(g, order, t)
  {
    hide Above, AboveAny;
    AboveMembers(g, order, m, t);
    AboveMembers(g, order, d, m);
    AboveMembers(g, order, t, t);
    AboveIsTransitive(g, order, d, m, t);
  }

  lemma LastPasserInChain(
      g: Graph<Artifact>, order: seq<Artifact>, registry: seq<Artifact>, d: Artifact, m: Artifact, t: Artifact)
    requires IsPostorder(g, order) && d in order && m in order && t in order && registry == [d, m, t]
    requires g[d] == [m] && g[m] == [t] && g[t] == []
    ensures LastPasser(g, order, registry, d, t) == m
  {
    hide Above, AboveAny;
    AboveInChain(g, order, d, m, t);
    assert registry[..2] == [d, m];
  }

  // ---- Several definers of a method ----

  /** Whoever holds a cell under `n` at first holds a plain method of its own. */
  ghost predicate OwnMethods(c: Holding, n: string) {
    forall a :: a in c && n in c[a].cells ==> c[a].cells[n].kind == MethodCell(a)
  }

  /** Some artifact registered in `earlier` defines `n` and is below `a`. */
  ghost predicate Forestalled(
      c: Holding, g: Graph<Artifact>, order: seq<Artifact>, earlier: seq<Artifact>, a: Artifact, n: string)
    requires Sweepable(c, g, order, earlier)
  {
    exists y :: y in earlier && n in c[y].cells && a in Above(g, order, y)
  }

  /** The last registered definer below `a` that no definer below itself forestalled. */
  ghost function Winner(
      c: Holding, g: Graph<Artifact>, order: seq<Artifact>, registry: seq<Artifact>, a: Artifact, n: string)
    : Option<Artifact>
    requires Sweepable(c, g, order, registry)
  {
    if registry == [] then None
    else
      var front, x := registry[..|registry| - 1], registry[|registry| - 1];
      if n in c[x].cells && a in Above(g, order, x) && !Forestalled(c, g, order, front, x, n) then Some(x)
      else Winner(c, g, order, front, a, n)
  }

  /** `a` holds a cell it does not pass on. */
  predicate Overtaken(a: Artifact, h: Held, n: string) {
    n in h.cells && Inherited(a, h.cells[n])
  }

  /** At any time an artifact passes on its own first cell or none. */
  lemma PassesOwnOnly(
      c: Holding, g: Graph<Artifact>, order: seq<Artifact>, registry: seq<Artifact>, a: Artifact, n: string)
    requires Sweepable(c, g, order, registry) && OwnMethods(c, n) && a in c
    ensures var h := Sweep(c, g, order, registry)[a];
            Passes(a, h, n) ==> n in c[a].cells && h.cells[n] == c[a].cells[n] && h.cells[n].kind == MethodCell(a)
  {
    hide Sweep, IsPostorder, Above;
    if n in Sweep(c, g, order, registry)[a].cells {
      var d := HeldCellsComeFromBelow(c, g, order, registry, a, n);
    }
  }

  /** What an artifact receives is not its own, so being overtaken lasts. */
  lemma StaysOvertaken(
      c: Holding, g: Graph<Artifact>, order: seq<Artifact>, registry: seq<Artifact>,
      x: Artifact, b: Artifact, n: string)
    requires Sweepable(c, g, order, registry) && OwnMethods(c, n) && x in order && x in c && b in c
    ensures var s := Sweep(c, g, order, registry);
            var r := PushFrom(s, g, order, x);
            (b in Above(g, order, x) && Passes(x, s[x], n)) || Overtaken(b, s[b], n) ==> Overtaken(b, r[b], n)
  {
    hide Sweep, IsPostorder, Above, PushFrom;
    var s := Sweep(c, g, order, registry);
    RoundAt(s, g, order, x, b, n);
    PassesOwnOnly(c, g, order, registry, x, n);
    Ready(g, order, x);
  }

  /** Whoever is overtaken has everything above it overtaken, by a definer that came earlier. */
  lemma {:induction false} OvertakenAbove(
      c: Holding, g: Graph<Artifact>, order: seq<Artifact>, registry: seq<Artifact>,
      a: Artifact, n: string, b: Artifact)
    requires Sweepable(c, g, order, registry) && OwnMethods(c, n) && a in c && b in c
    requires Overtaken(a, Sweep(c, g, order, registry)[a], n)
    ensures Forestalled(c, g, order, registry, a, n)
    ensures b in Above(g, order, a) ==> Overtaken(b, Sweep(c, g, order, registry)[b], n)
  {
    hide IsPostorder, Above, PushFrom;
    if registry != [] {
      var front, x := registry[..|registry| - 1], registry[|registry| - 1];
      var s := Sweep(c, g, order, front);
      RoundAt(s, g, order, x, a, n);
      PassesOwnOnly(c, g, order, front, x, n);
      StaysOvertaken(c, g, order, front, x, b, n);
      if a in Above(g, order, x) && Passes(x, s[x], n) {
        assert x in registry;
        if b in Above(g, order, a) { AtOrAboveIsTransitive(g, order, b, a, x); }
      } else {
        OvertakenAbove(c, g, order, front, a, n, b);
        var y :| y in front && n in c[y].cells && a in Above(g, order, y);
        assert y in registry;
      }
    }
  }

  /** A definer is overtaken once a definer below it has had its turn. */
  lemma {:induction false} ForestalledIsOvertaken(
      c: Holding, g: Graph<Artifact>, order: seq<Artifact>, registry: seq<Artifact>,
      y: Artifact, n: string, a: Artifact)
    requires Sweepable(c, g, order, registry) && OwnMethods(c, n) && a in c
    requires y in registry && n in c[y].cells && a in Above(g, order, y)
    ensures Overtaken(a, Sweep(c, g, order, registry)[a], n)
  {
    hide IsPostorder, Above, PushFrom;
    var front, x := registry[..|registry| - 1], registry[|registry| - 1];
    var s := Sweep(c, g, order, front);
    StaysOvertaken(c, g, order, front, x, a, n);
    if y in front {
      ForestalledIsOvertaken(c, g, order, front, y, n, a);
    } else {
      NamesAreKept(c, g, order, front, y, n);
      if !Passes(y, s[y], n) { OvertakenAbove(c, g, order, front, y, n, a); }
    }
  }

  /** With several definers of a method, an artifact ends with the cell of the winner, or keeps its own. */
  lemma {:induction false} WinnersCellIsHeld(
      c: Holding, g: Graph<Artifact>, order: seq<Artifact>, registry: seq<Artifact>, a: Artifact, n: string)
    requires Sweepable(c, g, order, registry) && OwnMethods(c, n) && a in c
    ensures var h, w := Sweep(c, g, order, registry)[a], Winner(c, g, order, registry, a, n);
            if w.Some? then
              w.value in c && n in c[w.value].cells && n in h.cells && h.cells[n] == c[w.value].cells[n]
            else
              (n in h.cells <==> n in c[a].cells) && (n in h.cells ==> h.cells[n] == c[a].cells[n])
  {
    hide IsPostorder, Above, PushFrom;
    if registry != [] {
      var front, x := registry[..|registry| - 1], registry[|registry| - 1];
      var s := Sweep(c, g, order, front);
      RoundAt(s, g, order, x, a, n);
      WinnersCellIsHeld(c, g, order, front, a, n);
      PassesIff(c, g, order, front, x, n);
      PassesOwnOnly(c, g, order, front, x, n);
    }
  }

  lemma PassesIff(
      c: Holding, g: Graph<Artifact>, order: seq<Artifact>, registry: seq<Artifact>, x: Artifact, n: string)
    requires Sweepable(c, g, order, registry) && OwnMethods(c, n) && x in c
    ensures Passes(x, Sweep(c, g, order, registry)[x], n)
            <==> n in c[x].cells && !Forestalled(c, g, order, registry, x, n)
  {
    hide Sweep, IsPostorder, Above;
    PassesOwnOnly(c, g, order, registry, x, n);
    if n in c[x].cells {
      NamesAreKept(c, g, order, registry, x, n);
      if !Passes(x, Sweep(c, g, order, registry)[x], n) { OvertakenAbove(c, g, order, registry, x, n, x); }
      if Forestalled(c, g, order, registry, x, n) {
        var y :| y in registry && n in c[y].cells && x in Above(g, order, y);
        ForestalledIsOvertaken(c, g, order, registry, y, n, x);
      }
    }
  }
}
