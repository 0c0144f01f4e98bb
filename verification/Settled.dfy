/** What a sweep settles on, whatever kinds of cells were defined where: whose cell each artifact ends with, and
    that sweeping again changes nothing. */
module Settled {
  import opened Wrappers
  import opened Digraph
  import opened Artifacts
  import opened Propagation
  import opened Provenance

  predicate SameAt(h: Held, k: Held, n: string) {
    && (n in h.cells <==> n in k.cells) && (n in h.cells ==> h.cells[n] == k.cells[n])
    && (n in h.aliases <==> n in k.aliases) && (n in h.aliases ==> h.aliases[n] == k.aliases[n])
  }

  /** `x` is below `a` and passes on what it holds. */
  ghost predicate Gives(h: Holding, g: Graph<Artifact>, order: seq<Artifact>, x: Artifact, a: Artifact, n: string)
    requires IsPostorder(g, order) && x in order && x in h
  {
    a in Above(g, order, x) && Passes(x, h[x], n)
  }

  /** The last registered artifact that gives to `a`, judged by one holding. */
  ghost function LastGiver(
      h: Holding, g: Graph<Artifact>, order: seq<Artifact>, registry: seq<Artifact>, a: Artifact, n: string): (w: int)
    requires Sweepable(h, g, order, registry)
    ensures -1 <= w < |registry|
    ensures w >= 0 ==> Gives(h, g, order, registry[w], a, n)
    ensures forall i :: w < i < |registry| ==> !Gives(h, g, order, registry[i], a, n)
  {
    if registry == [] then -1
    else if Gives(h, g, order, registry[|registry| - 1], a, n) then |registry| - 1
    else LastGiver(h, g, order, registry[..|registry| - 1], a, n)
  }

  // ---- The course of a sweep ----

  /** In its turn, the artifact registered at `i` gives to `a`. */
  ghost predicate GivesAt(
      c: Holding, g: Graph<Artifact>, order: seq<Artifact>, registry: seq<Artifact>, i: nat, a: Artifact, n: string)
    requires Sweepable(c, g, order, registry) && i < |registry|
  {
    Gives(Sweep(c, g, order, registry[..i]), g, order, registry[i], a, n)
  }

  ghost predicate NoneFrom(
      c: Holding, g: Graph<Artifact>, order: seq<Artifact>, registry: seq<Artifact>, k: nat, a: Artifact, n: string)
    requires Sweepable(c, g, order, registry)
  {
    forall i :: k <= i < |registry| ==> !GivesAt(c, g, order, registry, i, a, n)
  }

  /** When nobody gives to `a` any more, what it holds stays. */
  lemma {:induction false} Quiet(
      c: Holding, g: Graph<Artifact>, order: seq<Artifact>, registry: seq<Artifact>, k: nat, a: Artifact, n: string)
    requires Sweepable(c, g, order, registry) && k <= |registry| && a in c
    requires NoneFrom(c, g, order, registry, k, a, n)
    ensures SameAt(Sweep(c, g, order, registry)[a], Sweep(c, g, order, registry[..k])[a], n)
    decreases |registry|
  {
    hide IsPostorder, Above, PushFrom;
    if k == |registry| {
      assert registry[..k] == registry;
    } else {
      var last := |registry| - 1;
      var front, x := registry[..last], registry[last];
      assert forall i :: 0 <= i <= last ==> front[..i] == registry[..i];
      forall i | k <= i < |front| ensures !GivesAt(c, g, order, front, i, a, n) {
        assert !GivesAt(c, g, order, registry, i, a, n);
      }
      Quiet(c, g, order, front, k, a, n);
      assert !GivesAt(c, g, order, registry, last, a, n);
      RoundAt(Sweep(c, g, order, front), g, order, x, a, n);
    }
  }

  /** If nobody gives to `a` after the turn of `x` below it, then nobody gives to `x` from its turn on. */
  lemma QuietBelow(
      c: Holding, g: Graph<Artifact>, order: seq<Artifact>, registry: seq<Artifact>, i: nat, a: Artifact, n: string)
    requires Sweepable(c, g, order, registry) && i < |registry| && a in Above(g, order, registry[i])
    requires NoneFrom(c, g, order, registry, i + 1, a, n)
    ensures SameAt(Sweep(c, g, order, registry)[registry[i]], Sweep(c, g, order, registry[..i])[registry[i]], n)
  {
    hide IsPostorder, Above, Sweep;
    var x := registry[i];
    forall j | i <= j < |registry| ensures !GivesAt(c, g, order, registry, j, x, n) {
      assert i < j ==> !GivesAt(c, g, order, registry, j, a, n);
      Ready(g, order, x);
      if x in Above(g, order, registry[j]) { AtOrAboveIsTransitive(g, order, a, x, registry[j]); }
    }
    Quiet(c, g, order, registry, i, x, n);
  }

  /** The last turn in which somebody gives to `a`. */
  lemma {:induction false} LastTurn(
      c: Holding, g: Graph<Artifact>, order: seq<Artifact>, registry: seq<Artifact>, k: nat, a: Artifact, n: string)
    returns (w: int)
    requires Sweepable(c, g, order, registry) && k <= |registry| && NoneFrom(c, g, order, registry, k, a, n)
    ensures -1 <= w < |registry| && NoneFrom(c, g, order, registry, w + 1, a, n)
    ensures w >= 0 ==> GivesAt(c, g, order, registry, w, a, n)
  {
    hide GivesAt;
    if k == 0 {
      w := -1;
    } else if GivesAt(c, g, order, registry, k - 1, a, n) {
      w := k - 1;
    } else {
      w := LastTurn(c, g, order, registry, k - 1, a, n);
    }
  }

  /** Main result: in the end an artifact holds, under the same name, what the last registered artifact that
      gives to it in the end holds, and by the alias of that one; if none gives, it has what it had. */
  lemma SweepSettles(
      c: Holding, g: Graph<Artifact>, order: seq<Artifact>, registry: seq<Artifact>, a: Artifact, n: string)
    requires Sweepable(c, g, order, registry) && a in c
    ensures Sweepable(Sweep(c, g, order, registry), g, order, registry)
    ensures var h := Sweep(c, g, order, registry);
            var w := LastGiver(h, g, order, registry, a, n);
            if w < 0 then SameAt(h[a], c[a], n)
            else
              var x := registry[w];
              && n in h[a].cells && h[a].cells[n] == h[x].cells[n]
              && n in h[a].aliases && h[a].aliases[n] == OriginAlias(x, n)
  {
    hide IsPostorder, Above, PushFrom, Sweep;
    var h := Sweep(c, g, order, registry);
    var w := LastTurn(c, g, order, registry, |registry|, a, n);
    LastTurnIsLastGiver(c, g, order, registry, a, n, w);
    if w < 0 {
      Quiet(c, g, order, registry, 0, a, n);
      NoRounds(c, g, order, registry);
    } else {
      var x, s := registry[w], Sweep(c, g, order, registry[..w]);
      QuietBelow(c, g, order, registry, w, a, n);
      Quiet(c, g, order, registry, w + 1, a, n);
      OneRound(c, g, order, registry, w);
      RoundAt(s, g, order, x, a, n);
    }
  }

  lemma NoRounds(c: Holding, g: Graph<Artifact>, order: seq<Artifact>, registry: seq<Artifact>)
    requires Sweepable(c, g, order, registry)
    ensures Sweep(c, g, order, registry[..0]) == c
  {}

  lemma OneRound(c: Holding, g: Graph<Artifact>, order: seq<Artifact>, registry: seq<Artifact>, w: nat)
    requires Sweepable(c, g, order, registry) && w < |registry|
    ensures Sweep(c, g, order, registry[..w + 1]) == PushFrom(Sweep(c, g, order, registry[..w]), g, order, registry[w])
  {
    hide IsPostorder, PushFrom;
    assert registry[..w + 1][..w] == registry[..w];
  }

  /** Who gave last can be told from the final holding alone. */
  lemma LastTurnIsLastGiver(
      c: Holding, g: Graph<Artifact>, order: seq<Artifact>, registry: seq<Artifact>, a: Artifact, n: string, w: int)
    requires Sweepable(c, g, order, registry) && a in c && -1 <= w < |registry|
    requires NoneFrom(c, g, order, registry, w + 1, a, n) && (w >= 0 ==> GivesAt(c, g, order, registry, w, a, n))
    ensures Sweepable(Sweep(c, g, order, registry), g, order, registry)
    ensures w == LastGiver(Sweep(c, g, order, registry), g, order, registry, a, n)
  {
    hide IsPostorder, Above, Sweep;
    var h := Sweep(c, g, order, registry);
    if w >= 0 {
      QuietBelow(c, g, order, registry, w, a, n);
      assert Gives(h, g, order, registry[w], a, n);
    }
    forall i | w < i < |registry| ensures !Gives(h, g, order, registry[i], a, n) {
      if a in Above(g, order, registry[i]) {
        QuietBelow(c, g, order, registry, i, a, n);
        assert !GivesAt(c, g, order, registry, i, a, n);
      }
    }
  }

  // ---- Sweeping again ----

  lemma {:induction false} SecondSweepAt(
      c: Holding, g: Graph<Artifact>, order: seq<Artifact>, registry: seq<Artifact>, a: Artifact, n: string)
    requires Sweepable(c, g, order, registry) && a in c
    ensures Sweepable(Sweep(c, g, order, registry), g, order, registry)
    ensures var h := Sweep(c, g, order, registry); SameAt(Sweep(h, g, order, registry)[a], h[a], n)
    decreases |order| - Pos(order, a)
  {
    hide IsPostorder, Above, Sweep;
    SweepSettles(c, g, order, registry, a, n);
    var h := Sweep(c, g, order, registry);
    SweepSettles(h, g, order, registry, a, n);
    var k := Sweep(h, g, order, registry);
    forall i | 0 <= i < |registry| && a in Above(g, order, registry[i])
      ensures SameAt(k[registry[i]], h[registry[i]], n)
    {
      AboveIsEarlier(g, order, registry[i], a);
      SecondSweepAt(c, g, order, registry, registry[i], n);
    }
    assert forall i :: 0 <= i < |registry| ==>
             (Gives(k, g, order, registry[i], a, n) <==> Gives(h, g, order, registry[i], a, n));
    assert LastGiver(k, g, order, registry, a, n) == LastGiver(h, g, order, registry, a, n);
  }

  /** Which postorder a reachability set was computed with does not matter. */
  lemma AboveIgnoresOrder(g: Graph<Artifact>, order: seq<Artifact>, other: seq<Artifact>, a: Artifact)
    requires IsPostorder(g, order) && IsPostorder(g, other) && Closed(g) && a in order && a in other
    ensures Above(g, order, a) == Above(g, other, a)
  {
    forall b | b in Above(g, order, a) ensures b in Above(g, other, a) {
      AboveIffPath(g, order, a, b);
      AboveIffPath(g, other, a, b);
    }
    forall b | b in Above(g, other, a) ensures b in Above(g, order, a) {
      AboveIffPath(g, order, a, b);
      AboveIffPath(g, other, a, b);
    }
  }

  lemma {:induction false} SweepIgnoresOrder(
      c: Holding, g: Graph<Artifact>, order: seq<Artifact>, other: seq<Artifact>, registry: seq<Artifact>)
    requires Sweepable(c, g, order, registry) && Sweepable(c, g, other, registry) && Closed(g)
    ensures Sweep(c, g, order, registry) == Sweep(c, g, other, registry)
  {
    hide IsPostorder, Above;
    if registry != [] {
      SweepIgnoresOrder(c, g, order, other, registry[..|registry| - 1]);
      AboveIgnoresOrder(g, order, other, registry[|registry| - 1]);
    }
  }

  /** Main result: finalizing again, with whatever postorder the second cycle check finds, changes no cell and no
      alias. */
  lemma SecondSweepChangesNothing(
      c: Holding, g: Graph<Artifact>, order: seq<Artifact>, other: seq<Artifact>, registry: seq<Artifact>)
    requires Sweepable(c, g, order, registry) && Sweepable(c, g, other, registry) && Closed(g)
    ensures var h := Sweep(c, g, order, registry); Sweepable(h, g, other, registry) && Sweep(h, g, other, registry) == h
  {
    hide IsPostorder, Above, Sweep;
    var h := Sweep(c, g, order, registry);
    SweepIgnoresOrder(h, g, order, other, registry);
    var k := Sweep(h, g, order, registry);
    forall a | a in c ensures k[a] == h[a] {
      forall n: string ensures SameAt(k[a], h[a], n) { SecondSweepAt(c, g, order, registry, a, n); }
      SameEverywhere(k[a], h[a]);
    }
  }

  lemma SameEverywhere(h: Held, k: Held)
    requires forall n: string :: SameAt(h, k, n)
    ensures h == k
  {
    forall n | n in h.cells || n in k.cells ensures n in h.cells && n in k.cells && h.cells[n] == k.cells[n] {
      assert SameAt(h, k, n);
    }
    forall n | n in h.aliases || n in k.aliases
      ensures n in h.aliases && n in k.aliases && h.aliases[n] == k.aliases[n]
    {
      assert SameAt(h, k, n);
    }
    assert h.cells == k.cells && h.aliases == k.aliases;
  }

  // ---- Whose cell ----

  /** The artifact whose first cell under `n` ends up at `a`, by the graph, the registration order and the kinds of
      the cells defined; `k` counts the registered artifacts considered. */
  ghost function Source(
      c: Holding, g: Graph<Artifact>, order: seq<Artifact>, registry: seq<Artifact>, k: nat, a: Artifact, n: string)
    : (s: Option<Artifact>)
    requires Sweepable(c, g, order, registry) && a in c && k <= |registry|
    ensures s.Some? ==> s.value in c && n in c[s.value].cells
    decreases |order| - Pos(order, a), k
  {
    if k == 0 then if n in c[a].cells then Some(a) else None
    else if a in Above(g, order, registry[k - 1]) then
      AboveIsEarlier(g, order, registry[k - 1], a);
      var x := registry[k - 1];
      var s := Source(c, g, order, registry, |registry|, x, n);
      if s.Some? && !Inherited(x, c[s.value].cells[n]) then s else Source(c, g, order, registry, k - 1, a, n)
    else Source(c, g, order, registry, k - 1, a, n)
  }

  /** `a` holds what `s` held at first. */
  predicate HoldsFirstCellOf(h: Held, c: Holding, s: Option<Artifact>, n: string)
    requires s.Some? ==> s.value in c && n in c[s.value].cells
  {
    (n in h.cells <==> s.Some?) && (s.Some? ==> h.cells[n] == c[s.value].cells[n])
  }

  /** Main result: for any mixture of definers every artifact ends with the first cell of its source. */
  lemma {:induction false} SourcesCellIsHeld(
      c: Holding, g: Graph<Artifact>, order: seq<Artifact>, registry: seq<Artifact>, a: Artifact, n: string)
    requires Sweepable(c, g, order, registry) && a in c
    ensures HoldsFirstCellOf(Sweep(c, g, order, registry)[a], c, Source(c, g, order, registry, |registry|, a, n), n)
    decreases |order| - Pos(order, a), |registry| + 1
  {
    hide IsPostorder, Above, Sweep, Source;
    SweepSettles(c, g, order, registry, a, n);
    SourceUpTo(c, g, order, registry, |registry|, a, n);
    assert registry[..|registry|] == registry;
  }

  lemma {:induction false} SourceUpTo(
      c: Holding, g: Graph<Artifact>, order: seq<Artifact>, registry: seq<Artifact>, k: nat, a: Artifact, n: string)
    requires Sweepable(c, g, order, registry) && a in c && k <= |registry|
    requires Sweepable(Sweep(c, g, order, registry), g, order, registry)
    ensures var h := Sweep(c, g, order, registry);
            var w := LastGiver(h, g, order, registry[..k], a, n);
            var s := Source(c, g, order, registry, k, a, n);
            if w < 0 then s == (if n in c[a].cells then Some(a) else None)
            else HoldsFirstCellOf(h[registry[w]], c, s, n)
    decreases |order| - Pos(order, a), k
  {
    hide IsPostorder, Above, Sweep;
    if k > 0 {
      var h, x := Sweep(c, g, order, registry), registry[k - 1];
      assert registry[..k][..k - 1] == registry[..k - 1];
      SourceUpTo(c, g, order, registry, k - 1, a, n);
      if a in Above(g, order, x) {
        AboveIsEarlier(g, order, x, a);
        SourcesCellIsHeld(c, g, order, registry, x, n);
      }
    }
  }
}
