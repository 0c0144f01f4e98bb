/** Spreading cells from the artifacts that define them to everything above. */
module Propagation {
  import opened Digraph
  import opened Artifacts

  // ---- What a whole sweep does, on values ----

  datatype Held = Held(cells: map<string, Cell>, aliases: map<string, string>)

  type Holding = map<Artifact, Held>

  /** A plain method cell that came from elsewhere is not passed on; every other cell is. */
  predicate Inherited(a: Artifact, c: Cell) {
    c.kind.MethodCell? && c.kind.origin != a
  }

  function OriginAlias(a: Artifact, name: string): string {
    a.name + "_" + name
  }

  /** The cells among `names` that `a` passes on. */
  function Own(a: Artifact, cells: map<string, Cell>, names: set<string>): map<string, Cell> {
    map n | n in names && n in cells && !Inherited(a, cells[n]) :: cells[n]
  }

  function OwnAliases(a: Artifact, cells: map<string, Cell>, names: set<string>): map<string, string> {
    map n | n in names && n in cells && !Inherited(a, cells[n]) :: OriginAlias(a, n)
  }

  function Receive(h: Held, a: Artifact, cells: map<string, Cell>, names: set<string>): Held {
    Held(h.cells + Own(a, cells, names), h.aliases + OwnAliases(a, cells, names))
  }

  /** One round of the outer loop: everything above `a` receives what `a` passes on. */
  ghost function PushFrom(c: Holding, g: Graph<Artifact>, order: seq<Artifact>, a: Artifact): (r: Holding)
    requires IsPostorder(g, order) && a in order && a in c
    ensures r.Keys == c.Keys
  {
    map b | b in c :: if b in Above(g, order, a) then Receive(c[b], a, c[a].cells, c[a].cells.Keys) else c[b]
  }

  /** The outer loop, in the order of registration. */
  ghost function Sweep(c: Holding, g: Graph<Artifact>, order: seq<Artifact>, registry: seq<Artifact>): (r: Holding)
    requires IsPostorder(g, order) && forall a :: a in registry ==> a in order && a in c
    ensures r.Keys == c.Keys
  {
    if registry == [] then c
    else PushFrom(Sweep(c, g, order, registry[..|registry| - 1]), g, order, registry[|registry| - 1])
  }

  // ---- The recursive climb ----

  ghost function Reach(g: Graph<Artifact>, order: seq<Artifact>, a: Artifact): set<Artifact>
    requires IsPostorder(g, order) && a in order
  {
    {a} + Above(g, order, a)
  }

  /** `_propagate`: the climb ends because every parent is earlier in the postorder. */
  method Propagate(service: Artifact, alias: string, originAlias: string, cell: Cell,
                   ghost g: Graph<Artifact>, ghost order: seq<Artifact>)
    requires IsPostorder(g, order) && service in order
    requires forall a :: a in g ==> a.parents == g[a]
    modifies Reach(g, order, service)`cells, Reach(g, order, service)`stateMap
    ensures forall a :: a in g && a in Reach(g, order, service) ==>
              a.cells == old(a.cells)[alias := cell] && a.stateMap == old(a.stateMap)[alias := originAlias]
    decreases Pos(order, service)
  {
    hide IsPostorder, Above, AboveAny;
    service.cells := service.cells[alias := cell];
    service.stateMap := service.stateMap[alias := originAlias];
    Ready(g, order, service);
    var ps := service.parents;
    for i := 0 to |ps|
      invariant AboveSome(g, order, service, ps[..i]) <= Above(g, order, service)
      invariant service.cells == old(service.cells)[alias := cell]
      invariant service.stateMap == old(service.stateMap)[alias := originAlias]
      invariant forall a :: a in g && a in AboveSome(g, order, service, ps[..i]) ==>
                  a.cells == old(a.cells)[alias := cell] && a.stateMap == old(a.stateMap)[alias := originAlias]
      invariant forall a :: a in g && a != service && a !in AboveSome(g, order, service, ps[..i]) ==>
                  a.cells == old(a.cells) && a.stateMap == old(a.stateMap)
    {
      AboveGrows(g, order, service, i);
      Propagate(ps[i], alias, originAlias, cell, g, order);
    }
    assert ps[..|ps|] == ps;
  }

  /** The inner loop of `finalize`; the artifact's own dictionary, being iterated, is not written. */
  method Spread(a: Artifact, alias: string, cell: Cell, ghost g: Graph<Artifact>, ghost order: seq<Artifact>)
    requires IsPostorder(g, order) && a in order
    requires forall b :: b in g ==> b.parents == g[b]
    modifies Above(g, order, a)`cells, Above(g, order, a)`stateMap
    ensures a.cells == old(a.cells) && a.stateMap == old(a.stateMap)
    ensures forall b :: b in g && b in Above(g, order, a) ==>
              b.cells == old(b.cells)[alias := cell] && b.stateMap == old(b.stateMap)[alias := a.name + "_" + alias]
  {
    hide IsPostorder, Above, AboveAny;
    Ready(g, order, a);
    var ps := a.parents;
    for i := 0 to |ps|
      invariant AboveSome(g, order, a, ps[..i]) <= Above(g, order, a)
      invariant forall b :: b in g && b in AboveSome(g, order, a, ps[..i]) ==>
                  b.cells == old(b.cells)[alias := cell] &&
                  b.stateMap == old(b.stateMap)[alias := OriginAlias(a, alias)]
      invariant forall b :: b in g && b !in AboveSome(g, order, a, ps[..i]) ==>
                  b.cells == old(b.cells) && b.stateMap == old(b.stateMap)
    {
      AboveGrows(g, order, a, i);
      Propagate(ps[i], alias, OriginAlias(a, alias), cell, g, order);
    }
    assert ps[..|ps|] == ps;
  }

  /** What is above the artifacts `ps` among the parents of `a`, with `ps` themselves. */
  ghost function AboveSome(g: Graph<Artifact>, order: seq<Artifact>, a: Artifact, ps: seq<Artifact>): set<Artifact>
    requires IsPostorder(g, order) && a in order
  {
    if a in g && forall p :: p in ps ==> p in g[a] then AboveAny(g, order, a, ps) else {}
  }

  lemma Ready(g: Graph<Artifact>, order: seq<Artifact>, a: Artifact)
    requires IsPostorder(g, order) && a in order
    ensures a in g && forall p :: p in g[a] ==> p in order
    ensures a !in Above(g, order, a)
    ensures AboveSome(g, order, a, []) == {}
    ensures AboveSome(g, order, a, g[a]) == Above(g, order, a)
  {
    forall p | p in g[a] ensures p in order { SuccessorIsEarlier(g, order, a, p); }
    if a in Above(g, order, a) { AboveIsEarlier(g, order, a, a); }
  }

  lemma AboveGrows(g: Graph<Artifact>, order: seq<Artifact>, a: Artifact, i: nat)
    requires IsPostorder(g, order) && a in order && a in g && i < |g[a]|
    ensures g[a][i] in order && Pos(order, g[a][i]) < Pos(order, a)
    ensures AboveSome(g, order, a, g[a][..i + 1]) == AboveSome(g, order, a, g[a][..i]) + Reach(g, order, g[a][i])
    ensures Reach(g, order, g[a][i]) <= Above(g, order, a)
    ensures a !in Reach(g, order, g[a][i])
  {
    hide IsPostorder, Above;
    var p := g[a][i];
    assert p in g[a];
    SuccessorIsEarlier(g, order, a, p);
    var front := g[a][..i + 1];
    assert front[..i] == g[a][..i] && front[i] == p;
    forall b | b in Reach(g, order, p) ensures b in Above(g, order, a) { AboveMembers(g, order, a, b); }
    Ready(g, order, a);
  }

  // ---- The sweep ----

  ghost function HoldingOf(nodes: set<Artifact>): (h: Holding)
    ensures h.Keys == nodes
    reads nodes`cells, nodes`stateMap
  {
    map a | a in nodes :: Held(a.cells, a.stateMap)
  }

  lemma ReceiveNothing(h: Held, a: Artifact, cells: map<string, Cell>)
    ensures Receive(h, a, cells, {}) == h
  {
    assert Own(a, cells, {}) == map[] && OwnAliases(a, cells, {}) == map[];
  }

  lemma ReceiveOneMore(h: Held, a: Artifact, cells: map<string, Cell>, names: set<string>, n: string)
    requires n in cells
    ensures Inherited(a, cells[n]) ==> Receive(h, a, cells, names + {n}) == Receive(h, a, cells, names)
    ensures !Inherited(a, cells[n]) ==>
              Receive(h, a, cells, names + {n})
              == Held(Receive(h, a, cells, names).cells[n := cells[n]],
                      Receive(h, a, cells, names).aliases[n := OriginAlias(a, n)])
  {
    var before, after := Own(a, cells, names), Own(a, cells, names + {n});
    var aliases, more := OwnAliases(a, cells, names), OwnAliases(a, cells, names + {n});
    if Inherited(a, cells[n]) {
      assert after == before && more == aliases;
    } else {
      assert after == before[n := cells[n]];
      assert more == aliases[n := OriginAlias(a, n)];
      OneMoreKey(h.cells, before, n, cells[n]);
      OneMoreKey(h.aliases, aliases, n, OriginAlias(a, n));
    }
  }

  lemma OneMoreKey<V>(m: map<string, V>, d: map<string, V>, n: string, v: V)
    ensures m + d[n := v] == (m + d)[n := v]
  {}

  /** One round of the outer loop, the dictionary's names taken in any order. */
  method SpreadAll(a: Artifact, ghost g: Graph<Artifact>, ghost order: seq<Artifact>)
    requires IsPostorder(g, order) && a in order
    requires forall b :: b in g ==> b.parents == g[b]
    modifies Above(g, order, a)`cells, Above(g, order, a)`stateMap
    ensures HoldingOf(g.Keys) == PushFrom(old(HoldingOf(g.Keys)), g, order, a)
  {
    hide IsPostorder, Above, AboveAny, Receive, Inherited;
    Ready(g, order, a);
    var cells := a.cells;
    var rest := cells.Keys;
    assert cells.Keys - rest == {};
    forall b | b in g { ReceiveNothing(Held(b.cells, b.stateMap), a, cells); }
    while rest != {}
      invariant rest <= cells.Keys
      invariant a.cells == cells
      invariant forall b :: b in g && b in Above(g, order, a) ==>
                  Held(b.cells, b.stateMap) == Receive(Held(old(b.cells), old(b.stateMap)), a, cells, cells.Keys - rest)
      invariant forall b :: b in g && b !in Above(g, order, a) ==>
                  b.cells == old(b.cells) && b.stateMap == old(b.stateMap)
      decreases rest
    {
      var n :| n in rest;
      ghost var done := cells.Keys - rest;
      if !Inherited(a, cells[n]) {
        Spread(a, n, cells[n], g, order);
      }
      assert cells.Keys - (rest - {n}) == done + {n};
      forall b | b in g && b in Above(g, order, a)
        ensures Held(b.cells, b.stateMap) == Receive(Held(old(b.cells), old(b.stateMap)), a, cells, done + {n})
      {
        ReceiveOneMore(Held(old(b.cells), old(b.stateMap)), a, cells, done, n);
      }
      rest := rest - {n};
    }
    assert cells.Keys - rest == cells.Keys;
  }

  lemma AboveIsInside(g: Graph<Artifact>, order: seq<Artifact>, a: Artifact)
    requires IsPostorder(g, order) && a in order
    ensures Above(g, order, a) <= g.Keys
  {
    forall b | b in Above(g, order, a) ensures b in g { AboveIsEarlier(g, order, a, b); }
  }

  /** `finalize` after its compile. */
  method PropagateAll(registry: seq<Artifact>, ghost g: Graph<Artifact>, ghost order: seq<Artifact>)
    requires IsPostorder(g, order) && Covers(g, order) && (forall a :: a in g <==> a in registry)
    requires forall a :: a in g ==> a.parents == g[a]
    modifies g.Keys`cells, g.Keys`stateMap
    ensures HoldingOf(g.Keys) == Sweep(old(HoldingOf(g.Keys)), g, order, registry)
  {
    hide IsPostorder, Above, AboveAny, HoldingOf, PushFrom;
    assert forall a :: a in registry ==> a in order;
    for i := 0 to |registry|
      invariant HoldingOf(g.Keys) == Sweep(old(HoldingOf(g.Keys)), g, order, registry[..i])
    {
      assert registry[..i + 1][..i] == registry[..i];
      AboveIsInside(g, order, registry[i]);
      SpreadAll(registry[i], g, order);
    }
    assert registry[..|registry|] == registry;
  }
}
