/** Directed graphs given by the successor list of each node (in the registry: an artifact's parents). */
module Digraph {

  type Graph<N> = map<N, seq<N>>

  /** Successors of nodes are nodes. */
  ghost predicate Closed<N>(g: Graph<N>) {
    forall a, p :: a in g && p in g[a] ==> p in g
  }

  predicate StepAt<N(==)>(g: Graph<N>, w: seq<N>, i: nat)
    requires i + 1 < |w|
  {
    w[i] in g && w[i + 1] in g[w[i]]
  }

  predicate IsWalk<N(==)>(g: Graph<N>, w: seq<N>) {
    && (forall i :: 0 <= i < |w| ==> w[i] in g)
    && (forall i :: 0 <= i < |w| - 1 ==> StepAt(g, w, i))
  }

  predicate IsClosedWalk<N(==)>(g: Graph<N>, w: seq<N>) {
    IsWalk(g, w) && |w| >= 2 && w[0] == w[|w| - 1]
  }

  predicate IsPath<N(==)>(g: Graph<N>, w: seq<N>, a: N, b: N) {
    IsWalk(g, w) && |w| >= 2 && w[0] == a && w[|w| - 1] == b
  }

  ghost predicate NoRepeats<N>(s: seq<N>) {
    forall i, j :: 0 <= i < j < |s| ==> s[i] != s[j]
  }

  /** Each node comes after all of its successors, as in the order in which a DFS leaves nodes. */
  ghost predicate IsPostorder<N>(g: Graph<N>, order: seq<N>) {
    && NoRepeats(order)
    && (forall i :: 0 <= i < |order| ==> order[i] in g)
    && (forall i, p :: 0 <= i < |order| && p in g[order[i]] ==> p in order[..i])
  }

  ghost predicate Covers<N>(g: Graph<N>, order: seq<N>) {
    forall a :: a in g ==> a in order
  }

  ghost function Pos<N>(order: seq<N>, a: N): (i: nat)
    requires a in order
    ensures i < |order| && order[i] == a
  {
    var i :| 0 <= i < |order| && order[i] == a;
    i
  }

  lemma SuccessorIsEarlier<N>(g: Graph<N>, order: seq<N>, a: N, p: N)
    requires IsPostorder(g, order) && a in order && p in g[a]
    ensures p in order && Pos(order, p) < Pos(order, a)
  {
    var i := Pos(order, a);
    assert p in order[..i];
    var j :| 0 <= j < i && order[j] == p;
    assert Pos(order, p) == j;
  }

  lemma {:induction false} WalksDescend<N>(g: Graph<N>, order: seq<N>, w: seq<N>, i: nat)
    requires IsPostorder(g, order) && IsWalk(g, w) && 0 < i < |w| && w[0] in order
    ensures w[i] in order && Pos(order, w[i]) < Pos(order, w[0])
  {
    if i > 1 {
      WalksDescend(g, order, w, i - 1);
      assert StepAt(g, w, i - 1);
      SuccessorIsEarlier(g, order, w[i - 1], w[i]);
    } else {
      assert StepAt(g, w, 0);
      SuccessorIsEarlier(g, order, w[0], w[1]);
    }
  }

  /** A graph with a complete postorder has no closed walk. */
  lemma PostorderExcludesCycles<N>(g: Graph<N>, order: seq<N>, w: seq<N>)
    requires IsPostorder(g, order) && Covers(g, order)
    ensures !IsClosedWalk(g, w)
  {
    if IsClosedWalk(g, w) {
      WalksDescend(g, order, w, |w| - 1);
    }
  }

  // ---- Ancestors ----

  /** Everything reachable from `a` by at least one step. */
  ghost function Above<N>(g: Graph<N>, order: seq<N>, a: N): set<N>
    requires IsPostorder(g, order) && a in order
    decreases Pos(order, a), |g[a]| + 1
  {
    AboveAny(g, order, a, g[a])
  }

  ghost function AboveAny<N>(g: Graph<N>, order: seq<N>, a: N, ps: seq<N>): set<N>
    requires IsPostorder(g, order) && a in order
    requires forall p :: p in ps ==> p in g[a]
    decreases Pos(order, a), |ps|
  {
    if ps == [] then {}
    else
      var n := |ps| - 1;
      SuccessorIsEarlier(g, order, a, ps[n]);
      AboveAny(g, order, a, ps[..n]) + {ps[n]} + Above(g, order, ps[n])
  }

  lemma {:induction false} AboveAnyMembers<N>(g: Graph<N>, order: seq<N>, a: N, ps: seq<N>, b: N)
    requires IsPostorder(g, order) && a in order
    requires forall p :: p in ps ==> p in g[a]
    ensures forall p :: p in ps ==> p in order
    ensures b in AboveAny(g, order, a, ps) <==> exists p :: p in ps && p in order && (b == p || b in Above(g, order, p))
    decreases |ps|
  {
    if ps != [] {
      var n := |ps| - 1;
      SuccessorIsEarlier(g, order, a, ps[n]);
      AboveAnyMembers(g, order, a, ps[..n], b);
      assert ps == ps[..n] + [ps[n]];
      forall p | p in ps ensures p in order { SuccessorIsEarlier(g, order, a, p); }
      if b in AboveAny(g, order, a, ps) && !(b == ps[n] || b in Above(g, order, ps[n])) {
        var p :| p in ps[..n] && p in order && (b == p || b in Above(g, order, p));
        assert p in ps;
      }
    }
  }

  /** One step up, then any number. */
  lemma AboveMembers<N>(g: Graph<N>, order: seq<N>, a: N, b: N)
    requires IsPostorder(g, order) && a in order
    ensures forall p :: p in g[a] ==> p in order
    ensures b in Above(g, order, a) <==> exists p :: p in g[a] && p in order && (b == p || b in Above(g, order, p))
  {
    AboveAnyMembers(g, order, a, g[a], b);
  }

  lemma {:induction false} AboveIsTransitive<N>(g: Graph<N>, order: seq<N>, a: N, b: N, c: N)
    requires IsPostorder(g, order) && a in order && b in order
    requires b in Above(g, order, a) && c in Above(g, order, b)
    ensures c in Above(g, order, a)
    decreases Pos(order, a)
  {
    AboveMembers(g, order, a, b);
    AboveMembers(g, order, a, c);
    var p :| p in g[a] && p in order && (b == p || b in Above(g, order, p));
    if b != p {
      SuccessorIsEarlier(g, order, a, p);
      AboveIsTransitive(g, order, p, b, c);
    }
  }

  lemma {:induction false} AboveIsEarlier<N>(g: Graph<N>, order: seq<N>, a: N, b: N)
    requires IsPostorder(g, order) && a in order && b in Above(g, order, a)
    ensures b in order && Pos(order, b) < Pos(order, a)
    decreases Pos(order, a)
  {
    AboveMembers(g, order, a, b);
    var p :| p in g[a] && p in order && (b == p || b in Above(g, order, p));
    SuccessorIsEarlier(g, order, a, p);
    if b != p { AboveIsEarlier(g, order, p, b); }
  }

  /** `Above` is reachability by a walk, so it does not depend on the postorder it was computed with. */
  lemma AboveIffPath<N>(g: Graph<N>, order: seq<N>, a: N, b: N)
    requires IsPostorder(g, order) && Closed(g) && a in order
    ensures b in Above(g, order, a) <==> exists w: seq<N> :: IsPath(g, w, a, b)
  {
    if b in Above(g, order, a) {
      var w := PathTo(g, order, a, b);
    }
    if w: seq<N> :| IsPath(g, w, a, b) {
      PathClimbs(g, order, w);
    }
  }

  lemma {:induction false} PathTo<N>(g: Graph<N>, order: seq<N>, a: N, b: N) returns (w: seq<N>)
    requires IsPostorder(g, order) && Closed(g) && a in order && b in Above(g, order, a)
    ensures IsPath(g, w, a, b)
    decreases Pos(order, a)
  {
    AboveMembers(g, order, a, b);
    var p :| p in g[a] && p in order && (b == p || b in Above(g, order, p));
    SuccessorIsEarlier(g, order, a, p);
    if b == p {
      w := [a, b];
    } else {
      var rest := PathTo(g, order, p, b);
      w := [a] + rest;
      forall i | 0 <= i < |w| - 1 ensures StepAt(g, w, i) {
        if i > 0 { assert StepAt(g, rest, i - 1); }
      }
    }
  }

  lemma {:induction false} PathClimbs<N>(g: Graph<N>, order: seq<N>, w: seq<N>)
    requires IsPostorder(g, order) && IsWalk(g, w) && |w| >= 2 && w[0] in order
    ensures w[|w| - 1] in Above(g, order, w[0])
    decreases |w|
  {
    var rest := w[1..];
    assert StepAt(g, w, 0);
    SuccessorIsEarlier(g, order, w[0], w[1]);
    AboveMembers(g, order, w[0], w[|w| - 1]);
    if |w| > 2 {
      forall i | 0 <= i < |rest| - 1 ensures StepAt(g, rest, i) {
        assert StepAt(g, w, i + 1);
      }
      PathClimbs(g, order, rest);
    }
  }
}
