/** The depth-first search that rejects cyclic registries. */
module CycleCheck {
  import opened Digraph
  import opened Artifacts

  /** The state of a search: the stack is a walk, and nodes left for good are in postorder. */
  ghost predicate Consistent(g: Graph<Artifact>, visited: set<Artifact>, active: set<Artifact>,
                             stack: seq<Artifact>, finished: seq<Artifact>) {
    && IsPostorder(g, finished)
    && NoRepeats(stack)
    && IsWalk(g, stack)
    && active == (set a | a in stack)
    && visited == (set a | a in finished) + active
    && visited <= g.Keys
    && (forall a :: a in finished ==> a !in active)
  }

  lemma EnterKeepsConsistent(g: Graph<Artifact>, visited: set<Artifact>, active: set<Artifact>,
                             stack: seq<Artifact>, finished: seq<Artifact>, node: Artifact)
    requires Consistent(g, visited, active, stack, finished)
    requires node in g && node !in visited
    requires stack != [] ==> node in g[stack[|stack| - 1]]
    ensures Consistent(g, visited + {node}, active + {node}, stack + [node], finished)
  {
    var s := stack + [node];
    forall i | 0 <= i < |s| - 1 ensures StepAt(g, s, i) {
      if i < |stack| - 1 { assert StepAt(g, stack, i); }
    }
  }

  lemma LeaveKeepsConsistent(g: Graph<Artifact>, visited: set<Artifact>, active: set<Artifact>,
                             stack: seq<Artifact>, finished: seq<Artifact>, node: Artifact)
    requires Consistent(g, visited, active, stack + [node], finished)
    requires forall p :: p in g[node] ==> p in finished
    ensures Consistent(g, visited, active - {node}, stack, finished + [node])
  {
    var s := stack + [node];
    assert s[|stack|] == node && node in active;
    assert forall i :: 0 <= i < |stack| ==> stack[i] == s[i];
    forall i | 0 <= i < |stack| - 1 ensures StepAt(g, stack, i) {
      assert StepAt(g, s, i);
    }
    assert (set a | a in stack) == active - {node};
    assert (set a | a in finished + [node]) == (set a | a in finished) + {node};
    forall i, p | 0 <= i < |finished + [node]| && p in g[(finished + [node])[i]]
      ensures p in (finished + [node])[..i]
    {
      if i < |finished| {
        assert p in finished[..i];
        assert (finished + [node])[..i] == finished[..i];
      } else {
        assert (finished + [node])[..i] == finished;
      }
    }
  }

  lemma ClosesWalk(g: Graph<Artifact>, path: seq<Artifact>, start: nat, p: Artifact)
    requires IsWalk(g, path) && start < |path| && path[start] == p && p in g[path[|path| - 1]] && Closed(g)
    ensures IsClosedWalk(g, path[start..] + [p])
  {
    var w := path[start..] + [p];
    forall i | 0 <= i < |w| - 1 ensures StepAt(g, w, i) {
      if i < |w| - 2 { assert StepAt(g, path, start + i); }
    }
  }

  class CycleSearch {
    /** The parent lists, which the search does not change. */
    ghost const g: Graph<Artifact>

    var visited: set<Artifact>
    var active: set<Artifact>
    var stack: seq<Artifact>

    ghost var finished: seq<Artifact>
    ghost var calls: nat

    ghost predicate Valid()
      reads this
    {
      Closed(g) && Consistent(g, visited, active, stack, finished) && calls == |visited|
    }

    constructor (ghost g: Graph<Artifact>)
      requires Closed(g)
      ensures Valid() && this.g == g
      ensures stack == [] && active == {} && visited == {}
    {
      this.g := g;
      visited, active, stack, finished, calls := {}, {}, [], [], 0;
    }

    method Enter(node: Artifact)
      requires Valid() && node in g && node !in visited
      requires stack != [] ==> node in g[stack[|stack| - 1]]
      modifies this
      ensures Valid() && finished == old(finished)
      ensures visited == old(visited) + {node} && active == old(active) + {node} && stack == old(stack) + [node]
    {
      hide Consistent, Closed;
      EnterKeepsConsistent(g, visited, active, stack, finished, node);
      visited, calls := visited + {node}, calls + 1;
      active := active + {node};
      stack := stack + [node];
    }

    method Leave(node: Artifact, ghost below: seq<Artifact>)
      requires Valid() && node in g && stack == below + [node]
      requires forall p :: p in g[node] ==> p in visited - active
      modifies this
      ensures Valid() && visited == old(visited) && active == old(active) - {node} && stack == below
    {
      hide Consistent, Closed;
      ParentsAreFinished(node);
      LeaveKeepsConsistent(g, visited, active, below, finished, node);
      stack := stack[..|stack| - 1];
      active := active - {node};
      finished := finished + [node];
      assert stack == below;
    }

    /** Returns the closed walk of the raised error, or the empty list. */
    method Dfs(node: Artifact) returns (cycle: seq<Artifact>)
      requires Valid() && node in g && node !in visited
      requires forall a :: a in g ==> a.parents == g[a]
      requires stack != [] ==> node in g[stack[|stack| - 1]]
      modifies this
      ensures cycle == [] ==> Valid() && old(visited) + {node} <= visited
      ensures cycle == [] ==> stack == old(stack) && active == old(active)
      ensures cycle != [] ==> IsClosedWalk(g, cycle)
      decreases g.Keys - visited
    {
      hide Valid, IsClosedWalk, IsWalk, Closed;
      ghost var below := stack;
      Opened(node);
      Enter(node);
      var ps := node.parents;
      for i := 0 to |ps|
        invariant Valid() && stack == below + [node] && active == old(active) + {node}
        invariant old(visited) + {node} <= visited
        invariant forall j :: 0 <= j < i ==> ps[j] in visited - active
      {
        var p := ps[i];
        assert p in g[node];
        Opened(p);
        ParentIsNode(node, p);
        if p !in visited {
          cycle := Dfs(p);
          if cycle != [] { return; }
        } else if p in active {
          var start := IndexOf(stack, p);
          cycle := stack[start..] + [p];
          ClosesWalk(g, stack, start, p);
          return;
        }
      }
      cycle := [];
      Leave(node, below);
    }

    lemma ParentsAreFinished(node: Artifact)
      requires Valid() && node in g && forall p :: p in g[node] ==> p in visited - active
      ensures forall p :: p in g[node] ==> p in finished
    {
      forall p | p in g[node] ensures p in finished { Opened(p); }
    }

    /** The parts of `Valid` the search branches on. */
    lemma Opened(p: Artifact)
      requires Valid()
      ensures visited <= g.Keys && IsWalk(g, stack) && Closed(g)
      ensures p in active <==> p in stack
      ensures p in visited <==> p in finished || p in active
      ensures active == (set a | a in stack)
    {}

    lemma Complete()
      requires Valid() && active == {}
      ensures IsPostorder(g, finished) && forall a :: a in visited ==> a in finished
    {}

    lemma ParentIsNode(a: Artifact, p: Artifact)
      requires Valid() && a in g && p in g[a]
      ensures p in g
    {}
  }

  /** `next(index for index, item in enumerate(stack) if item is p)` */
  method IndexOf(s: seq<Artifact>, p: Artifact) returns (k: nat)
    requires p in s
    ensures k < |s| && s[k] == p && p !in s[..k]
  {
    k := 0;
    while s[k] != p
      invariant k < |s| && p !in s[..k]
      decreases |s| - k
    {
      assert p in s[k + 1..] by {
        assert s == s[..k] + ([s[k]] + s[k + 1..]);
      }
      k := k + 1;
    }
  }

  /** `_check_cycles`: searches from every registered artifact not yet visited. */
  method CheckCycles(registry: seq<Artifact>, ghost g: Graph<Artifact>)
    returns (cycle: seq<Artifact>, ghost order: seq<Artifact>)
    requires Closed(g) && (forall a :: a in g <==> a in registry)
    requires forall a :: a in g ==> a.parents == g[a]
    ensures cycle == [] ==> IsPostorder(g, order) && Covers(g, order)
    ensures cycle != [] ==> IsClosedWalk(g, cycle)
    ensures cycle != [] <==> exists w: seq<Artifact> :: IsClosedWalk(g, w)
  {
    hide Consistent, Closed, IsWalk, IsClosedWalk, IsPostorder;
    var search := new CycleSearch(g);
    var i := 0;
    while i < |registry|
      invariant 0 <= i <= |registry|
      invariant fresh(search) && search.g == g
      invariant search.Valid() && search.stack == [] && search.active == {}
      invariant forall j :: 0 <= j < i ==> registry[j] in search.visited
    {
      var art := registry[i];
      if art !in search.visited {
        cycle := search.Dfs(art);
        if cycle != [] {
          order := [];
          return;
        }
      }
      i := i + 1;
    }
    cycle, order := [], search.finished;
    search.Complete();
    forall w: seq<Artifact> ensures !IsClosedWalk(g, w) {
      PostorderExcludesCycles(g, order, w);
    }
  }
}
