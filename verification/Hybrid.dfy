/** How the hybrid lays ranks out over pipeline stages and expert-parallel groups, and the pipeline
    under the routing it uses. */
module Hybrid {
  import opened Arith
  import opened Wrappers
  import opened Moe
  import opened EpDispatch
  import opened OracleRouting
  import opened Pipeline
  import opened PipelineSafety
  import opened PipelineProgress

  /** `rank = pp_stage * ep_size + ep_rank` over `pp * ep` ranks. */
  datatype Layout = Layout(pp: nat, ep: nat) {
    function World(): nat { pp * ep }

    function Stage(rank: nat): nat
      requires ep > 0
    {
      rank / ep
    }

    function EpRank(rank: nat): nat
      requires ep > 0
    {
      rank % ep
    }

    function PpPrev(rank: nat): Option<nat>
      requires ep > 0
    {
      if Stage(rank) > 0 then Some((Stage(rank) - 1) * ep + EpRank(rank)) else None
    }

    function PpNext(rank: nat): Option<nat>
      requires ep > 0
    {
      if Stage(rank) + 1 < pp then Some((Stage(rank) + 1) * ep + EpRank(rank)) else None
    }

    function PpGroup(epRank: nat): seq<nat> {
      seq(pp, s requires 0 <= s < pp => s * ep + epRank)
    }

    function EpGroup(stage: nat): seq<nat> {
      seq(ep, e requires 0 <= e < ep => stage * ep + e)
    }
  }

  lemma RankSplits(ly: Layout, rank: nat)
    requires ly.ep > 0 && rank < ly.World()
    ensures ly.Stage(rank) < ly.pp && ly.EpRank(rank) < ly.ep
    ensures rank == ly.Stage(rank) * ly.ep + ly.EpRank(rank)
  {
    BlockIndex(ly.pp, ly.ep, rank);
  }

  /** Both families of groups partition the ranks, and rank `s * ep + e` is the one rank that EP group
      `s` and PP group `e` share. */
  lemma GroupsPartition(ly: Layout, rank: nat, s: nat, e: nat)
    requires ly.ep > 0 && rank < ly.World() && s < ly.pp && e < ly.ep
    ensures rank in ly.EpGroup(s) <==> ly.Stage(rank) == s
    ensures rank in ly.PpGroup(e) <==> ly.EpRank(rank) == e
    ensures rank in ly.EpGroup(s) && rank in ly.PpGroup(e) <==> rank == s * ly.ep + e
  {
    RankSplits(ly, rank);
    InBlock(ly.pp, ly.ep, s, e);
    var rs, re := ly.Stage(rank), ly.EpRank(rank);
    assert ly.EpGroup(rs)[re] == rank && ly.PpGroup(re)[rs] == rank;
    forall i | 0 <= i < ly.ep ensures ly.Stage(ly.EpGroup(s)[i]) == s { InBlock(ly.pp, ly.ep, s, i); }
    forall i | 0 <= i < ly.pp ensures ly.EpRank(ly.PpGroup(e)[i]) == e { InBlock(ly.pp, ly.ep, i, e); }
  }

  /** A rank sends to the rank that receives from it: one stage on, same EP rank, same PP group. */
  lemma NeighboursAgree(ly: Layout, rank: nat)
    requires ly.ep > 0 && rank < ly.World()
    ensures ly.PpNext(rank).None? <==> ly.Stage(rank) == ly.pp - 1
    ensures ly.PpPrev(rank).None? <==> ly.Stage(rank) == 0
    ensures match ly.PpNext(rank)
            case None => true
            case Some(next) =>
              && next < ly.World()
              && ly.Stage(next) == ly.Stage(rank) + 1
              && next in ly.PpGroup(ly.EpRank(rank))
              && ly.PpPrev(next) == Some(rank)
  {
    RankSplits(ly, rank);
    if ly.Stage(rank) + 1 < ly.pp {
      InBlock(ly.pp, ly.ep, ly.Stage(rank) + 1, ly.EpRank(rank));
      var next := ly.PpNext(rank).value;
      assert ly.PpGroup(ly.EpRank(rank))[ly.Stage(next)] == next;
    }
  }

  // ---- When runs of the pipeline are dense ----

  /** In the last state every EP rank of the last stage holds the dense result of every microbatch. */
  ghost predicate EndsDense<V>(c: Config<V>, states: seq<State<V>>) {
    c.Valid() && states != [] && WellSized(c, states[|states| - 1]) && AllHoldDense(c, states[|states| - 1])
  }

  ghost predicate AllHoldDense<V>(c: Config<V>, st: State<V>)
    requires c.Valid() && WellSized(c, st)
  {
    forall e, m :: 0 <= e < c.sh.world && 0 <= m < c.batches ==> HoldsDense(c, st, e, m)
  }

  ghost predicate HoldsDense<V>(c: Config<V>, st: State<V>, e: nat, m: nat)
    requires c.Valid() && WellSized(c, st) && e < c.sh.world && m < c.batches
  {
    var done := st[c.stages - 1][e].done;
    |done| == c.batches && done[m] == DenseAct(c, |c.layers|, m)[e]
  }

  /** Balanced routing suffices (or having no layers), for any hidden vectors, experts and inputs. */
  lemma BalancedRunsAreDense<V>(c: Config<V>, states: seq<State<V>>, steps: seq<Step>)
    requires IsComplete(c, states, steps)
    requires c.layersPerStage == 0 || forall mb :: 0 <= mb < c.batches ==> AllBalanced(c.sh, c.routings[mb])
    ensures EndsDense(c, states)
  {
    hide Apply, Enabled, Init, Act, DenseAct, AllBalanced;
    forall e, m | 0 <= e < c.sh.world && 0 <= m < c.batches ensures HoldsDense(c, states[|steps|], e, m) {
      CompleteRunsFinish(c, states, steps, e, m);
      LayersAreDense(c, m);
    }
  }

  lemma LayersAreDense<V>(c: Config<V>, m: nat)
    requires c.Valid() && m < c.batches && (c.layersPerStage == 0 || AllBalanced(c.sh, c.routings[m]))
    ensures Act(c, |c.layers|, m) == DenseAct(c, |c.layers|, m)
  {
    hide EpLayer, DenseGroup, AllBalanced;
    if c.layersPerStage > 0 {
      ActIsDense(c, |c.layers|, m);
    } else {
      FirstLayerIsProduct(c, c.stages);
      assert |c.layers| == 0;
    }
  }

  /** The pipelines of a given size over one-dimensional vectors; experts and inputs are free. */
  ghost predicate Uses(c: Config<real>, sh: Shape, stages: nat, layersPerStage: nat, routings: seq<seq<Routing>>) {
    && c.Valid() && c.sp == LINE && c.sh == sh && c.stages == stages && c.layersPerStage == layersPerStage
    && c.routings == routings && c.batches == |routings|
  }

  ghost predicate AllRunsDense(sh: Shape, stages: nat, layersPerStage: nat, routings: seq<seq<Routing>>) {
    forall c: Config<real>, states: seq<State<real>>, steps: seq<Step> ::
      Uses(c, sh, stages, layersPerStage, routings) && IsComplete(c, states, steps) ==> EndsDense(c, states)
  }

  /** Experts that answer 1 to everything, and inputs of zeros. */
  function Ones(sh: Shape, stages: nat, layersPerStage: nat, routings: seq<seq<Routing>>): (c: Config<real>)
    requires sh.Valid() && stages > 0 && forall mb :: 0 <= mb < |routings| ==> ValidRoutings(sh, routings[mb])
    ensures Uses(c, sh, stages, layersPerStage, routings)
    ensures forall g :: 0 <= g < |c.layers| ==> c.layers[g] == ONE
  {
    var c := Config(LINE, sh, stages, layersPerStage, |routings|, [], routings,
                    seq(|routings|, _ => seq(sh.world, _ => seq(sh.tokens, _ => 0.0))));
    var c' := c.(layers := seq(stages * layersPerStage, _ => ONE));
    FirstLayerIsProduct(c', stages);
    c'
  }

  /** Such experts do not look at their inputs. */
  lemma DenseOfOne(topk: nat, r: Routing, x: seq<real>, y: seq<real>)
    requires |x| == |y| && |r.ids| == |r.weights| == |x| * topk
    ensures Dense(LINE, ONE, topk, r, x) == Dense(LINE, ONE, topk, r, y)
  {
    forall t | 0 <= t < |x| ensures Dense(LINE, ONE, topk, r, x)[t] == Dense(LINE, ONE, topk, r, y)[t] {
      assert DenseRow(LINE, ONE, topk, r, x, t) == DenseRow(LINE, ONE, topk, r, y, t);
    }
  }

  /** An unbalanced microbatch leaves a complete run with a wrong result. */
  lemma UnbalancedRunExists(sh: Shape, stages: nat, layersPerStage: nat, routings: seq<seq<Routing>>, m: nat)
    returns (c: Config<real>, states: seq<State<real>>, steps: seq<Step>)
    requires sh.Valid() && stages > 0 && layersPerStage > 0 && m < |routings|
    requires forall mb :: 0 <= mb < |routings| ==> ValidRoutings(sh, routings[mb])
    requires PositiveWeights(sh, routings[m]) && !AllBalanced(sh, routings[m])
    ensures Uses(c, sh, stages, layersPerStage, routings) && IsComplete(c, states, steps)
    ensures !EndsDense(c, states)
  {
    hide IsComplete, EndsDense, PositiveWeights, AllBalanced;
    c := Ones(sh, stages, layersPerStage, routings);
    states, steps := CompleteRunExists(c);
    var e := LastLayerIsWrong(c, m);
    EndsWrong(c, states, steps, e, m);
  }

  lemma EndsWrong<V>(c: Config<V>, states: seq<State<V>>, steps: seq<Step>, e: nat, m: nat)
    requires IsComplete(c, states, steps) && e < c.sh.world && m < c.batches
    requires Act(c, |c.layers|, m)[e] != DenseAct(c, |c.layers|, m)[e]
    ensures !EndsDense(c, states)
  {
    hide Apply, Enabled, Init, Act, DenseAct;
    CompleteRunsFinish(c, states, steps, e, m);
    assert !HoldsDense(c, states[|steps|], e, m);
  }

  predicate PositiveWeights(sh: Shape, rs: seq<Routing>)
    requires ValidRoutings(sh, rs)
  {
    forall r, i :: 0 <= r < sh.world && 0 <= i < sh.slots ==> rs[r].weights[i] > 0.0
  }

  lemma HasLayers<V>(c: Config<V>)
    requires c.Valid() && c.layersPerStage > 0
    ensures |c.layers| > 0
  {}

  lemma LastLayerIsWrong(c: Config<real>, m: nat) returns (e: nat)
    requires c.Valid() && m < c.batches && c.sp == LINE && c.layersPerStage > 0
    requires forall g :: 0 <= g < |c.layers| ==> c.layers[g] == ONE
    requires PositiveWeights(c.sh, c.routings[m]) && !AllBalanced(c.sh, c.routings[m])
    ensures e < c.sh.world && Act(c, |c.layers|, m)[e] != DenseAct(c, |c.layers|, m)[e]
  {
    hide EpLayer, EqualCounts, Dense;
    HasLayers(c);
    var g, rs := |c.layers| - 1, c.routings[m];
    e :| 0 <= e < c.sh.world && !EqualCounts(c.sh, rs[e].ids);
    UnbalancedLosesASlot(c.sh, rs, Act(c, g, m), e);
    DenseOfOne(c.sh.topk, rs[e], Act(c, g, m)[e], DenseAct(c, g, m)[e]);
  }

  /** Main result: whatever the interleaving, all complete runs of the pipeline are dense for all experts and
      inputs exactly when there is no layer to run or every microbatch is routed in equal splits. */
  lemma RunsAreDenseIffBalanced(sh: Shape, stages: nat, layersPerStage: nat, routings: seq<seq<Routing>>)
    requires sh.Valid() && stages > 0
    requires forall mb :: 0 <= mb < |routings| ==> ValidRoutings(sh, routings[mb]) && PositiveWeights(sh, routings[mb])
    ensures AllRunsDense(sh, stages, layersPerStage, routings)
            <==> layersPerStage == 0 || forall mb :: 0 <= mb < |routings| ==> AllBalanced(sh, routings[mb])
  {
    hide EndsDense, IsComplete, AllBalanced;
    if layersPerStage == 0 || forall mb :: 0 <= mb < |routings| ==> AllBalanced(sh, routings[mb]) {
      forall c: Config<real>, states: seq<State<real>>, steps: seq<Step>
        | Uses(c, sh, stages, layersPerStage, routings) && IsComplete(c, states, steps)
        ensures EndsDense(c, states)
      {
        BalancedRunsAreDense(c, states, steps);
      }
    } else {
      var m :| 0 <= m < |routings| && !AllBalanced(sh, routings[m]);
      var c, states, steps := UnbalancedRunExists(sh, stages, layersPerStage, routings, m);
    }
  }

  // ---- The hybrid's own routing ----

  /** The routings of the hybrid: the same oracle-uniform ones for every microbatch. */
  function OracleRoutings(sh: Shape, batches: nat): (r: seq<seq<Routing>>)
    requires sh.Valid() && sh.topk > 0
    ensures |r| == batches
    ensures forall mb :: 0 <= mb < batches ==>
              r[mb] == OracleGroup(sh) && ValidRoutings(sh, r[mb]) && PositiveWeights(sh, r[mb])
  {
    seq(batches, _ => OracleGroup(sh))
  }

  /** Main result: the hybrid as configured is dense, in all complete runs, for all experts and inputs, exactly
      when there is nothing to compute, one EP rank, or E divides the slots of a microbatch. */
  lemma HybridIsDenseIff(sh: Shape, stages: nat, layersPerStage: nat, batches: nat)
    requires sh.Valid() && sh.topk > 0 && stages > 0
    ensures AllRunsDense(sh, stages, layersPerStage, OracleRoutings(sh, batches))
            <==> layersPerStage == 0 || batches == 0
                 || sh.world == 1 || sh.slots % (sh.world * sh.local) == 0
  {
    var rs := OracleRoutings(sh, batches);
    RunsAreDenseIffBalanced(sh, stages, layersPerStage, rs);
    OracleBalancedIff(sh);
    assert batches > 0 ==> rs[0] == OracleGroup(sh);
  }

  /** Over any hidden vectors those sizes suffice. */
  lemma HybridIsDense<V>(c: Config<V>, states: seq<State<V>>, steps: seq<Step>)
    requires IsComplete(c, states, steps) && c.sh.topk > 0 && c.routings == OracleRoutings(c.sh, c.batches)
    requires c.sh.world == 1 || c.sh.slots % (c.sh.world * c.sh.local) == 0
    ensures EndsDense(c, states)
  {
    OracleBalancedIff(c.sh);
    BalancedRunsAreDense(c, states, steps);
  }

  /** Sizes the hybrid accepts (2 EP ranks, 4 experts, 1 token, 2 choices, any pipeline) with a complete run
      that ends in a wrong result. */
  lemma HybridAcceptsWrongRuns(stages: nat, layersPerStage: nat, batches: nat)
    returns (c: Config<real>, states: seq<State<real>>, steps: seq<Step>)
    requires stages > 0 && layersPerStage > 0 && batches > 0
    ensures MakeShape(2, 4, 1, 2) == Some(c.sh) && c.routings == OracleRoutings(c.sh, batches)
    ensures c.stages == stages && c.layersPerStage == layersPerStage && c.batches == batches
    ensures IsComplete(c, states, steps) && !EndsDense(c, states)
  {
    hide EndsDense, IsComplete;
    var sh := Shape(2, 2, 1, 2, 2, 1);
    HybridCheckIsTooWeak();
    c, states, steps := UnbalancedRunExists(sh, stages, layersPerStage, OracleRoutings(sh, batches), 0);
  }

  /** With one EP rank any routing is balanced. */
  lemma OneRankIsDense<V>(c: Config<V>, states: seq<State<V>>, steps: seq<Step>)
    requires IsComplete(c, states, steps) && c.sh.world == 1
    ensures EndsDense(c, states)
  {
    forall mb | 0 <= mb < c.batches ensures AllBalanced(c.sh, c.routings[mb]) {
      OneRankIsBalanced(c.sh, c.routings[mb]);
    }
    BalancedRunsAreDense(c, states, steps);
  }
}
