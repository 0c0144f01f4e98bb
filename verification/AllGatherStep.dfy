/** The all-gather step with the tensors it overwrites in place. */
module AllGatherStep {
  import opened Permutations
  import opened Moe
  import opened EpDispatch
  import opened EpBuffers
  import opened AllGatherMoe

  /** `dist.all_gather(gathered, x)`: slot `r` of the receiving list becomes rank `r`'s tensor. */
  method AllGather<V>(gathered: seq<array<V>>, xs: seq<seq<V>>)
    requires |gathered| == |xs| && Distinct(gathered)
    requires forall r :: 0 <= r < |xs| ==> gathered[r].Length == |xs[r]|
    modifies gathered
    ensures Contents(gathered) == xs
  {
    for r := 0 to |xs|
      invariant forall q :: 0 <= q < r ==> gathered[q][..] == xs[q]
    {
      var block := xs[r];
      forall j | 0 <= j < gathered[r].Length { gathered[r][j] := block[j]; }
      assert gathered[r][..] == block;
    }
  }

  /** `dist.all_reduce(out_partial, SUM)`: on every rank each element becomes the sum over ranks. */
  method AllReduce<V>(sp: Space<V>, parts: seq<array<V>>, order: seq<nat>, n: nat)
    requires Distinct(parts) && forall r :: 0 <= r < |parts| ==> parts[r].Length == n
    requires forall i :: 0 <= i < |order| ==> order[i] < |parts|
    modifies parts
    ensures forall r :: 0 <= r < |parts| ==> parts[r][..] == AllReduced(sp, old(Contents(parts)), order, n)
  {
    hide AllReduced, Reduced;
    var total := AllReduced(sp, Contents(parts), order, n);
    for r := 0 to |parts|
      invariant forall q :: 0 <= q < r ==> parts[q][..] == total
    {
      forall g | 0 <= g < parts[r].Length { parts[r][g] := total[g]; }
      assert parts[r][..] == total;
    }
  }

  /** `step` on all ranks of the world in lockstep. */
  method Step<V(!new)>(sp: Space<V>, f: Expert<V>, gate: Gate<V>, sh: Shape, order: seq<nat>,
                 gathered: seq<array<V>>, parts: seq<array<V>>, xs: seq<seq<V>>)
    returns (ys: seq<seq<V>>)
    requires ValidInputs(sh, xs)
    requires forall i :: 0 <= i < |order| ==> order[i] < sh.world
    requires |gathered| == |parts| == sh.world && Distinct(gathered) && Distinct(parts)
    requires forall r :: 0 <= r < sh.world
               ==> gathered[r].Length == sh.tokens && parts[r].Length == sh.world * sh.tokens
    modifies gathered, parts
    ensures ys == GatherLayer(sp, f, gate, sh, order, xs)
    ensures CommutativeMonoid(sp) && ValidGate(gate, sh.topk, sh.world * sh.local)
            && IsPermutation(order) && |order| == sh.world ==>
              forall r, t :: 0 <= r < sh.world && 0 <= t < sh.tokens ==>
                ys[r][t] == Sum(sp, DenseTerms(sp, f, xs[r][t], gate(xs[r][t])))
  {
    hide AllReduced, OwnRows, Partial, Gathered, CommutativeMonoid, ValidGate, DenseTerms, IsPermutation, Sum;
    AllGather(gathered, xs);
    var x := Gathered(sh, Contents(gathered));
    for r := 0 to sh.world
      invariant forall q :: 0 <= q < r ==> parts[q][..] == Partial(sp, f, gate, sh, q, x)
    {
      var p := Partial(sp, f, gate, sh, r, x);
      forall g | 0 <= g < parts[r].Length { parts[r][g] := p[g]; }
      assert parts[r][..] == p;
    }
    assert Contents(parts) == Partials(sp, f, gate, sh, xs);
    AllReduce(sp, parts, order, sh.world * sh.tokens);
    var reduced := Contents(parts);
    ys := seq(sh.world, r requires 0 <= r < sh.world => OwnRows(sh, reduced[r], r));
    assert ys == GatherLayer(sp, f, gate, sh, order, xs);
    TokensAreDense(sp, f, gate, sh, order, xs);
  }

  lemma TokensAreDense<V(!new)>(sp: Space<V>, f: Expert<V>, gate: Gate<V>, sh: Shape, order: seq<nat>, xs: seq<seq<V>>)
    requires ValidInputs(sh, xs)
    requires forall i :: 0 <= i < |order| ==> order[i] < sh.world
    ensures CommutativeMonoid(sp) && ValidGate(gate, sh.topk, sh.world * sh.local)
            && IsPermutation(order) && |order| == sh.world ==>
              forall r, t :: 0 <= r < sh.world && 0 <= t < sh.tokens ==>
                GatherLayer(sp, f, gate, sh, order, xs)[r][t] == Sum(sp, DenseTerms(sp, f, xs[r][t], gate(xs[r][t])))
  {
    hide CommutativeMonoid, ValidGate, DenseTerms, IsPermutation, GatherLayer, Sum;
    if CommutativeMonoid(sp) && ValidGate(gate, sh.topk, sh.world * sh.local)
       && IsPermutation(order) && |order| == sh.world {
      forall r, t | 0 <= r < sh.world && 0 <= t < sh.tokens
        ensures GatherLayer(sp, f, gate, sh, order, xs)[r][t] == Sum(sp, DenseTerms(sp, f, xs[r][t], gate(xs[r][t])))
      {
        GatherLayerIsDense(sp, f, gate, sh, order, xs, r, t);
      }
    }
  }
}
