/** The expert-parallel layer over its persistent buffers: one set per rank, overwritten by every layer
    of every microbatch. The ranks of a group run in lockstep here; `Pipeline` interleaves them. */
module EpBuffers {
  import opened Moe
  import opened AllToAll
  import opened EpDispatch

  ghost predicate Distinct<T>(bufs: seq<array<T>>) {
    forall i, j :: 0 <= i < j < |bufs| ==> bufs[i] != bufs[j]
  }

  ghost predicate Apart<A, B>(a: seq<array<A>>, b: seq<array<B>>) {
    forall i, j :: 0 <= i < |a| && 0 <= j < |b| ==> a[i] as object != b[j] as object
  }

  function Contents<T>(bufs: seq<array<T>>): (c: seq<seq<T>>)
    reads bufs
    ensures |c| == |bufs|
    ensures forall i :: 0 <= i < |bufs| ==> c[i] == bufs[i][..]
  {
    seq(|bufs|, i requires 0 <= i < |bufs| reads bufs => bufs[i][..])
  }

  /** `dist.all_to_all_single(recv, send)` on every rank of a group. */
  method AllToAllSingle<T>(recv: seq<array<T>>, send: seq<seq<T>>, size: nat)
    requires |recv| == |send| && EqualSplit(send, size)
    requires Distinct(recv) && forall r :: 0 <= r < |recv| ==> recv[r].Length == |send| * size
    modifies recv
    ensures Contents(recv) == Exchange(send, size)
  {
    for r := 0 to |recv|
      invariant forall q :: 0 <= q < r ==> recv[q][..] == Exchange(send, size)[q]
    {
      var block := Received(send, size, r);
      forall j | 0 <= j < recv[r].Length { recv[r][j] := block[j]; }
      assert recv[r][..] == block;
    }
  }

  /** `torch.empty` on every rank: new buffers with arbitrary contents. */
  method Allocate<T(0)>(count: nat, size: nat) returns (bufs: seq<array<T>>)
    ensures |bufs| == count && Distinct(bufs)
    ensures forall r :: 0 <= r < count ==> bufs[r].Length == size && fresh(bufs[r])
  {
    bufs := [];
    for r := 0 to count
      invariant |bufs| == r && Distinct(bufs)
      invariant forall q :: 0 <= q < r ==> bufs[q].Length == size && fresh(bufs[q])
    {
      var buf := new T[size];
      bufs := bufs + [buf];
    }
  }

  class EpGroup<V(0)> {
    const sh: Shape
    const sendX: seq<array<V>>
    const recvX: seq<array<V>>
    const moeOut: seq<array<V>>
    const combined: seq<array<V>>
    const recvIds: seq<array<nat>>
    const recvW: seq<array<real>>

    ghost predicate Valid() {
      && sh.Valid()
      && |sendX| == |recvX| == |moeOut| == |combined| == |recvIds| == |recvW| == sh.world
      && (forall r :: 0 <= r < sh.world ==>
            && sendX[r].Length == recvX[r].Length == moeOut[r].Length == combined[r].Length == sh.slots
            && recvIds[r].Length == recvW[r].Length == sh.slots)
      && Distinct(sendX) && Distinct(recvX) && Distinct(moeOut) && Distinct(combined)
      && Distinct(recvIds) && Distinct(recvW)
      && Apart(recvX, recvIds) && Apart(recvX, recvW) && Apart(recvIds, recvW)
      && Apart(moeOut, recvX) && Apart(moeOut, recvIds) && Apart(moeOut, recvW)
    }

    /** The persistent buffers of a group, allocated once. */
    constructor (sh: Shape)
      requires sh.Valid()
      ensures Valid() && this.sh == sh
      ensures forall r :: 0 <= r < sh.world ==>
                && fresh(sendX[r]) && fresh(recvX[r]) && fresh(moeOut[r]) && fresh(combined[r])
                && fresh(recvIds[r]) && fresh(recvW[r])
    {
      var a: seq<array<V>> := Allocate(sh.world, sh.slots);
      var b: seq<array<V>> := Allocate(sh.world, sh.slots);
      var out: seq<array<V>> := Allocate(sh.world, sh.slots);
      var back: seq<array<V>> := Allocate(sh.world, sh.slots);
      var ids: seq<array<nat>> := Allocate(sh.world, sh.slots);
      var w: seq<array<real>> := Allocate(sh.world, sh.slots);
      this.sh := sh;
      sendX, recvX, moeOut, combined, recvIds, recvW := a, b, out, back, ids, w;
    }

    /** Step 1: `send_x_buf.copy_(x_in.index_select(0, permuted_token_idx))` */
    method Replicate(rs: seq<Routing>, xs: seq<seq<V>>)
      requires Valid() && ValidGroup(sh, rs, xs)
      modifies sendX
      ensures Contents(sendX) == Sends(sh, rs, xs)
    {
      for r := 0 to sh.world
        invariant forall q :: 0 <= q < r ==> sendX[q][..] == SendX(sh, rs[q], xs[q])
      {
        var rows := SendX(sh, rs[r], xs[r]);
        forall j | 0 <= j < sendX[r].Length { sendX[r][j] := rows[j]; }
        assert sendX[r][..] == rows;
      }
    }

    /** Step 3: each rank's fused kernel writes `moe_out_buf`. */
    method RunExperts(sp: Space<V>, f: Expert<V>)
      requires Valid()
      modifies moeOut
      ensures forall r :: 0 <= r < sh.world ==>
                moeOut[r][..] == Kernel(sp, f, sh, r, recvX[r][..], recvIds[r][..], recvW[r][..])
      ensures Contents(recvX) == old(Contents(recvX))
      ensures Contents(recvIds) == old(Contents(recvIds))
      ensures Contents(recvW) == old(Contents(recvW))
    {
      for r := 0 to sh.world
        invariant Contents(recvX) == old(Contents(recvX))
        invariant Contents(recvIds) == old(Contents(recvIds))
        invariant Contents(recvW) == old(Contents(recvW))
        invariant forall q :: 0 <= q < r ==>
                    moeOut[q][..] == Kernel(sp, f, sh, q, recvX[q][..], recvIds[q][..], recvW[q][..])
      {
        var out := Kernel(sp, f, sh, r, recvX[r][..], recvIds[r][..], recvW[r][..]);
        forall j | 0 <= j < moeOut[r].Length { moeOut[r][j] := out[j]; }
        assert moeOut[r][..] == out;
      }
    }

    /** `ep_layer_forward` for the whole group. What the buffers held before does not matter, and neither
        does whether the routing is balanced. */
    method LayerForward(sp: Space<V>, f: Expert<V>, rs: seq<Routing>, xs: seq<seq<V>>) returns (ys: seq<seq<V>>)
      requires Valid() && ValidGroup(sh, rs, xs)
      modifies sendX, recvX, moeOut, combined, recvIds, recvW
      ensures ys == EpLayer(sp, f, sh, rs, xs)
      ensures ValidGroup(sh, rs, ys)
    {
      hide Exchange, Kernel, SendIds, SendW, SendX, ValidRouting;
      Replicate(rs, xs);
      AllToAllSingle(recvX, Contents(sendX), sh.perDest);
      AllToAllSingle(recvIds, IdSends(sh, rs), sh.perDest);
      AllToAllSingle(recvW, WSends(sh, rs), sh.perDest);
      assert Contents(recvX) == Exchange(Sends(sh, rs, xs), sh.perDest);
      assert Contents(recvIds) == Exchange(IdSends(sh, rs), sh.perDest);
      RunExperts(sp, f);
      forall r | 0 <= r < sh.world ensures moeOut[r][..] == Outs(sp, f, sh, rs, xs)[r] {}
      assert Contents(moeOut) == Outs(sp, f, sh, rs, xs);
      AllToAllSingle(combined, Contents(moeOut), sh.perDest);
      assert Contents(combined) == Combined(sp, f, sh, rs, xs);
      var back := Contents(combined);
      ys := seq(sh.world, r requires 0 <= r < sh.world => Unpermute(sp, sh, rs[r], back[r]));
    }

    /** `stage_forward`: one set of buffers serves all layers of the stage. */
    method StageForward(sp: Space<V>, layers: seq<Expert<V>>, rs: seq<Routing>, xs: seq<seq<V>>)
      returns (ys: seq<seq<V>>)
      requires Valid() && ValidGroup(sh, rs, xs)
      modifies sendX, recvX, moeOut, combined, recvIds, recvW
      ensures ys == EpStack(sp, layers, sh, rs, xs)
      ensures AllBalanced(sh, rs) ==> ys == DenseStack(sp, layers, sh, rs, xs)
    {
      hide AllBalanced, EpLayer, DenseGroup;
      ys := xs;
      for l := 0 to |layers|
        invariant ValidGroup(sh, rs, ys)
        invariant ys == EpStack(sp, layers[..l], sh, rs, xs)
      {
        ys := LayerForward(sp, layers[l], rs, ys);
        assert layers[..l + 1][..l] == layers[..l];
      }
      assert layers[..|layers|] == layers;
      if AllBalanced(sh, rs) { StacksAgree(sp, layers, sh, rs, xs); }
    }
  }

  /** `step` of a pipeline of one stage: the same buffers serve every microbatch. */
  method SingleStage<V(0)>(sp: Space<V>, layers: seq<Expert<V>>, sh: Shape, routings: seq<seq<Routing>>,
                           inputs: seq<seq<seq<V>>>)
    returns (outputs: seq<seq<seq<V>>>)
    requires sh.Valid() && |routings| == |inputs|
    requires forall mb :: 0 <= mb < |inputs| ==> ValidGroup(sh, routings[mb], inputs[mb])
    ensures |outputs| == |inputs|
    ensures forall mb :: 0 <= mb < |inputs| ==>
              && outputs[mb] == EpStack(sp, layers, sh, routings[mb], inputs[mb])
              && (AllBalanced(sh, routings[mb]) ==>
                    outputs[mb] == DenseStack(sp, layers, sh, routings[mb], inputs[mb]))
  {
    hide AllBalanced, EpStack, DenseStack;
    var group := new EpGroup<V>(sh);
    outputs := [];
    for mb := 0 to |inputs|
      invariant |outputs| == mb
      invariant forall r :: 0 <= r < sh.world ==>
                  && fresh(group.sendX[r]) && fresh(group.recvX[r]) && fresh(group.moeOut[r])
                  && fresh(group.combined[r]) && fresh(group.recvIds[r]) && fresh(group.recvW[r])
      invariant forall m :: 0 <= m < mb ==>
                  && outputs[m] == EpStack(sp, layers, sh, routings[m], inputs[m])
                  && (AllBalanced(sh, routings[m]) ==>
                        outputs[m] == DenseStack(sp, layers, sh, routings[m], inputs[m]))
    {
      var y := group.StageForward(sp, layers, routings[mb], inputs[mb]);
      outputs := outputs + [y];
    }
  }

  /** The layers of a stage applied one after another, as the scheme computes them. */
  function EpStack<V>(sp: Space<V>, layers: seq<Expert<V>>, sh: Shape, rs: seq<Routing>, xs: seq<seq<V>>)
    : (ys: seq<seq<V>>)
    requires ValidGroup(sh, rs, xs)
    ensures ValidGroup(sh, rs, ys)
  {
    if layers == [] then xs
    else
      var n := |layers| - 1;
      EpLayer(sp, layers[n], sh, rs, EpStack(sp, layers[..n], sh, rs, xs))
  }

  /** The same with the dense layer. */
  function DenseStack<V>(sp: Space<V>, layers: seq<Expert<V>>, sh: Shape, rs: seq<Routing>, xs: seq<seq<V>>)
    : (ys: seq<seq<V>>)
    requires ValidGroup(sh, rs, xs)
    ensures ValidGroup(sh, rs, ys)
  {
    if layers == [] then xs
    else
      var n := |layers| - 1;
      DenseGroup(sp, layers[n], sh, rs, DenseStack(sp, layers[..n], sh, rs, xs))
  }

  lemma {:induction false} StacksAgree<V>(sp: Space<V>, layers: seq<Expert<V>>, sh: Shape, rs: seq<Routing>,
                                          xs: seq<seq<V>>)
    requires ValidGroup(sh, rs, xs) && AllBalanced(sh, rs)
    ensures EpStack(sp, layers, sh, rs, xs) == DenseStack(sp, layers, sh, rs, xs)
  {
    hide AllBalanced, EpLayer, DenseGroup;
    if layers != [] {
      var n := |layers| - 1;
      StacksAgree(sp, layers[..n], sh, rs, xs);
      EpLayerIsDense(sp, layers[n], sh, rs, EpStack(sp, layers[..n], sh, rs, xs));
    }
  }
}
