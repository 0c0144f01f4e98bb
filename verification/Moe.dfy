/** The dense mixture-of-experts layer every parallel scheme has to reproduce. */
module Moe {
  import opened Arith

  /** Hidden vectors with the operations the layers use; an expert is an uninterpreted function
      `(global expert id, hidden vector) -> hidden vector`. */
  datatype Space<!V> = Space(zero: V, add: (V, V) -> V, scale: (real, V) -> V)

  type Expert<!V> = (nat, V) -> V

  /** Routing of `tokens * topk` slots, flattened as `view(-1)` does: slot `t * topk + k`. */
  datatype Routing = Routing(ids: seq<nat>, weights: seq<real>)

  predicate ValidRouting(r: Routing, slots: nat, experts: nat) {
    && |r.ids| == |r.weights| == slots
    && forall i :: 0 <= i < slots ==> r.ids[i] < experts
  }

  /** `sum` along one dimension, from the left. */
  function Sum<V>(sp: Space<V>, vs: seq<V>): V {
    if vs == [] then sp.zero else sp.add(Sum(sp, vs[..|vs| - 1]), vs[|vs| - 1])
  }

  function SlotValue<V>(sp: Space<V>, f: Expert<V>, topk: nat, r: Routing, x: seq<V>, i: nat): V
    requires topk > 0 && i < |r.ids| && i < |r.weights| && i / topk < |x|
  {
    sp.scale(r.weights[i], f(r.ids[i], x[i / topk]))
  }

  /** `view(tokens, topk, H).sum(dim=1)` */
  function SumSlots<V>(sp: Space<V>, tokens: nat, topk: nat, slots: seq<V>): (y: seq<V>)
    requires |slots| == tokens * topk
    ensures |y| == tokens
  {
    seq(tokens, t requires 0 <= t < tokens =>
      BlockBounds(tokens, topk, t);
      Sum(sp, slots[t * topk..t * topk + topk]))
  }

  /** The weighted expert outputs of token `t`. */
  function DenseRow<V>(sp: Space<V>, f: Expert<V>, topk: nat, r: Routing, x: seq<V>, t: nat): (row: seq<V>)
    requires |r.ids| == |r.weights| == |x| * topk && t < |x|
    ensures |row| == topk
    ensures forall k {:trigger row[k]} :: 0 <= k < topk ==>
              && 0 <= t * topk + k < |r.ids|
              && row[k] == sp.scale(r.weights[t * topk + k], f(r.ids[t * topk + k], x[t]))
  {
    BlockBounds(|x|, topk, t);
    seq(topk, k requires 0 <= k < topk => sp.scale(r.weights[t * topk + k], f(r.ids[t * topk + k], x[t])))
  }

  /** The specification: `y[t] = sum_k w[t,k] * F_{id[t,k]}(x[t])`. */
  function Dense<V>(sp: Space<V>, f: Expert<V>, topk: nat, r: Routing, x: seq<V>): (y: seq<V>)
    requires |r.ids| == |r.weights| == |x| * topk
    ensures |y| == |x|
    ensures forall t {:trigger y[t]} :: 0 <= t < |x| ==> y[t] == Sum(sp, DenseRow(sp, f, topk, r, x, t))
  {
    seq(|x|, t requires 0 <= t < |x| => Sum(sp, DenseRow(sp, f, topk, r, x, t)))
  }

  /** Summing the per-slot values token by token is the dense layer. */
  lemma SlotsSumToDense<V>(sp: Space<V>, f: Expert<V>, topk: nat, r: Routing, x: seq<V>, slots: seq<V>)
    requires |r.ids| == |r.weights| == |slots| == |x| * topk
    requires forall i {:trigger slots[i]} :: 0 <= i < |slots| ==>
               topk > 0 && i / topk < |x| && slots[i] == SlotValue(sp, f, topk, r, x, i)
    ensures SumSlots(sp, |x|, topk, slots) == Dense(sp, f, topk, r, x)
  {
    forall t | 0 <= t < |x|
      ensures SumSlots(sp, |x|, topk, slots)[t] == Dense(sp, f, topk, r, x)[t]
    {
      BlockBounds(|x|, topk, t);
      var lhs := slots[t * topk..t * topk + topk];
      var rhs := DenseRow(sp, f, topk, r, x, t);
      forall k | 0 <= k < topk ensures lhs[k] == rhs[k] {
        InBlock(|x|, topk, t, k);
        assert lhs[k] == slots[t * topk + k];
      }
      assert lhs == rhs;
    }
  }
}
