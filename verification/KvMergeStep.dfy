/** `merge_fixed_budget`: the mask is cleared in place twice, then everything is gathered through it. */
module KvMergeStep {
  import opened Wrappers
  import opened Arith
  import opened KvMerge

  datatype MergeError = NegativeCount | Overlap | BadShape

  type States = seq<seq<seq<real>>>

  function RowOf(mask: array2<bool>, r: nat): (m: seq<bool>)
    requires r < mask.Length0
    reads mask
    ensures |m| == mask.Length1 && forall p :: 0 <= p < |m| ==> m[p] == mask[r, p]
  {
    seq(mask.Length1, p requires 0 <= p < mask.Length1 reads mask => mask[r, p])
  }

  /** `mask.scatter_(-1, idx, 0)` */
  method ClearAt(mask: array2<bool>, idx: seq<seq<nat>>)
    requires |idx| == mask.Length0
    requires forall r :: 0 <= r < |idx| ==> Indices(idx[r], mask.Length1)
    modifies mask
    ensures forall r, p :: 0 <= r < mask.Length0 && 0 <= p < mask.Length1 ==>
              (mask[r, p] <==> old(mask[r, p]) && p !in idx[r])
  {
    for r := 0 to mask.Length0
      invariant forall q, p :: 0 <= q < mask.Length0 && 0 <= p < mask.Length1 ==>
                  (mask[q, p] <==> old(mask[q, p]) && !(q < r && p in idx[q]))
    {
      for j := 0 to |idx[r]|
        invariant forall q, p :: 0 <= q < mask.Length0 && 0 <= p < mask.Length1 ==>
                    (mask[q, p] <==> old(mask[q, p]) && !(q < r && p in idx[q]) && !(q == r && p in idx[r][..j]))
      {
        assert idx[r][..j + 1] == idx[r][..j] + [idx[r][j]];
        mask[r, idx[r][j]] := false;
      }
      assert idx[r][..|idx[r]|] == idx[r];
    }
  }

  // ---- `nonzero` over all rows and the reshape ----

  function Tagged(r: nat, ps: seq<nat>): (s: seq<(nat, nat)>)
    ensures |s| == |ps| && forall i :: 0 <= i < |s| ==> s[i] == (r, ps[i])
  {
    seq(|ps|, i requires 0 <= i < |ps| => (r, ps[i]))
  }

  /** `nonzero(as_tuple=True)`: row by row, ascending in each row. */
  function Nonzero(rows: seq<seq<bool>>): seq<(nat, nat)> {
    if rows == [] then []
    else
      var n := |rows| - 1;
      Nonzero(rows[..n]) + Tagged(n, TruePositions(rows[n]))
  }

  /** When every row keeps `k` positions, piece `r` of the flat list cut into pieces of `k` is row `r`'s. */
  lemma {:induction false} ReshapeIsSound(rows: seq<seq<bool>>, k: nat, r: nat)
    requires forall q :: 0 <= q < |rows| ==> |TruePositions(rows[q])| == k
    requires r < |rows|
    ensures |Nonzero(rows)| == |rows| * k
    ensures 0 <= r * k <= r * k + k <= |Nonzero(rows)|
    ensures Nonzero(rows)[r * k..r * k + k] == Tagged(r, TruePositions(rows[r]))
  {
    hide TruePositions;
    NonzeroLength(rows, k);
    BlockBounds(|rows|, k, r);
    var n := |rows| - 1;
    NonzeroLength(rows[..n], k);
    var front, last := Nonzero(rows[..n]), Tagged(n, TruePositions(rows[n]));
    assert Nonzero(rows) == front + last && |front| == n * k && |last| == k;
    if r < n {
      ReshapeIsSound(rows[..n], k, r);
      assert rows[..n][r] == rows[r];
      assert (front + last)[r * k..r * k + k] == front[r * k..r * k + k];
    } else {
      assert (front + last)[|front|..] == last;
    }
  }

  lemma {:induction false} NonzeroLength(rows: seq<seq<bool>>, k: nat)
    requires forall q :: 0 <= q < |rows| ==> |TruePositions(rows[q])| == k
    ensures |Nonzero(rows)| == |rows| * k
  {
    hide TruePositions;
    if rows != [] {
      var n := |rows| - 1;
      NonzeroLength(rows[..n], k);
      assert |TruePositions(rows[n])| == k;
      OneMore(n, k);
    }
  }

  predicate InStates(states: States, at: (nat, nat)) {
    0 <= at.0 < |states| && 0 <= at.1 < |states[at.0]|
  }

  function At(states: States, at: (nat, nat)): seq<real>
    requires InStates(states, at)
  {
    states[at.0][at.1]
  }

  /** `states[unselected_indices]` on a piece of the index list */
  function Pick(states: States, at: seq<(nat, nat)>): (s: seq<Option<seq<real>>>)
    requires forall i :: 0 <= i < |at| ==> InStates(states, at[i])
    ensures |s| == |at| && forall i :: 0 <= i < |s| ==> s[i] == Some(At(states, at[i]))
  {
    seq(|at|, i requires 0 <= i < |at| => Some(At(states, at[i])))
  }

  predicate Shaped(states: States, rows: nat, n: nat, dim: nat) {
    |states| == rows && forall r :: 0 <= r < rows ==> Uniform(states[r], n, dim)
  }

  predicate Scores(s: seq<seq<real>>, rows: nat, n: nat) {
    |s| == rows && forall r :: 0 <= r < rows ==> |s[r]| == n
  }

  predicate Selections(idx: seq<seq<nat>>, rows: nat, n: nat, count: nat) {
    |idx| == rows && forall r :: 0 <= r < rows ==> |idx[r]| == count && Indices(idx[r], n)
  }

  /** The final mask is what is left of each row after both selections, `k` positions each. */
  predicate Left(mask: seq<seq<bool>>, n: nat, high: seq<seq<nat>>, low: seq<seq<nat>>, count: nat, k: nat) {
    && Selections(high, |mask|, n, count) && Selections(low, |mask|, n, count)
    && forall r :: 0 <= r < |mask| ==> mask[r] == Cleared(Rest(n, high[r]), low[r]) && |TruePositions(mask[r])| == k
  }

  /** Piece `r` picks the kept entries of row `r`, for all that the flat list mixes rows. */
  lemma PieceIsKept(states: States, mask: seq<seq<bool>>, n: nat, dim: nat, high: seq<seq<nat>>, low: seq<seq<nat>>,
                    count: nat, k: nat, r: nat)
    requires Shaped(states, |mask|, n, dim) && Left(mask, n, high, low, count, k) && r < |mask|
    ensures 0 <= r * k <= r * k + k <= |Nonzero(mask)|
    ensures var piece := Nonzero(mask)[r * k..r * k + k];
            && (forall i :: 0 <= i < |piece| ==> InStates(states, piece[i]))
            && Pick(states, piece) == Take(states[r], Kept(n, high[r], low[r]))
  {
    hide TruePositions, Cleared;
    ReshapeIsSound(mask, k, r);
    assert TruePositions(mask[r]) == Kept(n, high[r], low[r]);
  }

  /** Kept entries by the flat list, merged ones pair by pair, one after the other. */
  method Gathered(states: States, mask: seq<seq<bool>>, raw: seq<seq<real>>, high: seq<seq<nat>>, low: seq<seq<nat>>,
                  n: nat, dim: nat, count: nat, k: nat)
    returns (out: seq<seq<Option<seq<real>>>>)
    requires Shaped(states, |mask|, n, dim) && Scores(raw, |mask|, n) && Left(mask, n, high, low, count, k)
    ensures |out| == |mask|
    ensures forall r :: 0 <= r < |out| ==> out[r] == Budgeted(raw[r], high[r], low[r], states[r], dim)
  {
    hide TruePositions, Cleared, Nonzero, Blends, Kept;
    var flat := Nonzero(mask);
    out := [];
    for r := 0 to |mask|
      invariant |out| == r
      invariant forall q :: 0 <= q < r ==> out[q] == Budgeted(raw[q], high[q], low[q], states[q], dim)
    {
      PieceIsKept(states, mask, n, dim, high, low, count, k, r);
      out := out + [Pick(states, flat[r * k..r * k + k]) + Blends(raw[r], high[r], low[r], states[r])];
    }
  }

  /** `raw_score.topk(count, dim=-1).indices` */
  method PickHigh(pick: TopK, raw: seq<seq<real>>, n: nat, count: nat) returns (idx: seq<seq<nat>>)
    requires Correct(pick) && Scores(raw, |raw|, n) && count <= n
    ensures Selections(idx, |raw|, n, count)
    ensures forall r :: 0 <= r < |raw| ==> IsTopK(Fins(raw[r]), count, idx[r])
  {
    idx := [];
    for r := 0 to |raw|
      invariant |idx| == r
      invariant forall q :: 0 <= q < r ==> IsTopK(Fins(raw[q]), count, idx[q])
    {
      idx := idx + [pick(Fins(raw[r]), count)];
    }
  }

  /** `torch.where(unselected_mask, -score, -inf).topk(count, dim=-1).indices` */
  method PickLow(pick: TopK, score: seq<seq<real>>, mask: array2<bool>, ghost high: seq<seq<nat>>, n: nat, count: nat)
    returns (idx: seq<seq<nat>>)
    requires Correct(pick) && Scores(score, |score|, n) && count <= n
    requires mask.Length0 == |score| && mask.Length1 == n && Selections(high, |score|, n, count)
    requires forall r :: 0 <= r < |score| ==> RowOf(mask, r) == Rest(n, high[r])
    ensures Selections(idx, |score|, n, count)
    ensures forall r :: 0 <= r < |score| ==> IsTopK(Masked(score[r], Rest(n, high[r])), count, idx[r])
  {
    hide Rest;
    idx := [];
    for r := 0 to |score|
      invariant |idx| == r
      invariant forall q :: 0 <= q < r ==> IsTopK(Masked(score[q], Rest(n, high[q])), count, idx[q])
    {
      idx := idx + [pick(Masked(score[r], RowOf(mask, r)), count)];
    }
  }

  /** `merge_fixed_budget`; `pick` is `topk`, free to break ties as it likes. */
  method MergeFixedBudget(pick: TopK, score: seq<seq<real>>, raw: seq<seq<real>>, topk: nat, keys: States,
                          values: States,
                          rows: nat, n: nat, dim: nat)
    returns (r: Result<(seq<seq<Option<seq<real>>>>, seq<seq<Option<seq<real>>>>), MergeError>,
             ghost high: seq<seq<nat>>, ghost low: seq<seq<nat>>)
    requires Correct(pick)
    requires Scores(score, rows, n) && Scores(raw, rows, n) &&
             Shaped(keys, rows, n, dim) && Shaped(values, rows, n, dim)
    ensures r.Ok? <==> topk <= n <= 2 * topk
    ensures r.Err? ==> r.error == if topk > n then NegativeCount else if rows > 0 then Overlap else BadShape
    ensures r.Ok? ==>
              && Selections(high, rows, n, n - topk) && Selections(low, rows, n, n - topk)
              && |r.value.0| == |r.value.1| == rows
    ensures r.Ok? ==> forall q :: 0 <= q < rows ==>
              && IsTopK(Fins(raw[q]), n - topk, high[q])
              && IsTopK(Masked(score[q], Rest(n, high[q])), n - topk, low[q])
              && Apart(high[q], low[q])
              && r.value.0[q] == Budgeted(raw[q], high[q], low[q], keys[q], dim)
              && r.value.1[q] == Budgeted(raw[q], high[q], low[q], values[q], dim)
              && (SumsPreserved(raw[q], high[q], low[q], keys[q], dim, r.value.0[q])
                  <==> NoPairCancels(raw[q], high[q], low[q]))
              && (SumsPreserved(raw[q], high[q], low[q], values[q], dim, r.value.1[q])
                  <==> NoPairCancels(raw[q], high[q], low[q]))
              && (NoTwoCancel(raw[q]) ==> NoPairCancels(raw[q], high[q], low[q]))
  {
    hide IsTopK, Rest, Cleared, Budgeted, TruePositions, Shaped, Correct, SumsPreserved, NoPairCancels, NoTwoCancel,
         Mergeable;
    high, low := [], [];
    if topk > n { return Err(NegativeCount), high, low; }
    var count := n - topk;
    var mask := new bool[rows, n]((q, p) => true);
    var first := PickHigh(pick, raw, n, count);
    ClearAt(mask, first);
    forall q | 0 <= q < rows ensures RowOf(mask, q) == Rest(n, first[q]) { IsRest(RowOf(mask, q), n, first[q]); }
    var second := PickLow(pick, score, mask, first, n, count);
    high, low := first, second;
    forall q | 0 <= q < rows ensures Apart(first[q], second[q]) <==> 2 * count <= n {
      ApartIff(score[q], first[q], second[q]);
    }
    assert rows > 0 && topk < count ==> !Apart(first[0], second[0]);
    if exists q :: 0 <= q < rows && !Apart(first[q], second[q]) {
      return Err(Overlap), high, low;
    }
    if topk < count {
      return Err(BadShape), high, low;
    }
    ClearAt(mask, second);
    var left := seq(rows, q requires 0 <= q < rows reads mask => RowOf(mask, q));
    forall q | 0 <= q < rows
      ensures left[q] == Cleared(Rest(n, first[q]), second[q]) && |TruePositions(left[q])| == topk - count
    {
      IsCleared(left[q], Rest(n, first[q]), second[q]);
      KeptHighLowPartition(n, first[q], second[q]);
      KeptIs(n, first[q], second[q]);
    }
    var k := Gathered(keys, left, raw, first, second, n, dim, count, topk - count);
    var v := Gathered(values, left, raw, first, second, n, dim, count, topk - count);
    RowsPreserveSums(keys, raw, first, second, k, rows, n, dim, count);
    RowsPreserveSums(values, raw, first, second, v, rows, n, dim, count);
    return Ok((k, v)), high, low;
  }

  /** What the two selections are: the highest raw scores, then the lowest second scores of the other positions,
      each from the most extreme on. */
  lemma RowSelectionsAre(raw: seq<real>, score: seq<real>, high: seq<nat>, low: seq<nat>)
    requires |raw| == |score| && Indices(high, |raw|) && Apart(high, low)
    requires IsTopK(Fins(raw), |high|, high) && IsTopK(Masked(score, Rest(|raw|, high)), |high|, low)
    ensures forall i, j :: 0 <= i < j < |high| ==>
              && high[i] != high[j] && low[i] != low[j]
              && raw[high[i]] >= raw[high[j]] && score[low[i]] <= score[low[j]]
    ensures forall p, i :: 0 <= p < |raw| && p !in high && 0 <= i < |high| ==>
              && low[i] !in high
              && raw[high[i]] >= raw[p]
              && (p !in low ==> score[low[i]] <= score[p])
  {
    var rest := Rest(|raw|, high);
    forall i | 0 <= i < |low| ensures low[i] !in high && rest[low[i]] {}
    var m, f := Masked(score, rest), Fins(raw);
    forall i, j | 0 <= i < j < |high|
      ensures raw[high[i]] >= raw[high[j]] && score[low[i]] <= score[low[j]]
    {
      assert Le(f[high[j]], f[high[i]]) && Le(m[low[j]], m[low[i]]);
    }
    forall p, i | 0 <= p < |raw| && p !in high && 0 <= i < |high|
      ensures raw[high[i]] >= raw[p] && (p !in low ==> score[low[i]] <= score[p])
    {
      assert Le(f[p], f[high[i]]);
      assert p !in low ==> Le(m[p], m[low[i]]);
    }
  }

  /** The rows of the result: the kept ones in place order, then each pair's mean, weighted by its scores. */
  lemma RowsAre(raw: seq<real>, high: seq<nat>, low: seq<nat>, states: seq<seq<real>>, dim: nat)
    returns (kept: seq<nat>)
    requires Uniform(states, |raw|, dim) && |high| == |low| && Indices(high, |raw|) && Indices(low, |raw|)
    ensures forall i, j :: 0 <= i < j < |kept| ==> kept[i] < kept[j]
    ensures forall i :: 0 <= i < |kept| ==> kept[i] < |raw| && kept[i] !in high && kept[i] !in low
    ensures forall p :: 0 <= p < |raw| && p !in high && p !in low ==> p in kept
    ensures |Budgeted(raw, high, low, states, dim)| == |kept| + |high|
    ensures forall i :: 0 <= i < |kept| ==> Budgeted(raw, high, low, states, dim)[i] == Some(states[kept[i]])
    ensures forall j :: 0 <= j < |high| ==>
              var out, h, l := Budgeted(raw, high, low, states, dim)[|kept| + j], high[j], low[j];
              if raw[h] + raw[l] == 0.0 then out == None
              else
                && out.Some? && |out.value| == dim
                && forall c :: 0 <= c < dim ==>
                     out.value[c] == (raw[h] / (raw[h] + raw[l])) * states[h][c]
                                     + (raw[l] / (raw[h] + raw[l])) * states[l][c]
  {
    hide TruePositions, Cleared;
    kept := Kept(|raw|, high, low);
  }

  lemma RowsPreserveSums(states: States, raw: seq<seq<real>>, high: seq<seq<nat>>, low: seq<seq<nat>>,
                         out: seq<seq<Option<seq<real>>>>, rows: nat, n: nat, dim: nat, count: nat)
    requires Shaped(states, rows, n, dim) && Scores(raw, rows, n) && |out| == rows
    requires Selections(high, rows, n, count) && Selections(low, rows, n, count)
    requires forall q :: 0 <= q < rows ==> Apart(high[q], low[q])
    requires forall q :: 0 <= q < rows ==> out[q] == Budgeted(raw[q], high[q], low[q], states[q], dim)
    ensures |states| == rows
    ensures forall q :: 0 <= q < rows ==>
              && Uniform(states[q], |raw[q]|, dim)
              && (SumsPreserved(raw[q], high[q], low[q], states[q], dim, out[q])
                  <==> NoPairCancels(raw[q], high[q], low[q]))
              && (NoTwoCancel(raw[q]) ==> NoPairCancels(raw[q], high[q], low[q]))
  {
    hide SumsPreserved, NoPairCancels, NoTwoCancel, Budgeted;
    forall q | 0 <= q < rows
      ensures SumsPreserved(raw[q], high[q], low[q], states[q], dim, out[q])
              <==> NoPairCancels(raw[q], high[q], low[q])
      ensures NoTwoCancel(raw[q]) ==> NoPairCancels(raw[q], high[q], low[q])
    {
      SumsPreservedIff(raw[q], high[q], low[q], states[q], dim);
      if NoTwoCancel(raw[q]) { NoTwoMeansNoPair(raw[q], high[q], low[q]); }
    }
  }

  lemma IsRest(m: seq<bool>, n: nat, high: seq<nat>)
    requires Indices(high, n) && |m| == n && forall p :: 0 <= p < n ==> (m[p] <==> p !in high)
    ensures m == Rest(n, high)
  {}

  lemma IsCleared(m: seq<bool>, was: seq<bool>, idx: seq<nat>)
    requires Indices(idx, |was|) && |m| == |was| && forall p :: 0 <= p < |m| ==> (m[p] <==> was[p] && p !in idx)
    ensures m == Cleared(was, idx)
  {}

  lemma KeptIs(n: nat, high: seq<nat>, low: seq<nat>)
    requires Indices(high, n) && Indices(low, n)
    ensures Kept(n, high, low) == TruePositions(Cleared(Rest(n, high), low))
  {}
}
