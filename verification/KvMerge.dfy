/** Merging a key/value cache down to a fixed budget. Rows are (batch, head) pairs. */
module KvMerge {
  import opened Wrappers

  // ---- topk ----

  datatype Ext = NegInf | Fin(v: real)

  predicate Le(a: Ext, b: Ext) {
    a.NegInf? || (b.Fin? && a.v <= b.v)
  }

  predicate Indices(idx: seq<nat>, n: nat) {
    && (forall i :: 0 <= i < |idx| ==> idx[i] < n)
    && (forall i, j :: 0 <= i < j < |idx| ==> idx[i] != idx[j])
  }

  /** What `topk` promises; which of several equal values it takes is left open. */
  predicate IsTopK(s: seq<Ext>, k: nat, idx: seq<nat>) {
    && |idx| == k && Indices(idx, |s|)
    && (forall i, j :: 0 <= i < j < k ==> Le(s[idx[j]], s[idx[i]]))
    && (forall p, i :: 0 <= p < |s| && p !in idx && 0 <= i < k ==> Le(s[p], s[idx[i]]))
  }

  type TopK = (seq<Ext>, nat) -> seq<nat>

  ghost predicate Correct(pick: TopK) {
    forall s, k: nat :: k <= |s| ==> IsTopK(s, k, pick(s, k))
  }

  function Fins(s: seq<real>): (r: seq<Ext>)
    ensures |r| == |s| && forall i :: 0 <= i < |s| ==> r[i] == Fin(s[i])
  {
    seq(|s|, i requires 0 <= i < |s| => Fin(s[i]))
  }

  /** `torch.where(unselected_mask, -score, -inf)` */
  function Masked(score: seq<real>, mask: seq<bool>): (r: seq<Ext>)
    requires |score| == |mask|
    ensures |r| == |score| && forall i :: 0 <= i < |r| ==> r[i] == if mask[i] then Fin(-score[i]) else NegInf
  {
    seq(|score|, i requires 0 <= i < |score| => if mask[i] then Fin(-score[i]) else NegInf)
  }

  // ---- Masks ----

  function Ones(n: nat): (m: seq<bool>)
    ensures |m| == n && forall i :: 0 <= i < n ==> m[i]
  {
    seq(n, i => true)
  }

  /** `scatter_(-1, idx, 0)` on one row */
  function Cleared(m: seq<bool>, idx: seq<nat>): (r: seq<bool>)
    requires forall i :: 0 <= i < |idx| ==> idx[i] < |m|
    ensures |r| == |m|
    ensures forall p :: 0 <= p < |m| ==> (r[p] <==> m[p] && p !in idx)
    decreases |idx|
  {
    if idx == [] then m else Cleared(m[idx[0] := false], idx[1..])
  }

  /** The positions `nonzero` reports, ascending. */
  function TruePositions(m: seq<bool>): (r: seq<nat>)
    ensures forall i :: 0 <= i < |r| ==> r[i] < |m| && m[r[i]]
    ensures forall p :: 0 <= p < |m| && m[p] ==> p in r
    ensures forall i, j :: 0 <= i < j < |r| ==> r[i] < r[j]
  {
    if m == [] then []
    else
      var n := |m| - 1;
      var front := TruePositions(m[..n]);
      assert forall p :: 0 <= p < n && m[p] ==> m[..n][p] && p in front;
      if m[n] then front + [n] else front
  }

  // ---- Sums over positions ----

  function SumWhere(m: seq<bool>, f: nat -> real): real {
    if m == [] then 0.0
    else
      var n := |m| - 1;
      SumWhere(m[..n], f) + if m[n] then f(n) else 0.0
  }

  function SumAt(idx: seq<nat>, f: nat -> real): real {
    if idx == [] then 0.0 else SumAt(idx[..|idx| - 1], f) + f(idx[|idx| - 1])
  }

  lemma {:induction false} SumOfPositions(m: seq<bool>, f: nat -> real)
    ensures SumAt(TruePositions(m), f) == SumWhere(m, f)
  {
    if m != [] {
      var n := |m| - 1;
      SumOfPositions(m[..n], f);
      var front := TruePositions(m[..n]);
      SumAtExtends(front, n, f);
      if !m[n] { assert TruePositions(m) == front; }
    }
  }

  lemma SumAtExtends(idx: seq<nat>, p: nat, f: nat -> real)
    ensures SumAt(idx + [p], f) == SumAt(idx, f) + f(p)
  {
    assert (idx + [p])[..|idx|] == idx;
  }

  lemma {:induction false} ClearOne(m: seq<bool>, p: nat, f: nat -> real)
    requires p < |m| && m[p]
    ensures SumWhere(m, f) == SumWhere(m[p := false], f) + f(p)
  {
    var n := |m| - 1;
    if p < n {
      ClearOne(m[..n], p, f);
      assert m[p := false][..n] == m[..n][p := false];
    } else {
      assert m[p := false][..n] == m[..n];
    }
  }

  /** Clearing positions takes exactly their share out of the sum. */
  lemma {:induction false} ClearedSum(m: seq<bool>, idx: seq<nat>, f: nat -> real)
    requires Indices(idx, |m|) && forall i :: 0 <= i < |idx| ==> m[idx[i]]
    ensures SumWhere(m, f) == SumWhere(Cleared(m, idx), f) + SumAt(idx, f)
    decreases |idx|
  {
    if idx != [] {
      ClearOne(m, idx[0], f);
      ClearedSum(m[idx[0] := false], idx[1..], f);
      SumAtFront(idx, f);
    }
  }

  lemma {:induction false} SumAtFront(idx: seq<nat>, f: nat -> real)
    requires idx != []
    ensures SumAt(idx, f) == f(idx[0]) + SumAt(idx[1..], f)
  {
    var n := |idx| - 1;
    if n > 0 {
      SumAtFront(idx[..n], f);
      assert idx[..n][1..] == idx[1..][..n - 1];
    }
  }

  lemma {:induction false} SumAtOfOnes(idx: seq<nat>, f: nat -> real)
    requires forall p :: f(p) == 1.0
    ensures SumAt(idx, f) == |idx| as real
  {
    if idx != [] { SumAtOfOnes(idx[..|idx| - 1], f); }
  }

  lemma {:induction false} SumWhereOfOnes(n: nat, f: nat -> real)
    requires forall p :: f(p) == 1.0
    ensures SumWhere(Ones(n), f) == n as real
  {
    if n > 0 {
      SumWhereOfOnes(n - 1, f);
      assert Ones(n)[..n - 1] == Ones(n - 1);
    }
  }

  /** Clearing distinct set positions leaves exactly the others. */
  lemma ClearedCount(m: seq<bool>, idx: seq<nat>)
    requires Indices(idx, |m|) && forall i :: 0 <= i < |idx| ==> m[idx[i]]
    ensures |TruePositions(Cleared(m, idx))| == |TruePositions(m)| - |idx|
  {
    var one := (p: nat) => 1.0;
    ClearedSum(m, idx, one);
    SumOfPositions(m, one);
    SumOfPositions(Cleared(m, idx), one);
    SumAtOfOnes(TruePositions(m), one);
    SumAtOfOnes(TruePositions(Cleared(m, idx)), one);
    SumAtOfOnes(idx, one);
  }

  lemma OnesCount(n: nat)
    ensures |TruePositions(Ones(n))| == n
  {
    var one := (p: nat) => 1.0;
    SumWhereOfOnes(n, one);
    SumOfPositions(Ones(n), one);
    SumAtOfOnes(TruePositions(Ones(n)), one);
  }

  // ---- The two selections ----

  /** What is still unselected after the first scatter of `high`. */
  function Rest(n: nat, high: seq<nat>): (m: seq<bool>)
    requires Indices(high, n)
    ensures |m| == n
  {
    Cleared(Ones(n), high)
  }

  predicate Apart(a: seq<nat>, b: seq<nat>) {
    forall i, j :: 0 <= i < |a| && 0 <= j < |b| ==> a[i] != b[j]
  }

  /** The overlap assertion passes exactly when enough positions remain for the second selection. */
  lemma ApartIff(score: seq<real>, high: seq<nat>, low: seq<nat>)
    requires Indices(high, |score|)
    requires IsTopK(Masked(score, Rest(|score|, high)), |high|, low)
    ensures Apart(high, low) <==> 2 * |high| <= |score|
  {
    hide TruePositions, Cleared;
    var n := |score|;
    OnesCount(n);
    AllTrue(n, high);
    ClearedCount(Ones(n), high);
    if Apart(high, low) {
      ClearedCount(Rest(n, high), low);
    } else {
      var i, j :| 0 <= i < |high| && 0 <= j < |low| && high[i] == low[j];
      FreeAreTaken(score, high, low, j);
    }
  }

  /** If a used-up position was taken again, every free one had been taken before it. */
  lemma FreeAreTaken(score: seq<real>, high: seq<nat>, low: seq<nat>, j: nat)
    requires Indices(high, |score|) && j < |low| && low[j] in high
    requires IsTopK(Masked(score, Rest(|score|, high)), |low|, low)
    ensures |TruePositions(Rest(|score|, high))| < |low|
  {
    hide TruePositions, Cleared;
    var rest := Rest(|score|, high);
    var m := Masked(score, rest);
    var free := TruePositions(rest);
    assert m[low[j]] == NegInf;
    forall i | 0 <= i < |free| ensures free[i] in low[..j] {
      var p := free[i];
      assert rest[p] && !Le(m[p], m[low[j]]);
      assert p in low;
      var k :| 0 <= k < |low| && low[k] == p;
      assert k < j;
      assert low[..j][k] == p;
    }
    Pigeonhole(free, low[..j]);
  }

  /** Distinct members of `b` are at most as many as `b` is long. */
  lemma {:induction false} Pigeonhole(a: seq<nat>, b: seq<nat>)
    requires forall i, j :: 0 <= i < j < |a| ==> a[i] != a[j]
    requires forall i :: 0 <= i < |a| ==> a[i] in b
    ensures |a| <= |b|
  {
    if a != [] {
      var n := |a| - 1;
      var k :| 0 <= k < |b| && b[k] == a[n];
      var c := b[..k] + b[k + 1..];
      forall i | 0 <= i < n ensures a[..n][i] in c {
        var m :| 0 <= m < |b| && b[m] == a[i];
        if m < k { assert c[m] == a[i]; } else { assert c[m - 1] == a[i]; }
      }
      Pigeonhole(a[..n], c);
    }
  }

  function Kept(n: nat, high: seq<nat>, low: seq<nat>): (r: seq<nat>)
    requires Indices(high, n) && Indices(low, n)
    ensures forall i :: 0 <= i < |r| ==> r[i] < n
    ensures forall i, j :: 0 <= i < j < |r| ==> r[i] < r[j]
    ensures forall p :: 0 <= p < n ==> (p in r <==> p !in high && p !in low)
  {
    TruePositions(Cleared(Rest(n, high), low))
  }

  /** Kept, high and low positions partition the row, so each row keeps the same number. */
  lemma KeptHighLowPartition(n: nat, high: seq<nat>, low: seq<nat>)
    requires Indices(high, n) && Indices(low, n) && Apart(high, low)
    ensures |Kept(n, high, low)| + |high| + |low| == n
  {
    hide TruePositions;
    OnesCount(n);
    AllTrue(n, high);
    ClearedCount(Ones(n), high);
    ClearedCount(Rest(n, high), low);
  }

  lemma AllTrue(n: nat, high: seq<nat>)
    requires Indices(high, n)
    ensures forall i :: 0 <= i < |high| ==> Ones(n)[high[i]]
  {}

  // ---- Merging ----

  /** One merged component; a vanishing pair sum gives no finite value. */
  function Blend(hi: real, lo: real, x: real, y: real): real
    requires hi + lo != 0.0
  {
    (hi / (hi + lo)) * x + (lo / (hi + lo)) * y
  }

  lemma BlendWeighs(hi: real, lo: real, x: real, y: real)
    requires hi + lo != 0.0
    ensures (hi + lo) * Blend(hi, lo, x, y) == hi * x + lo * y
  {
    var s := hi + lo;
    assert s * (hi / s) == hi && s * (lo / s) == lo;
    assert s * ((hi / s) * x + (lo / s) * y) == (s * (hi / s)) * x + (s * (lo / s)) * y;
  }

  function BlendRow(hi: real, lo: real, x: seq<real>, y: seq<real>): (r: Option<seq<real>>)
    requires |x| == |y|
    ensures r.Some? <==> hi + lo != 0.0
    ensures r.Some? ==> |r.value| == |x| && forall c :: 0 <= c < |x| ==> r.value[c] == Blend(hi, lo, x[c], y[c])
  {
    if hi + lo == 0.0 then None else Some(seq(|x|, c requires 0 <= c < |x| => Blend(hi, lo, x[c], y[c])))
  }

  function Blends(raw: seq<real>, high: seq<nat>, low: seq<nat>, states: seq<seq<real>>): (r: seq<Option<seq<real>>>)
    requires |raw| == |states| && |high| == |low| && Indices(high, |raw|) && Indices(low, |raw|)
    requires forall i, j :: 0 <= i < |states| && 0 <= j < |states| ==> |states[i]| == |states[j]|
    ensures |r| == |high|
    ensures forall j :: 0 <= j < |r| ==> r[j] == BlendRow(raw[high[j]], raw[low[j]], states[high[j]], states[low[j]])
  {
    seq(|high|, j requires 0 <= j < |high| => BlendRow(raw[high[j]], raw[low[j]], states[high[j]], states[low[j]]))
  }

  function Take(states: seq<seq<real>>, idx: seq<nat>): (r: seq<Option<seq<real>>>)
    requires forall i :: 0 <= i < |idx| ==> idx[i] < |states|
    ensures |r| == |idx| && forall i :: 0 <= i < |r| ==> r[i] == Some(states[idx[i]])
  {
    seq(|idx|, i requires 0 <= i < |idx| => Some(states[idx[i]]))
  }

  predicate Uniform(states: seq<seq<real>>, n: nat, dim: nat) {
    |states| == n && forall i :: 0 <= i < n ==> |states[i]| == dim
  }

  /** `torch.cat([kept, merged])` for one row */
  function Budgeted(raw: seq<real>, high: seq<nat>, low: seq<nat>, states: seq<seq<real>>,
                    dim: nat): seq<Option<seq<real>>>
    requires Uniform(states, |raw|, dim) && |high| == |low| && Indices(high, |raw|) && Indices(low, |raw|)
  {
    Take(states, Kept(|raw|, high, low)) + Blends(raw, high, low, states)
  }

  /** The score each row of the result stands for: its own, or the sum of its pair. */
  function Weight(raw: seq<real>, high: seq<nat>, low: seq<nat>, i: nat): real
    requires |high| == |low| && Indices(high, |raw|) && Indices(low, |raw|)
    requires i < |Kept(|raw|, high, low)| + |high|
  {
    var kept := Kept(|raw|, high, low);
    if i < |kept| then raw[kept[i]] else raw[high[i - |kept|]] + raw[low[i - |kept|]]
  }

  /** The weighted sum of component `c` over the first `n` rows of the result. */
  function ResultSum(raw: seq<real>, high: seq<nat>, low: seq<nat>, out: seq<Option<seq<real>>>, c: nat, n: nat): real
    requires |high| == |low| && Indices(high, |raw|) && Indices(low, |raw|)
    requires n <= |out| == |Kept(|raw|, high, low)| + |high|
    requires forall i :: 0 <= i < |out| ==> out[i].Some? && c < |out[i].value|
  {
    if n == 0 then 0.0
    else ResultSum(raw, high, low, out, c, n - 1) + Weight(raw, high, low, n - 1) * out[n - 1].value[c]
  }

  function Weighted(raw: seq<real>, states: seq<seq<real>>, c: nat): nat -> real {
    (p: nat) => if p < |raw| && p < |states| && c < |states[p]| then raw[p] * states[p][c] else 0.0
  }

  /** Row by row: a kept row weighs what its position did, a merged row what its two positions did. */
  lemma WeightAt(raw: seq<real>, high: seq<nat>, low: seq<nat>, states: seq<seq<real>>, dim: nat, c: nat, i: nat)
    requires Mergeable(raw, high, low, states, dim) && c < dim && i < |Kept(|raw|, high, low)| + |high|
    ensures var out := Budgeted(raw, high, low, states, dim);
            var kept, f := Kept(|raw|, high, low), Weighted(raw, states, c);
            && |out| == |kept| + |high| && out[i].Some? && c < |out[i].value|
            && Weight(raw, high, low, i) * out[i].value[c]
               == if i < |kept| then f(kept[i]) else f(high[i - |kept|]) + f(low[i - |kept|])
  {
    hide Kept, Blend;
    var kept := Kept(|raw|, high, low);
    if i >= |kept| {
      var j := i - |kept|;
      BlendWeighs(raw[high[j]], raw[low[j]], states[high[j]][c], states[low[j]][c]);
    }
  }

  predicate Mergeable(raw: seq<real>, high: seq<nat>, low: seq<nat>, states: seq<seq<real>>, dim: nat) {
    && Uniform(states, |raw|, dim) && |high| == |low| && Indices(high, |raw|) && Indices(low, |raw|)
    && forall j :: 0 <= j < |high| ==> raw[high[j]] + raw[low[j]] != 0.0
  }

  lemma {:induction false} ResultSumSplits(raw: seq<real>, high: seq<nat>, low: seq<nat>, states: seq<seq<real>>,
                                           dim: nat, c: nat, out: seq<Option<seq<real>>>, n: nat)
    requires Mergeable(raw, high, low, states, dim) && c < dim && out == Budgeted(raw, high, low, states, dim)
    requires n <= |out| == |Kept(|raw|, high, low)| + |high|
    requires forall i :: 0 <= i < |out| ==> out[i].Some? && c < |out[i].value|
    ensures var kept, f := Kept(|raw|, high, low), Weighted(raw, states, c);
            ResultSum(raw, high, low, out, c, n)
            == if n <= |kept| then SumAt(kept[..n], f)
               else SumAt(kept, f) + SumAt(high[..n - |kept|], f) + SumAt(low[..n - |kept|], f)
  {
    hide Kept, Weight, Budgeted, Weighted, Uniform, SumAt, Indices;
    var kept, f := Kept(|raw|, high, low), Weighted(raw, states, c);
    if n > 0 {
      ResultSumSplits(raw, high, low, states, dim, c, out, n - 1);
      WeightAt(raw, high, low, states, dim, c, n - 1);
      if n <= |kept| {
        assert kept[..n] == kept[..n - 1] + [kept[n - 1]];
        SumAtExtends(kept[..n - 1], kept[n - 1], f);
      } else {
        var j := n - 1 - |kept|;
        NoSum(f);
        assert kept[..|kept|] == kept && high[..0] == [] && low[..0] == [];
        assert ResultSum(raw, high, low, out, c, n - 1) == SumAt(kept, f) + SumAt(high[..j], f) + SumAt(low[..j], f);
        assert high[..j + 1] == high[..j] + [high[j]] && low[..j + 1] == low[..j] + [low[j]];
        SumAtExtends(high[..j], high[j], f);
        SumAtExtends(low[..j], low[j], f);
        assert n - |kept| == j + 1;
      }
    } else {
      NoSum(f);
    }
  }

  /** The merge loses nothing of the score-weighted sum of any component. */
  lemma WeightedSumIsPreserved(raw: seq<real>, high: seq<nat>, low: seq<nat>, states: seq<seq<real>>, dim: nat, c: nat)
    requires Mergeable(raw, high, low, states, dim) && Apart(high, low) && c < dim
    ensures var out := Budgeted(raw, high, low, states, dim);
            && |out| == |raw| - |high| && |out| == |Kept(|raw|, high, low)| + |high|
            && (forall i :: 0 <= i < |out| ==> out[i].Some? && c < |out[i].value|)
            && ResultSum(raw, high, low, out, c, |out|) == SumWhere(Ones(|raw|), Weighted(raw, states, c))
  {
    hide Budgeted, Weight, ResultSum, SumWhere, SumAt, Weighted, TruePositions, Cleared;
    var n, f := |raw|, Weighted(raw, states, c);
    var kept, out := Kept(n, high, low), Budgeted(raw, high, low, states, dim);
    KeptHighLowPartition(n, high, low);
    BudgetedLength(raw, high, low, states, dim);
    forall i | 0 <= i < |out| ensures out[i].Some? && c < |out[i].value| {
      WeightAt(raw, high, low, states, dim, c, i);
    }
    ResultSumSplits(raw, high, low, states, dim, c, out, |out|);
    AllTrue(n, high);
    ClearedSum(Ones(n), high, f);
    ClearedSum(Rest(n, high), low, f);
    SumOfPositions(Cleared(Rest(n, high), low), f);
    assert high[..|high|] == high && low[..|low|] == low && kept[..|kept|] == kept;
    if high == [] { assert SumAt(high, f) == 0.0 && SumAt(low, f) == 0.0 by { NoSum(f); } }
  }

  lemma NoSum(f: nat -> real)
    ensures SumAt([], f) == 0.0
  {}

  lemma BudgetedLength(raw: seq<real>, high: seq<nat>, low: seq<nat>, states: seq<seq<real>>, dim: nat)
    requires Uniform(states, |raw|, dim) && |high| == |low| && Indices(high, |raw|) && Indices(low, |raw|)
    ensures |Budgeted(raw, high, low, states, dim)| == |Kept(|raw|, high, low)| + |high|
  {}

  /** The weighted sum of every component, over all rows of `out` with the scores they stand for, is that of the
      original row. */
  predicate SumsPreserved(raw: seq<real>, high: seq<nat>, low: seq<nat>, states: seq<seq<real>>, dim: nat,
                          out: seq<Option<seq<real>>>)
    requires Uniform(states, |raw|, dim) && |high| == |low| && Indices(high, |raw|) && Indices(low, |raw|)
  {
    && |out| == |Kept(|raw|, high, low)| + |high|
    && (forall i :: 0 <= i < |out| ==> out[i].Some? && |out[i].value| == dim)
    && forall c :: 0 <= c < dim ==>
         ResultSum(raw, high, low, out, c, |out|) == SumWhere(Ones(|raw|), Weighted(raw, states, c))
  }

  lemma MergePreservesSums(raw: seq<real>, high: seq<nat>, low: seq<nat>, states: seq<seq<real>>, dim: nat)
    requires Mergeable(raw, high, low, states, dim) && Apart(high, low)
    ensures SumsPreserved(raw, high, low, states, dim, Budgeted(raw, high, low, states, dim))
  {
    hide ResultSum, SumWhere, Weighted, Kept;
    var out := Budgeted(raw, high, low, states, dim);
    BudgetedLength(raw, high, low, states, dim);
    forall i | 0 <= i < |out| ensures out[i].Some? && |out[i].value| == dim {
      if i >= |Kept(|raw|, high, low)| {
        var j := i - |Kept(|raw|, high, low)|;
        assert out[i] == BlendRow(raw[high[j]], raw[low[j]], states[high[j]], states[low[j]]);
      }
    }
    forall c | 0 <= c < dim
      ensures ResultSum(raw, high, low, out, c, |out|) == SumWhere(Ones(|raw|), Weighted(raw, states, c))
    {
      WeightedSumIsPreserved(raw, high, low, states, dim, c);
    }
  }

  /** No merged pair has scores that add up to zero. */
  predicate NoPairCancels(raw: seq<real>, high: seq<nat>, low: seq<nat>)
    requires |high| == |low| && Indices(high, |raw|) && Indices(low, |raw|)
  {
    forall j :: 0 <= j < |high| ==> raw[high[j]] + raw[low[j]] != 0.0
  }

  /** The merge keeps the sums exactly when no pair cancels; a pair that does leaves no finite row. */
  lemma SumsPreservedIff(raw: seq<real>, high: seq<nat>, low: seq<nat>, states: seq<seq<real>>, dim: nat)
    requires Uniform(states, |raw|, dim) && |high| == |low| && Indices(high, |raw|) && Indices(low, |raw|)
    requires Apart(high, low)
    ensures SumsPreserved(raw, high, low, states, dim, Budgeted(raw, high, low, states, dim))
            <==> NoPairCancels(raw, high, low)
  {
    hide ResultSum, SumWhere, Weighted, Kept;
    var out := Budgeted(raw, high, low, states, dim);
    if NoPairCancels(raw, high, low) {
      MergePreservesSums(raw, high, low, states, dim);
    } else {
      var j :| 0 <= j < |high| && raw[high[j]] + raw[low[j]] == 0.0;
      assert out[|Kept(|raw|, high, low)| + j] == BlendRow(raw[high[j]], raw[low[j]], states[high[j]], states[low[j]]);
    }
  }

  /** No two positions of the row have scores that add up to zero; a condition on the scores alone. */
  predicate NoTwoCancel(raw: seq<real>) {
    forall p, q :: 0 <= p < |raw| && 0 <= q < |raw| && p != q ==> raw[p] + raw[q] != 0.0
  }

  lemma NoTwoMeansNoPair(raw: seq<real>, high: seq<nat>, low: seq<nat>)
    requires |high| == |low| && Indices(high, |raw|) && Indices(low, |raw|) && Apart(high, low)
    requires NoTwoCancel(raw)
    ensures NoPairCancels(raw, high, low)
  {}

  /** As attention scores are. */
  lemma PositiveScoresDoNotCancel(raw: seq<real>)
    requires forall p :: 0 <= p < |raw| ==> raw[p] > 0.0
    ensures NoTwoCancel(raw)
  {}

  /** No selected position cancels with one that is left over. */
  predicate NoRestCancels(raw: seq<real>, high: seq<nat>)
    requires Indices(high, |raw|)
  {
    forall i, p :: 0 <= i < |high| && 0 <= p < |raw| && p !in high ==> raw[high[i]] + raw[p] != 0.0
  }

  /** Whatever the second scores, no pair cancels. */
  ghost predicate SafeForAllScores(raw: seq<real>, high: seq<nat>)
    requires Indices(high, |raw|)
  {
    forall score: seq<real>, low: seq<nat> ::
      |score| == |raw| && IsTopK(Masked(score, Rest(|raw|, high)), |high|, low) ==> NoPairCancels(raw, high, low)
  }

  /** Once the first selection is made, the sums are kept for all second scores exactly when no selected
      position cancels with a leftover one. */
  lemma SafeForAllScoresIff(raw: seq<real>, high: seq<nat>)
    requires Indices(high, |raw|) && 2 * |high| <= |raw|
    ensures SafeForAllScores(raw, high) <==> NoRestCancels(raw, high)
  {
    if NoRestCancels(raw, high) {
      forall score: seq<real>, low: seq<nat>
        | |score| == |raw| && IsTopK(Masked(score, Rest(|raw|, high)), |high|, low)
        ensures NoPairCancels(raw, high, low)
      {
        ApartIff(score, high, low);
      }
    } else {
      var i, p :| 0 <= i < |high| && 0 <= p < |raw| && p !in high && raw[high[i]] + raw[p] == 0.0;
      var score, low := PairUp(|raw|, high, i, p);
      assert !NoPairCancels(raw, high, low);
    }
  }

  /** Scores that pair selected position `high[i]` with leftover position `p`. */
  lemma PairUp(n: nat, high: seq<nat>, i: nat, p: nat) returns (score: seq<real>, low: seq<nat>)
    requires Indices(high, n) && 2 * |high| <= n && i < |high| && p < n && p !in high
    ensures |score| == n && IsTopK(Masked(score, Rest(n, high)), |high|, low)
    ensures low[i] == p
  {
    hide IsTopK, Masked, Ranks, Rest, TruePositions, Indices;
    var free := FreePositions(n, high);
    var m :| 0 <= m < |free| && free[m] == p;
    low := FirstWith(free, n, Rest(n, high), |high|, i, m);
    score := Ranks(n, low);
    RanksSelect(score, Rest(n, high), low);
  }

  lemma FreePositions(n: nat, high: seq<nat>) returns (free: seq<nat>)
    requires Indices(high, n)
    ensures |free| == n - |high| && Indices(free, n)
    ensures forall i :: 0 <= i < |free| ==> Rest(n, high)[free[i]]
    ensures forall p :: 0 <= p < n && p !in high ==> p in free
  {
    hide TruePositions, Cleared;
    OnesCount(n);
    AllTrue(n, high);
    ClearedCount(Ones(n), high);
    free := TruePositions(Rest(n, high));
  }

  /** `k` of the free positions, with the one at `m` in place `i`. */
  lemma FirstWith(free: seq<nat>, n: nat, rest: seq<bool>, k: nat, i: nat, m: nat) returns (low: seq<nat>)
    requires Indices(free, n) && |rest| == n && i < k <= |free| && m < |free|
    requires forall j :: 0 <= j < |free| ==> rest[free[j]]
    ensures |low| == k && Indices(low, n) && low[i] == free[m]
    ensures forall j :: 0 <= j < k ==> rest[low[j]]
  {
    var swapped := free[i := free[m]][m := free[i]];
    low := swapped[..k];
    assert forall j :: 0 <= j < k ==> low[j] == free[if j == i then m else if j == m then i else j];
  }

  /** Position `low[j]` scores `j`, all others as much as `low` is long. */
  function Ranks(n: nat, low: seq<nat>): (score: seq<real>)
    requires Indices(low, n)
    ensures |score| == n
    ensures forall j :: 0 <= j < |low| ==> score[low[j]] == j as real
    ensures forall x :: 0 <= x < n && x !in low ==> score[x] == |low| as real
  {
    seq(n, x requires 0 <= x < n => RankIn(low, x) as real)
  }

  function RankIn(low: seq<nat>, x: nat): (j: nat)
    ensures if x in low then j < |low| && low[j] == x else j == |low|
  {
    if low == [] then 0
    else if low[0] == x then 0
    else RankIn(low[1..], x) + 1
  }

  lemma RanksSelect(score: seq<real>, rest: seq<bool>, low: seq<nat>)
    requires |score| == |rest| && Indices(low, |rest|) && score == Ranks(|rest|, low)
    requires forall j :: 0 <= j < |low| ==> rest[low[j]]
    ensures IsTopK(Masked(score, rest), |low|, low)
  {
    hide Ranks;
  }
}
