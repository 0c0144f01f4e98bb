/** One expert-parallel MoE layer: replicate, sort by destination, exchange, run local experts,
    exchange back, undo the sort, sum the slots of a token. */
module EpDispatch {
  import opened Arith
  import opened Permutations
  import opened Moe
  import opened AllToAll
  import opened Wrappers

  /** Rank `r` of `world` owns the global experts `[r * local, (r + 1) * local)`; `slots` is `M * K`
      and `perDest` the equal split of an exchange. */
  datatype Shape = Shape(world: nat, local: nat, tokens: nat, topk: nat, slots: nat, perDest: nat) {
    predicate Valid() {
      && world > 0
      && local > 0
      && slots == tokens * topk
      && slots == world * perDest
    }
  }

  /** The sizes as the workers derive them; the divisibility tests are the ones that raise. */
  function MakeShape(world: nat, experts: nat, tokens: nat, topk: nat): (sh: Option<Shape>)
    ensures sh.Some? ==> sh.value.Valid() && sh.value.world * sh.value.local == experts
    ensures sh.Some? ==> sh.value.world == world && sh.value.tokens == tokens && sh.value.topk == topk
    ensures sh.None? <==> world == 0 || experts == 0 || experts % world != 0 || (tokens * topk) % world != 0
  {
    if world == 0 || experts == 0 || experts % world != 0 || (tokens * topk) % world != 0 then None
    else
      var sh := Shape(world, experts / world, tokens, topk, tokens * topk, tokens * topk / world);
      assert world * sh.local == experts;
      Some(sh)
  }

  predicate ValidGroup<V>(sh: Shape, rs: seq<Routing>, xs: seq<seq<V>>) {
    && ValidRoutings(sh, rs)
    && |xs| == sh.world
    && forall r :: 0 <= r < sh.world ==> |xs[r]| == sh.tokens
  }

  predicate ValidRoutings(sh: Shape, rs: seq<Routing>) {
    && sh.Valid()
    && |rs| == sh.world
    && forall r :: 0 <= r < sh.world ==> ValidRouting(rs[r], sh.slots, sh.world * sh.local)
  }

  /** `ids_global // L` */
  function Dest(ids: seq<nat>, local: nat): (d: seq<nat>)
    requires local > 0
    ensures |d| == |ids|
    ensures forall i :: 0 <= i < |d| ==> d[i] == ids[i] / local
  {
    seq(|ids|, i requires 0 <= i < |ids| => ids[i] / local)
  }

  function SortIdx(ids: seq<nat>, local: nat): (p: seq<nat>)
    requires local > 0
    ensures |p| == |ids| && IsPermutation(p)
  {
    StableArgsort(Dest(ids, local))
  }

  /** `torch.argsort(sort_idx)`: its keys are distinct, so no stability is needed. */
  function InvSortIdx(ids: seq<nat>, local: nat): (q: seq<nat>)
    requires local > 0
    ensures |q| == |ids| && IsPermutation(q)
    ensures var p := SortIdx(ids, local); forall i :: 0 <= i < |ids| ==> p[q[i]] == i && q[p[i]] == i
  {
    var p := SortIdx(ids, local);
    ArgsortOfPermutationIsInverse(p, StableArgsort(p));
    StableArgsort(p)
  }

  /** `x.index_select(0, token_idx[sort_idx])` with `token_idx = arange(M).repeat_interleave(K)` */
  function SendX<V>(sh: Shape, r: Routing, x: seq<V>): (s: seq<V>)
    requires sh.Valid() && |x| == sh.tokens && |r.ids| == sh.slots
    ensures |s| == sh.slots
  {
    var p := SortIdx(r.ids, sh.local);
    seq(sh.slots, j requires 0 <= j < sh.slots =>
      BlockIndex(sh.tokens, sh.topk, p[j]);
      x[p[j] / sh.topk])
  }

  function SendIds(ids: seq<nat>, local: nat): (s: seq<nat>)
    requires local > 0
    ensures |s| == |ids|
  {
    Gather(ids, SortIdx(ids, local))
  }

  function SendW(sh: Shape, r: Routing): (s: seq<real>)
    requires sh.local > 0 && |r.weights| == |r.ids|
    ensures |s| == |r.ids|
  {
    Gather(r.weights, SortIdx(r.ids, sh.local))
  }

  predicate OnRank(sh: Shape, rank: nat, id: nat) {
    rank * sh.local <= id < (rank + 1) * sh.local
  }

  /** `cutlass_fused_moe` with one expert per row: rows routed to another rank's expert give zero. */
  function Kernel<V>(sp: Space<V>, f: Expert<V>, sh: Shape, rank: nat,
                     x: seq<V>, ids: seq<nat>, w: seq<real>): (out: seq<V>)
    requires |x| == |ids| == |w|
    ensures |out| == |x|
  {
    seq(|x|, j requires 0 <= j < |x| =>
      if OnRank(sh, rank, ids[j]) then sp.scale(w[j], f(ids[j], x[j])) else sp.zero)
  }

  // ---- The layer for a whole group, as a composition of the source's five steps ----

  function Sends<V>(sh: Shape, rs: seq<Routing>, xs: seq<seq<V>>): (s: seq<seq<V>>)
    requires ValidGroup(sh, rs, xs)
    ensures |s| == sh.world && EqualSplit(s, sh.perDest)
    ensures forall r :: 0 <= r < sh.world ==> s[r] == SendX(sh, rs[r], xs[r])
  {
    seq(sh.world, r requires 0 <= r < sh.world => SendX(sh, rs[r], xs[r]))
  }

  function IdSends(sh: Shape, rs: seq<Routing>): (s: seq<seq<nat>>)
    requires ValidRoutings(sh, rs)
    ensures |s| == sh.world && EqualSplit(s, sh.perDest)
    ensures forall r :: 0 <= r < sh.world ==> s[r] == SendIds(rs[r].ids, sh.local)
  {
    seq(sh.world, r requires 0 <= r < sh.world => SendIds(rs[r].ids, sh.local))
  }

  function WSends(sh: Shape, rs: seq<Routing>): (s: seq<seq<real>>)
    requires ValidRoutings(sh, rs)
    ensures |s| == sh.world && EqualSplit(s, sh.perDest)
    ensures forall r :: 0 <= r < sh.world ==> s[r] == SendW(sh, rs[r])
  {
    seq(sh.world, r requires 0 <= r < sh.world => SendW(sh, rs[r]))
  }

  function Outs<V>(sp: Space<V>, f: Expert<V>, sh: Shape, rs: seq<Routing>, xs: seq<seq<V>>): (s: seq<seq<V>>)
    requires ValidGroup(sh, rs, xs)
    ensures |s| == sh.world && EqualSplit(s, sh.perDest)
  {
    var n := sh.perDest;
    seq(sh.world, r requires 0 <= r < sh.world =>
      Kernel(sp, f, sh, r,
             Exchange(Sends(sh, rs, xs), n)[r], Exchange(IdSends(sh, rs), n)[r], Exchange(WSends(sh, rs), n)[r]))
  }

  function Combined<V>(sp: Space<V>, f: Expert<V>, sh: Shape, rs: seq<Routing>, xs: seq<seq<V>>): (s: seq<seq<V>>)
    requires ValidGroup(sh, rs, xs)
    ensures |s| == sh.world && EqualSplit(s, sh.perDest)
  {
    Exchange(Outs(sp, f, sh, rs, xs), sh.perDest)
  }

  function Unpermute<V>(sp: Space<V>, sh: Shape, r: Routing, combined: seq<V>): (y: seq<V>)
    requires sh.Valid() && |combined| == |r.ids| == sh.slots
    ensures |y| == sh.tokens
  {
    SumSlots(sp, sh.tokens, sh.topk, Gather(combined, InvSortIdx(r.ids, sh.local)))
  }

  function EpLayer<V>(sp: Space<V>, f: Expert<V>, sh: Shape, rs: seq<Routing>, xs: seq<seq<V>>): (ys: seq<seq<V>>)
    requires ValidGroup(sh, rs, xs)
    ensures |ys| == sh.world
    ensures forall r :: 0 <= r < sh.world ==> |ys[r]| == sh.tokens
  {
    seq(sh.world, r requires 0 <= r < sh.world =>
      Unpermute(sp, sh, rs[r], Combined(sp, f, sh, rs, xs)[r]))
  }

  function DenseGroup<V>(sp: Space<V>, f: Expert<V>, sh: Shape, rs: seq<Routing>, xs: seq<seq<V>>): (ys: seq<seq<V>>)
    requires ValidGroup(sh, rs, xs)
    ensures |ys| == sh.world
    ensures forall r :: 0 <= r < sh.world ==> |ys[r]| == sh.tokens
  {
    seq(sh.world, r requires 0 <= r < sh.world => Dense(sp, f, sh.topk, rs[r], xs[r]))
  }

  // ---- Where slots land ----

  /** The assertion `(bincount(dest) == slots_per_dest).all()` */
  predicate EqualCounts(sh: Shape, ids: seq<nat>)
    requires sh.Valid()
  {
    forall d :: 0 <= d < sh.world ==> multiset(Dest(ids, sh.local))[d] == sh.perDest
  }

  /** Sorted position `j` is sent to rank `j / slots_per_dest`; is that where expert `id` lives? */
  predicate LandsAtOwner(sh: Shape, j: nat, id: nat)
    requires sh.Valid() && j < sh.slots
  {
    BlockIndex(sh.world, sh.perDest, j);
    OnRank(sh, j / sh.perDest, id)
  }

  predicate Delivered(sh: Shape, ids: seq<nat>)
    requires sh.Valid() && |ids| == sh.slots
  {
    forall j :: 0 <= j < sh.slots ==> LandsAtOwner(sh, j, SendIds(ids, sh.local)[j])
  }

  ghost function CountBelow(s: seq<int>, v: int): nat {
    if s == [] then 0 else CountBelow(s[..|s| - 1], v) + (if s[|s| - 1] < v then 1 else 0)
  }

  lemma {:induction false} CountBelowStep(s: seq<int>, v: int)
    ensures CountBelow(s, v + 1) == CountBelow(s, v) + multiset(s)[v]
  {
    if s != [] {
      CountBelowStep(s[..|s| - 1], v);
      assert s == s[..|s| - 1] + [s[|s| - 1]];
    }
  }

  lemma {:induction false} CountBelowBound(s: seq<int>, v: int)
    ensures CountBelow(s, v) <= |s|
  {
    if s != [] { CountBelowBound(s[..|s| - 1], v); }
  }

  /** In a sorted list the entries below `v` are exactly the first `CountBelow(s, v)`. */
  lemma {:induction false} SortedPrefix(s: seq<int>, v: int, j: nat)
    requires forall a, b :: 0 <= a < b < |s| ==> s[a] <= s[b]
    requires j < |s|
    ensures s[j] < v <==> j < CountBelow(s, v)
    decreases |s|
  {
    var n := |s| - 1;
    CountBelowBound(s[..n], v);
    if j < n {
      SortedPrefix(s[..n], v, j);
    } else if s[n] < v {
      AllBelow(s, v);
    }
  }

  lemma {:induction false} AllBelow(s: seq<int>, v: int)
    requires forall i :: 0 <= i < |s| ==> s[i] < v
    ensures CountBelow(s, v) == |s|
  {
    if s != [] { AllBelow(s[..|s| - 1], v); }
  }

  lemma {:induction false} NoneBelow(s: seq<nat>)
    ensures CountBelow(s, 0) == 0
  {
    if s != [] { NoneBelow(s[..|s| - 1]); }
  }

  lemma {:induction false} EqualCountsBelow(s: seq<nat>, n: nat, world: nat, d: nat)
    requires forall v :: 0 <= v < world ==> multiset(s)[v] == n
    requires d <= world
    ensures CountBelow(s, d) == d * n
  {
    if d == 0 {
      NoneBelow(s);
    } else {
      var e: nat := d - 1;
      EqualCountsBelow(s, n, world, e);
      CountBelowStep(s, e);
      assert multiset(s)[e] == n;
      assert (e + 1) * n == e * n + n;
    }
  }

  /** A sorted list in which each of `0..world` occurs `n` times is `0^n 1^n 2^n ...`. */
  lemma SortedEqualBlocks(s: seq<nat>, n: nat, world: nat, j: nat)
    requires forall a, b :: 0 <= a < b < |s| ==> s[a] <= s[b]
    requires forall v :: 0 <= v < world ==> multiset(s)[v] == n
    requires |s| == world * n && j < |s|
    ensures n > 0 && s[j] == j / n
  {
    BlockIndex(world, n, j);
    var q := j / n;
    InSortedBlock(s, n, world, q, j - q * n);
  }

  lemma InSortedBlock(s: seq<nat>, n: nat, world: nat, q: nat, k: nat)
    requires forall a, b :: 0 <= a < b < |s| ==> s[a] <= s[b]
    requires forall v :: 0 <= v < world ==> multiset(s)[v] == n
    requires q < world && k < n && q * n + k < |s|
    ensures s[q * n + k] == q
  {
    EqualCountsBelow(s, n, world, q);
    EqualCountsBelow(s, n, world, q + 1);
    SortedPrefix(s, q, q * n + k);
    SortedPrefix(s, q + 1, q * n + k);
    assert (q + 1) * n == q * n + n;
  }

  lemma {:induction false} BlocksHaveEqualCounts(s: seq<nat>, n: nat, world: nat, d: nat)
    requires n > 0 && |s| == world * n
    requires forall j {:trigger s[j]} :: 0 <= j < |s| ==> s[j] == j / n
    requires d < world
    ensures multiset(s)[d] == n
    decreases world
  {
    var m := (world - 1) * n;
    assert m + n == |s|;
    var front, back := s[..m], s[m..];
    assert s == front + back;
    forall j | 0 <= j < n ensures back[j] == world - 1 {
      DivModUnique(world - 1, n, j);
      assert back[j] == s[m + j];
    }
    ConstantCount(back, world - 1, d);
    if d < world - 1 {
      BlocksHaveEqualCounts(front, n, world - 1, d);
    } else {
      forall j | 0 <= j < m ensures front[j] != d {
        BlockIndex(world - 1, n, j);
        assert front[j] == s[j];
      }
      assert d !in front;
    }
  }

  lemma {:induction false} ConstantCount(s: seq<nat>, v: nat, d: nat)
    requires forall j :: 0 <= j < |s| ==> s[j] == v
    ensures multiset(s)[d] == if d == v then |s| else 0
  {
    if s != [] {
      ConstantCount(s[1..], v, d);
      assert s == [s[0]] + s[1..];
    }
  }

  lemma SortedDest(sh: Shape, ids: seq<nat>)
    requires sh.local > 0
    ensures var s := Gather(Dest(ids, sh.local), SortIdx(ids, sh.local));
            && s == Dest(SendIds(ids, sh.local), sh.local)
            && multiset(s) == multiset(Dest(ids, sh.local))
            && forall a, b :: 0 <= a < b < |s| ==> s[a] <= s[b]
  {
    var d, p := Dest(ids, sh.local), SortIdx(ids, sh.local);
    GatherKeepsElements(d, p);
    var s := Gather(d, p);
    forall a, b | 0 <= a < b < |s| ensures s[a] <= s[b] {
      assert Before(d, p[a], p[b]);
    }
    assert s == Dest(SendIds(ids, sh.local), sh.local);
  }

  lemma OwnerRange(id: nat, local: nat, rank: nat)
    requires local > 0
    ensures id / local == rank <==> rank * local <= id < (rank + 1) * local
  {
    if rank * local <= id < (rank + 1) * local {
      DivModUnique(rank, local, id - rank * local);
    }
    if id / local == rank {
      assert id == rank * local + id % local;
    }
  }

  lemma LandsIffBlock(sh: Shape, j: nat, id: nat)
    requires sh.Valid() && j < sh.slots
    ensures sh.perDest > 0 && (LandsAtOwner(sh, j, id) <==> id / sh.local == j / sh.perDest)
  {
    BlockIndex(sh.world, sh.perDest, j);
    OwnerRange(id, sh.local, j / sh.perDest);
  }

  /** The equal-count assertion is exactly the condition under which equal splits deliver every slot. */
  lemma EqualCountsIffDelivered(sh: Shape, ids: seq<nat>)
    requires sh.Valid() && |ids| == sh.slots
    ensures EqualCounts(sh, ids) <==> Delivered(sh, ids)
  {
    var s := Dest(SendIds(ids, sh.local), sh.local);
    SortedDest(sh, ids);
    if EqualCounts(sh, ids) {
      forall j | 0 <= j < sh.slots ensures LandsAtOwner(sh, j, SendIds(ids, sh.local)[j]) {
        SortedEqualBlocks(s, sh.perDest, sh.world, j);
        LandsIffBlock(sh, j, SendIds(ids, sh.local)[j]);
      }
    }
    if Delivered(sh, ids) {
      forall d | 0 <= d < sh.world ensures multiset(Dest(ids, sh.local))[d] == sh.perDest {
        forall j | 0 <= j < |s| ensures sh.perDest > 0 && s[j] == j / sh.perDest {
          LandsIffBlock(sh, j, SendIds(ids, sh.local)[j]);
        }
        if sh.perDest == 0 {
          assert s == [];
        } else {
          BlocksHaveEqualCounts(s, sh.perDest, sh.world, d);
        }
      }
    }
  }

  predicate AllBalanced(sh: Shape, rs: seq<Routing>)
    requires ValidRoutings(sh, rs)
  {
    forall r :: 0 <= r < sh.world ==> EqualCounts(sh, rs[r].ids)
  }

  /** Every id a rank receives names one of its own experts. */
  lemma ReceivedIdsAreLocal(sh: Shape, rs: seq<Routing>, rank: nat, j: nat)
    requires ValidRoutings(sh, rs) && AllBalanced(sh, rs)
    requires rank < sh.world && j < sh.slots
    ensures OnRank(sh, rank, Exchange(IdSends(sh, rs), sh.perDest)[rank][j])
  {
    var n := sh.perDest;
    ReceivedAt(IdSends(sh, rs), n, rank, j);
    var q, pos := j / n, rank * n + j % n;
    EqualCountsIffDelivered(sh, rs[q].ids);
    assert LandsAtOwner(sh, pos, SendIds(rs[q].ids, sh.local)[pos]);
  }

  /** What becomes of a rank's slots, in sorted order: the slot's value if the equal split carries it
      to the owner of its expert, and zero if it lands on another rank. */
  function Arrived<V>(sp: Space<V>, f: Expert<V>, sh: Shape, rs: seq<Routing>, xs: seq<seq<V>>): (s: seq<seq<V>>)
    requires ValidGroup(sh, rs, xs)
    ensures |s| == sh.world && EqualSplit(s, sh.perDest)
  {
    seq(sh.world, r requires 0 <= r < sh.world => ArrivedOf(sp, f, sh, rs[r], xs[r]))
  }

  function ArrivedOf<V>(sp: Space<V>, f: Expert<V>, sh: Shape, r: Routing, x: seq<V>): (s: seq<V>)
    requires sh.Valid() && |r.ids| == |r.weights| == sh.slots && |x| == sh.tokens
    ensures |s| == sh.slots
  {
    seq(sh.slots, j requires 0 <= j < sh.slots =>
      if LandsAtOwner(sh, j, SendIds(r.ids, sh.local)[j])
      then sp.scale(SendW(sh, r)[j], f(SendIds(r.ids, sh.local)[j], SendX(sh, r, x)[j]))
      else sp.zero)
  }

  lemma OutAt<V>(sp: Space<V>, f: Expert<V>, sh: Shape, rs: seq<Routing>, xs: seq<seq<V>>, r: nat, j: nat)
    requires ValidGroup(sh, rs, xs) && r < sh.world && j < sh.slots
    ensures Outs(sp, f, sh, rs, xs)[r][j] == Exchange(Arrived(sp, f, sh, rs, xs), sh.perDest)[r][j]
  {
    hide SendX, SendIds, SendW, Exchange, LandsAtOwner, OnRank;
    var n := sh.perDest;
    ReceivedAt(Arrived(sp, f, sh, rs, xs), n, r, j);
    ReceivedAt(Sends(sh, rs, xs), n, r, j);
    ReceivedAt(IdSends(sh, rs), n, r, j);
    ReceivedAt(WSends(sh, rs), n, r, j);
    var q, pos := j / n, r * n + j % n;
    var x, id, w := SendX(sh, rs[q], xs[q])[pos], SendIds(rs[q].ids, sh.local)[pos], SendW(sh, rs[q])[pos];
    LandsIsOnRank(sh, r, j, id);
    assert Arrived(sp, f, sh, rs, xs)[q][pos] == ArrivedOf(sp, f, sh, rs[q], xs[q])[pos];
  }

  lemma LandsIsOnRank(sh: Shape, r: nat, j: nat, id: nat)
    requires sh.Valid() && r < sh.world && j < sh.slots
    ensures 0 <= r * sh.perDest + j % sh.perDest < sh.slots
    ensures LandsAtOwner(sh, r * sh.perDest + j % sh.perDest, id) == OnRank(sh, r, id)
  {
    BlockIndex(sh.world, sh.perDest, j);
    InBlock(sh.world, sh.perDest, r, j % sh.perDest);
  }

  /** Balanced or not, what comes back to a rank is its own slots, each in its place. */
  lemma CombinedIsArrived<V>(sp: Space<V>, f: Expert<V>, sh: Shape, rs: seq<Routing>, xs: seq<seq<V>>)
    requires ValidGroup(sh, rs, xs)
    ensures Combined(sp, f, sh, rs, xs) == Arrived(sp, f, sh, rs, xs)
  {
    var outs, back := Outs(sp, f, sh, rs, xs), Exchange(Arrived(sp, f, sh, rs, xs), sh.perDest);
    forall r | 0 <= r < sh.world ensures outs[r] == back[r] {
      forall j | 0 <= j < sh.slots ensures outs[r][j] == back[r][j] {
        OutAt(sp, f, sh, rs, xs, r, j);
      }
    }
    assert outs == back;
    ExchangeIsInvolution(Arrived(sp, f, sh, rs, xs), sh.perDest);
  }

  /** What sorted position `j` carries: the slot `sort_idx[j]`. */
  lemma SentAt<V>(sh: Shape, r: Routing, x: seq<V>, i: nat, j: nat)
    requires sh.Valid() && |r.ids| == |r.weights| == sh.slots && |x| == sh.tokens && i < sh.slots
    requires j == InvSortIdx(r.ids, sh.local)[i]
    ensures sh.topk > 0 && 0 <= i / sh.topk < |x| && j < sh.slots
    ensures SendX(sh, r, x)[j] == x[i / sh.topk]
    ensures SendIds(r.ids, sh.local)[j] == r.ids[i]
    ensures SendW(sh, r)[j] == r.weights[i]
  {
    BlockIndex(sh.tokens, sh.topk, i);
    assert SortIdx(r.ids, sh.local)[j] == i;
  }

  /** The row that ends up in slot `i` after `index_select(0, inv_sort_idx)`. */
  lemma UnpermutedSlot<V>(sp: Space<V>, f: Expert<V>, sh: Shape, r: Routing, x: seq<V>, i: nat)
    requires sh.Valid() && |r.ids| == |r.weights| == sh.slots && |x| == sh.tokens && i < sh.slots
    ensures sh.topk > 0 && 0 <= i / sh.topk < |x|
    ensures Gather(ArrivedOf(sp, f, sh, r, x), InvSortIdx(r.ids, sh.local))[i]
            == if LandsAtOwner(sh, InvSortIdx(r.ids, sh.local)[i], r.ids[i])
               then SlotValue(sp, f, sh.topk, r, x, i) else sp.zero
  {
    var j := InvSortIdx(r.ids, sh.local)[i];
    SentAt(sh, r, x, i, j);
    var lands := LandsAtOwner(sh, j, r.ids[i]);
    assert ArrivedOf(sp, f, sh, r, x)[j] == if lands then SlotValue(sp, f, sh.topk, r, x, i) else sp.zero;
  }

  lemma DeliveredSlot(sh: Shape, ids: seq<nat>, i: nat)
    requires sh.Valid() && |ids| == sh.slots && i < sh.slots
    requires Delivered(sh, ids)
    ensures LandsAtOwner(sh, InvSortIdx(ids, sh.local)[i], ids[i])
  {
    var j := InvSortIdx(ids, sh.local)[i];
    assert SendIds(ids, sh.local)[j] == ids[i];
  }

  /** Main result: with balanced routing the five steps give every rank the dense layer. */
  lemma EpLayerIsDense<V>(sp: Space<V>, f: Expert<V>, sh: Shape, rs: seq<Routing>, xs: seq<seq<V>>)
    requires ValidGroup(sh, rs, xs) && AllBalanced(sh, rs)
    ensures EpLayer(sp, f, sh, rs, xs) == DenseGroup(sp, f, sh, rs, xs)
  {
    CombinedIsArrived(sp, f, sh, rs, xs);
    forall r | 0 <= r < sh.world
      ensures EpLayer(sp, f, sh, rs, xs)[r] == DenseGroup(sp, f, sh, rs, xs)[r]
    {
      EqualCountsIffDelivered(sh, rs[r].ids);
      var slots := Gather(ArrivedOf(sp, f, sh, rs[r], xs[r]), InvSortIdx(rs[r].ids, sh.local));
      forall i | 0 <= i < sh.slots
        ensures sh.topk > 0 && 0 <= i / sh.topk < |xs[r]| && slots[i] == SlotValue(sp, f, sh.topk, rs[r], xs[r], i)
      {
        UnpermutedSlot(sp, f, sh, rs[r], xs[r], i);
        DeliveredSlot(sh, rs[r].ids, i);
      }
      SlotsSumToDense(sp, f, sh.topk, rs[r], xs[r], slots);
    }
  }

  // ---- The converse: an unbalanced rank loses a slot ----

  /** One-dimensional hidden states, enough to exhibit a difference. */
  const LINE: Space<real> := Space(0.0, (a: real, b: real) => a + b, (a: real, b: real) => a * b)

  lemma {:induction false} SumMonotone(a: seq<real>, b: seq<real>, k: nat)
    requires |a| == |b| && k < |a|
    requires forall i :: 0 <= i < |a| ==> a[i] <= b[i]
    requires a[k] < b[k]
    ensures Sum(LINE, a) < Sum(LINE, b)
    decreases |a|
  {
    var n := |a| - 1;
    if k < n { SumMonotone(a[..n], b[..n], k); } else { SumWeakMonotone(a[..n], b[..n]); }
  }

  lemma {:induction false} SumWeakMonotone(a: seq<real>, b: seq<real>)
    requires |a| == |b|
    requires forall i :: 0 <= i < |a| ==> a[i] <= b[i]
    ensures Sum(LINE, a) <= Sum(LINE, b)
  {
    if a != [] { SumWeakMonotone(a[..|a| - 1], b[..|b| - 1]); }
  }

  /** A slot that comes back smaller makes its token's sum smaller. */
  lemma SmallerSlotShows(tokens: nat, topk: nat, a: seq<real>, b: seq<real>, i: nat)
    requires |a| == |b| == tokens * topk && i < |a|
    requires forall c :: 0 <= c < |a| ==> a[c] <= b[c]
    requires a[i] < b[i]
    ensures SumSlots(LINE, tokens, topk, a) != SumSlots(LINE, tokens, topk, b)
  {
    BlockIndex(tokens, topk, i);
    var t, k := i / topk, i % topk;
    BlockBounds(tokens, topk, t);
    assert i == t * topk + k;
    SumMonotone(a[t * topk..t * topk + topk], b[t * topk..t * topk + topk], k);
    assert SumSlots(LINE, tokens, topk, a)[t] < SumSlots(LINE, tokens, topk, b)[t];
  }

  const ONE: Expert<real> := (id: nat, v: real) => 1.0

  function DenseSlots(topk: nat, r: Routing, x: seq<real>): (s: seq<real>)
    requires |r.ids| == |r.weights| == |x| * topk
    ensures |s| == |r.ids|
    ensures forall i {:trigger s[i]} :: 0 <= i < |s| ==>
              topk > 0 && i / topk < |x| && s[i] == SlotValue(LINE, ONE, topk, r, x, i)
  {
    seq(|r.ids|, i requires 0 <= i < |r.ids| =>
      BlockIndex(|x|, topk, i);
      SlotValue(LINE, ONE, topk, r, x, i))
  }

  lemma DenseSlotsSum(topk: nat, r: Routing, x: seq<real>)
    requires |r.ids| == |r.weights| == |x| * topk
    ensures SumSlots(LINE, |x|, topk, DenseSlots(topk, r, x)) == Dense(LINE, ONE, topk, r, x)
  {
    SlotsSumToDense(LINE, ONE, topk, r, x, DenseSlots(topk, r, x));
  }

  lemma ReturnedSlot(sh: Shape, r: Routing, x: seq<real>, a: seq<real>, b: seq<real>, c: nat)
    requires sh.Valid() && |r.ids| == |r.weights| == sh.slots && |x| == sh.tokens && c < sh.slots
    requires a == Gather(ArrivedOf(LINE, ONE, sh, r, x), InvSortIdx(r.ids, sh.local))
    requires b == DenseSlots(sh.topk, r, x)
    requires r.weights[c] > 0.0
    ensures a[c] <= b[c]
    ensures !LandsAtOwner(sh, InvSortIdx(r.ids, sh.local)[c], r.ids[c]) ==> a[c] < b[c]
  {
    UnpermutedSlot(LINE, ONE, sh, r, x, c);
  }

  lemma LostSlotShowsInToken(sh: Shape, r: Routing, x: seq<real>, a: seq<real>, i: nat)
    requires sh.Valid() && |r.ids| == |r.weights| == sh.slots && |x| == sh.tokens
    requires forall c :: 0 <= c < sh.slots ==> r.weights[c] > 0.0
    requires i < sh.slots && !LandsAtOwner(sh, InvSortIdx(r.ids, sh.local)[i], r.ids[i])
    requires a == Gather(ArrivedOf(LINE, ONE, sh, r, x), InvSortIdx(r.ids, sh.local))
    ensures SumSlots(LINE, sh.tokens, sh.topk, a) != SumSlots(LINE, sh.tokens, sh.topk, DenseSlots(sh.topk, r, x))
  {
    var b := DenseSlots(sh.topk, r, x);
    forall c | 0 <= c < sh.slots ensures a[c] <= b[c] {
      ReturnedSlot(sh, r, x, a, b, c);
    }
    ReturnedSlot(sh, r, x, a, b, i);
    SmallerSlotShows(sh.tokens, sh.topk, a, b, i);
  }

  lemma LostSlot(sh: Shape, ids: seq<nat>) returns (i: nat)
    requires sh.Valid() && |ids| == sh.slots && !EqualCounts(sh, ids)
    ensures i < sh.slots && !LandsAtOwner(sh, InvSortIdx(ids, sh.local)[i], ids[i])
  {
    EqualCountsIffDelivered(sh, ids);
    var j :| 0 <= j < sh.slots && !LandsAtOwner(sh, j, SendIds(ids, sh.local)[j]);
    i := SortIdx(ids, sh.local)[j];
    assert InvSortIdx(ids, sh.local)[i] == j;
  }

  /** With positive weights, a routing that fails the equal-count test makes the layer drop a slot. */
  lemma UnbalancedLosesASlot(sh: Shape, rs: seq<Routing>, xs: seq<seq<real>>, rank: nat)
    requires ValidGroup(sh, rs, xs) && rank < sh.world
    requires forall i :: 0 <= i < sh.slots ==> rs[rank].weights[i] > 0.0
    requires !EqualCounts(sh, rs[rank].ids)
    ensures EpLayer(LINE, ONE, sh, rs, xs)[rank] != DenseGroup(LINE, ONE, sh, rs, xs)[rank]
  {
    var r, x := rs[rank], xs[rank];
    var i := LostSlot(sh, r.ids);
    LostSlotShowsInToken(sh, r, x, Gather(ArrivedOf(LINE, ONE, sh, r, x), InvSortIdx(r.ids, sh.local)), i);
    DenseSlotsSum(sh.topk, r, x);
    CombinedIsArrived(LINE, ONE, sh, rs, xs);
  }

  /** The layer computes the dense result for all experts and inputs exactly when every rank's
      destinations are balanced. */
  lemma EpLayerIsDenseIffBalanced(sh: Shape, rs: seq<Routing>)
    requires ValidRoutings(sh, rs)
    requires forall r, i :: 0 <= r < sh.world && 0 <= i < sh.slots ==> rs[r].weights[i] > 0.0
    ensures AllBalanced(sh, rs) <==>
            forall f: Expert<real>, xs: seq<seq<real>> | ValidGroup(sh, rs, xs) ::
              EpLayer(LINE, f, sh, rs, xs) == DenseGroup(LINE, f, sh, rs, xs)
  {
    if AllBalanced(sh, rs) {
      forall f: Expert<real>, xs: seq<seq<real>> | ValidGroup(sh, rs, xs)
        ensures EpLayer(LINE, f, sh, rs, xs) == DenseGroup(LINE, f, sh, rs, xs)
      {
        EpLayerIsDense(LINE, f, sh, rs, xs);
      }
    } else {
      var rank :| 0 <= rank < sh.world && !EqualCounts(sh, rs[rank].ids);
      var xs := seq(sh.world, _ => seq(sh.tokens, _ => 0.0));
      assert ValidGroup(sh, rs, xs);
      UnbalancedLosesASlot(sh, rs, xs, rank);
    }
  }
}
