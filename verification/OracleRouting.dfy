/** The oracle-uniform routing: slots sweep the global experts round-robin. */
module OracleRouting {
  import opened Arith
  import opened Permutations
  import opened Moe
  import opened EpDispatch
  import opened Wrappers

  /** `_make_oracle_uniform_local`: ids `(rank * M * K + arange(M * K)) % E`, weights all `1 / K`. */
  function OracleUniform(slots: nat, topk: nat, experts: nat, rank: nat): (r: Routing)
    requires experts > 0 && topk > 0
    ensures ValidRouting(r, slots, experts)
    ensures forall i :: 0 <= i < slots ==> r.ids[i] == (rank * slots + i) % experts
    ensures forall i :: 0 <= i < slots ==> r.weights[i] > 0.0
  {
    Routing(Sweep(rank * slots, slots, experts), seq(slots, i => 1.0 / topk as real))
  }

  function Sweep(start: nat, count: nat, experts: nat): (s: seq<nat>)
    requires experts > 0
    ensures |s| == count
    ensures forall i :: 0 <= i < count ==> s[i] == (start + i) % experts
  {
    seq(count, i requires 0 <= i < count => (start + i) % experts)
  }

  function OracleGroup(sh: Shape): (rs: seq<Routing>)
    requires sh.Valid() && sh.topk > 0
    ensures ValidRoutings(sh, rs)
    ensures forall r :: 0 <= r < sh.world ==> rs[r] == OracleUniform(sh.slots, sh.topk, sh.world * sh.local, r)
  {
    seq(sh.world, r requires 0 <= r < sh.world => OracleUniform(sh.slots, sh.topk, sh.world * sh.local, r))
  }

  lemma {:induction false} DistinctCount(s: seq<nat>, v: nat)
    requires forall i, j :: 0 <= i < j < |s| ==> s[i] != s[j]
    ensures multiset(s)[v] == if v in s then 1 else 0
  {
    if s != [] {
      DistinctCount(s[1..], v);
      assert s == [s[0]] + s[1..];
    }
  }

  /** One sweep of `experts` consecutive slots meets every expert once. */
  lemma FullSweep(start: nat, experts: nat, e: nat)
    requires experts > 0 && e < experts
    ensures multiset(Sweep(start, experts, experts))[e] == 1
  {
    SweepIsPermutation(start, experts);
    var s := Sweep(start, experts, experts);
    PermutationIsOnto(s, e);
    DistinctCount(s, e);
  }

  lemma SweepIsPermutation(start: nat, experts: nat)
    requires experts > 0
    ensures IsPermutation(Sweep(start, experts, experts))
  {
    var s := Sweep(start, experts, experts);
    forall i, j | 0 <= i < j < |s| ensures s[i] != s[j] {
      ModDistinct(start + i, start + j, experts);
    }
  }

  lemma {:induction false} SweepCounts(start: nat, rounds: nat, experts: nat, e: nat)
    requires experts > 0 && e < experts
    ensures multiset(Sweep(start, rounds * experts, experts))[e] == rounds
    decreases rounds
  {
    hide Sweep;
    if rounds > 0 {
      assert rounds * experts == experts + (rounds - 1) * experts;
      SweepSplits(start, experts, (rounds - 1) * experts, experts);
      FullSweep(start, experts, e);
      SweepCounts(start + experts, rounds - 1, experts, e);
    } else {
      assert rounds * experts == 0;
    }
  }

  lemma SweepSplits(start: nat, m: nat, n: nat, experts: nat)
    requires experts > 0
    ensures Sweep(start, m + n, experts) == Sweep(start, m, experts) + Sweep(start + m, n, experts)
  {}

  lemma {:induction false} DestCountBelow(ids: seq<nat>, local: nat, d: nat)
    requires local > 0
    ensures CountBelow(Dest(ids, local), d) == CountBelow(ids, d * local)
  {
    if ids != [] {
      var n := |ids| - 1;
      DestCountBelow(ids[..n], local, d);
      assert Dest(ids, local)[..n] == Dest(ids[..n], local);
      BelowBlock(ids[n], local, d);
    }
  }

  lemma BelowBlock(id: nat, local: nat, d: nat)
    requires local > 0
    ensures id / local < d <==> id < d * local
  {
    var q := id / local;
    assert id == q * local + id % local;
    assert q < d ==> (q + 1) * local <= d * local;
    assert q >= d ==> q * local >= d * local;
  }

  lemma ShareOfDest(world: nat, local: nat, rounds: nat, perDest: nat, d: nat)
    requires world > 0 && d < world && rounds * (world * local) == world * perDest
    ensures perDest == ((d + 1) * local) * rounds - (d * local) * rounds
    ensures d * local <= (d + 1) * local <= world * local
  {
    assert rounds * (world * local) == world * (local * rounds);
    Cancel(world, perDest, local * rounds);
    assert (d + 1) * local == d * local + local;
    assert (d * local + local) * rounds == (d * local) * rounds + local * rounds;
    MulMono(d + 1, world, local);
  }

  /** Each destination's count is the length of its range of experts times the count of one expert. */
  lemma EqualExpertsEqualDests(sh: Shape, ids: seq<nat>, rounds: nat, d: nat)
    requires sh.Valid() && d < sh.world && sh.slots == rounds * (sh.world * sh.local)
    requires forall e :: 0 <= e < sh.world * sh.local ==> multiset(ids)[e] == rounds
    ensures multiset(Dest(ids, sh.local))[d] == sh.perDest
  {
    hide Dest, CountBelow;
    var experts, lo, hi := sh.world * sh.local, d * sh.local, (d + 1) * sh.local;
    ShareOfDest(sh.world, sh.local, rounds, sh.perDest, d);
    CountBelowStep(Dest(ids, sh.local), d);
    DestCountBelow(ids, sh.local, d);
    DestCountBelow(ids, sh.local, d + 1);
    EqualCountsBelow(ids, rounds, experts, lo);
    EqualCountsBelow(ids, rounds, experts, hi);
  }

  /** When E divides M*K every expert gets M*K/E slots of every rank. */
  lemma OracleExpertCounts(slots: nat, topk: nat, experts: nat, rank: nat, e: nat)
    requires experts > 0 && topk > 0 && slots % experts == 0 && e < experts
    ensures multiset(OracleUniform(slots, topk, experts, rank).ids)[e] == slots / experts
  {
    assert slots == (slots / experts) * experts;
    SweepCounts(rank * slots, slots / experts, experts, e);
  }

  function ExpertLoad(rs: seq<Routing>, e: nat): nat {
    if rs == [] then 0 else ExpertLoad(rs[..|rs| - 1], e) + multiset(rs[|rs| - 1].ids)[e]
  }

  lemma {:induction false} EqualLoads(rs: seq<Routing>, e: nat, n: nat)
    requires forall r :: 0 <= r < |rs| ==> multiset(rs[r].ids)[e] == n
    ensures ExpertLoad(rs, e) == |rs| * n
  {
    if rs != [] { EqualLoads(rs[..|rs| - 1], e, n); }
  }

  /** Over all ranks each global expert receives exactly `world * M * K / E` slots. */
  lemma OracleLoadIsUniform(sh: Shape, e: nat)
    requires sh.Valid() && sh.topk > 0 && e < sh.world * sh.local
    requires sh.slots % (sh.world * sh.local) == 0
    ensures ExpertLoad(OracleGroup(sh), e) == sh.world * (sh.slots / (sh.world * sh.local))
  {
    var rs := OracleGroup(sh);
    forall r | 0 <= r < |rs|
      ensures multiset(rs[r].ids)[e] == sh.slots / (sh.world * sh.local)
    {
      OracleExpertCounts(sh.slots, sh.topk, sh.world * sh.local, r, e);
    }
    EqualLoads(rs, e, sh.slots / (sh.world * sh.local));
  }

  /** How many of the first `count` slots of rank 0 go to the experts below `local`. */
  function SweepShare(count: nat, experts: nat, local: nat): nat
    requires experts > 0
  {
    (count / experts) * local + (if count % experts < local then count % experts else local)
  }

  lemma SweepShareStep(n: nat, experts: nat, local: nat)
    requires experts > 0 && local <= experts
    ensures SweepShare(n + 1, experts, local) == SweepShare(n, experts, local) + (if n % experts < local then 1 else 0)
  {
    DivModStep(n, experts);
    var q := n / experts;
    assert (q + 1) * local == q * local + local;
  }

  lemma {:induction false} SweepCountBelow(count: nat, experts: nat, local: nat)
    requires experts > 0 && local <= experts
    ensures CountBelow(Sweep(0, count, experts), local) == SweepShare(count, experts, local)
    decreases count
  {
    hide SweepShare, Sweep, CountBelow;
    SweepShareOfNone(experts, local);
    NothingBelow(local);
    if count > 0 {
      var n := count - 1;
      SweepCountBelow(n, experts, local);
      SweepShareStep(n, experts, local);
      SweepExtends(n, experts);
      OneMoreBelow(Sweep(0, n, experts), n % experts, local);
    }
  }

  lemma NothingBelow(local: nat)
    ensures CountBelow([], local) == 0
  {}

  lemma OneMoreBelow(ids: seq<nat>, id: nat, local: nat)
    ensures CountBelow(ids + [id], local) == CountBelow(ids, local) + if id < local then 1 else 0
  {
    assert (ids + [id])[..|ids|] == ids;
  }

  lemma SweepShareOfNone(experts: nat, local: nat)
    requires experts > 0
    ensures SweepShare(0, experts, local) == 0 && Sweep(0, 0, experts) == []
  {}

  lemma SweepExtends(n: nat, experts: nat)
    requires experts > 0
    ensures Sweep(0, n + 1, experts) == Sweep(0, n, experts) + [n % experts]
  {}

  /** Blocks 0 and up share `q` whole sweeps evenly; a rest shorter than a sweep cannot be shared. */
  lemma RestCannotBeShared(world: nat, local: nat, q: nat, rem: nat, part: nat)
    requires world > 0 && local > 0 && rem < world * local
    requires part == if rem < local then rem else local
    requires world * (q * local + part) == q * (world * local) + rem
    ensures world == 1 || rem == 0
  {
    assert world * (q * local + part) == world * (q * local) + world * part;
    assert world * (q * local) == q * (world * local);
    assert world * part == rem;
    if part == rem {
      assert (world - 1) * rem == 0;
    }
  }

  lemma EvenShareMeansWholeSweeps(world: nat, local: nat, slots: nat, perDest: nat)
    requires world > 0 && local > 0 && world * local > 0 && slots == world * perDest
    requires perDest == SweepShare(slots, world * local, local)
    ensures world == 1 || slots % (world * local) == 0
  {
    var experts := world * local;
    var q, rem := slots / experts, slots % experts;
    assert slots == q * experts + rem;
    RestCannotBeShared(world, local, q, rem, if rem < local then rem else local);
  }

  /** Rank 0 splits its slots evenly only over one rank or over whole sweeps. */
  lemma RankZeroBalance(sh: Shape)
    requires sh.Valid() && sh.topk > 0
    requires EqualCounts(sh, OracleGroup(sh)[0].ids)
    ensures sh.world == 1 || sh.slots % (sh.world * sh.local) == 0
  {
    var experts, ids := sh.world * sh.local, OracleGroup(sh)[0].ids;
    assert ids == Sweep(0, sh.slots, experts);
    FirstDestCount(ids, sh.local);
    assert multiset(Dest(ids, sh.local))[0] == sh.perDest;
    MulMono(1, sh.world, sh.local);
    SweepCountBelow(sh.slots, experts, sh.local);
    EvenShareMeansWholeSweeps(sh.world, sh.local, sh.slots, sh.perDest);
  }

  lemma FirstDestCount(ids: seq<nat>, local: nat)
    requires local > 0
    ensures multiset(Dest(ids, local))[0] == CountBelow(ids, local)
  {
    hide Dest, CountBelow;
    DestCountBelow(ids, local, 0);
    DestCountBelow(ids, local, 1);
    NoneBelow(ids);
    CountBelowStep(Dest(ids, local), 0);
  }

  /** The equal splits of an exchange fit oracle-uniform routing exactly when there is one rank or
      E divides M*K; the hybrid's own test, that the number of ranks divides M*K, is weaker. */
  lemma OracleBalancedIff(sh: Shape)
    requires sh.Valid() && sh.topk > 0
    ensures AllBalanced(sh, OracleGroup(sh)) <==> sh.world == 1 || sh.slots % (sh.world * sh.local) == 0
  {
    if AllBalanced(sh, OracleGroup(sh)) { RankZeroBalance(sh); }
    if sh.slots % (sh.world * sh.local) == 0 { WholeSweepsBalance(sh); }
    if sh.world == 1 { OneRankIsBalanced(sh, OracleGroup(sh)); }
  }

  lemma WholeSweepsBalance(sh: Shape)
    requires sh.Valid() && sh.topk > 0 && sh.slots % (sh.world * sh.local) == 0
    ensures AllBalanced(sh, OracleGroup(sh))
  {
    var rs, experts := OracleGroup(sh), sh.world * sh.local;
    var rounds := sh.slots / experts;
    assert sh.slots == rounds * experts;
    forall r, d | 0 <= r < sh.world && 0 <= d < sh.world
      ensures multiset(Dest(rs[r].ids, sh.local))[d] == sh.perDest
    {
      forall e | 0 <= e < experts ensures multiset(rs[r].ids)[e] == rounds {
        OracleExpertCounts(sh.slots, sh.topk, experts, r, e);
      }
      EqualExpertsEqualDests(sh, rs[r].ids, rounds, d);
    }
  }

  lemma OneRankIsBalanced(sh: Shape, rs: seq<Routing>)
    requires ValidRoutings(sh, rs) && sh.world == 1
    ensures AllBalanced(sh, rs)
  {
    var d := Dest(rs[0].ids, sh.local);
    forall i | 0 <= i < |d| ensures d[i] == 0 { OwnerRange(rs[0].ids[i], sh.local, 0); }
    ConstantCount(d, 0, 0);
  }

  /** The expert-parallel layer under oracle-uniform routing is dense for all experts and inputs
      exactly under that condition. */
  lemma OracleLayerIsDenseIff(sh: Shape)
    requires sh.Valid() && sh.topk > 0
    ensures (forall f: Expert<real>, xs: seq<seq<real>> | ValidGroup(sh, OracleGroup(sh), xs) ::
               EpLayer(LINE, f, sh, OracleGroup(sh), xs) == DenseGroup(LINE, f, sh, OracleGroup(sh), xs))
            <==> sh.world == 1 || sh.slots % (sh.world * sh.local) == 0
  {
    OracleBalancedIff(sh);
    EpLayerIsDenseIffBalanced(sh, OracleGroup(sh));
  }

  /** Sizes the hybrid accepts although the layer then goes wrong: 2 ranks, 4 experts, 1 token, top-2. */
  lemma HybridCheckIsTooWeak()
    ensures var sh := Shape(2, 2, 1, 2, 2, 1);
            && MakeShape(2, 4, 1, 2) == Some(sh)
            && !AllBalanced(sh, OracleGroup(sh))
  {
    OracleBalancedIff(Shape(2, 2, 1, 2, 2, 1));
  }

  /** A token's experts are pairwise distinct exactly when there are at least K of them. */
  lemma TokenExpertsDistinctIff(tokens: nat, topk: nat, experts: nat, rank: nat)
    requires experts > 0 && topk > 0 && tokens > 0
    ensures topk <= experts <==>
            forall t, a, b :: 0 <= t < tokens && 0 <= a < b < topk ==>
              Slot(OracleUniform(tokens * topk, topk, experts, rank).ids, tokens, topk, t, a)
              != Slot(OracleUniform(tokens * topk, topk, experts, rank).ids, tokens, topk, t, b)
  {
    var ids, start := OracleUniform(tokens * topk, topk, experts, rank).ids, rank * (tokens * topk);
    if topk <= experts {
      forall t, a, b | 0 <= t < tokens && 0 <= a < b < topk
        ensures Slot(ids, tokens, topk, t, a) != Slot(ids, tokens, topk, t, b)
      {
        InBlock(tokens, topk, t, a);
        InBlock(tokens, topk, t, b);
        ModDistinct(start + (t * topk + a), start + (t * topk + b), experts);
      }
    } else {
      InBlock(tokens, topk, 0, experts);
      AddModulus(start, experts);
      assert Slot(ids, tokens, topk, 0, 0) == Slot(ids, tokens, topk, 0, experts);
    }
  }

  /** `ids.view(M, K)[t, k]` */
  function Slot(ids: seq<nat>, tokens: nat, topk: nat, t: nat, k: nat): nat
    requires |ids| == tokens * topk && t < tokens && k < topk
  {
    InBlock(tokens, topk, t, k);
    ids[t * topk + k]
  }

  // ---- Weights ----

  lemma {:induction false} SumOfEqual(s: seq<real>, w: real)
    requires forall i :: 0 <= i < |s| ==> s[i] == w
    ensures Sum(LINE, s) == |s| as real * w
  {
    if s != [] {
      var n := |s| - 1;
      SumOfEqual(s[..n], w);
      assert (n as real + 1.0) * w == n as real * w + w;
    }
  }

  /** Every token spreads a weight of 1 evenly over its K experts. */
  lemma OracleWeightsAverage(tokens: nat, topk: nat, experts: nat, rank: nat, t: nat)
    requires experts > 0 && topk > 0 && t < tokens
    ensures 0 <= t * topk <= t * topk + topk <= tokens * topk
    ensures var w := OracleUniform(tokens * topk, topk, experts, rank).weights[t * topk..t * topk + topk];
            (forall a, b :: 0 <= a < topk && 0 <= b < topk ==> w[a] == w[b]) && Sum(LINE, w) == 1.0
  {
    BlockBounds(tokens, topk, t);
    var w := OracleUniform(tokens * topk, topk, experts, rank).weights[t * topk..t * topk + topk];
    SumOfEqual(w, 1.0 / topk as real);
    WholeOfParts(topk as real);
  }

  lemma WholeOfParts(k: real)
    requires k > 0.0
    ensures k * (1.0 / k) == 1.0
  {}

  /** So on every rank a layer whose experts all answer 1 answers 1 to every token. */
  lemma OracleLayerOfOnes(sh: Shape, rank: nat, x: seq<real>, t: nat)
    requires sh.Valid() && sh.topk > 0 && rank < sh.world && |x| == sh.tokens && t < sh.tokens
    ensures Dense(LINE, (id: nat, v: real) => 1.0, sh.topk, OracleGroup(sh)[rank], x)[t] == 1.0
  {
    var r, ones: Expert<real> := OracleGroup(sh)[rank], (id: nat, v: real) => 1.0;
    OracleWeightsAverage(sh.tokens, sh.topk, sh.world * sh.local, rank, t);
    assert DenseRow(LINE, ones, sh.topk, r, x, t) == r.weights[t * sh.topk..t * sh.topk + sh.topk];
  }
}
