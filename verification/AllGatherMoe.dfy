/** Expert parallelism by all-gather: every rank sees all tokens, runs the experts it owns, and the
    partial results are summed over ranks. */
module AllGatherMoe {
  import opened Arith
  import opened Permutations
  import opened Moe
  import opened EpDispatch

  datatype Choice = Choice(id: nat, weight: real)

  /** The replicated router: it reads one hidden vector and names `topk` experts with weights. */
  type Gate<!V> = V -> seq<Choice>

  ghost predicate ValidGate<V(!new)>(gate: Gate<V>, topk: nat, experts: nat) {
    && (forall v :: |gate(v)| == topk)
    && (forall v, k :: 0 <= k < topk && k < |gate(v)| ==> gate(v)[k].id < experts)
  }

  ghost predicate CommutativeMonoid<V(!new)>(sp: Space<V>) {
    && (forall a, b :: sp.add(a, b) == sp.add(b, a))
    && (forall a, b, c :: sp.add(sp.add(a, b), c) == sp.add(a, sp.add(b, c)))
    && (forall a :: sp.add(sp.zero, a) == a)
  }

  predicate ValidInputs<V>(sh: Shape, xs: seq<seq<V>>) {
    && sh.world > 0 && sh.local > 0
    && |xs| == sh.world
    && forall r :: 0 <= r < sh.world ==> |xs[r]| == sh.tokens
  }

  /** `torch.cat(gathered, dim=0)` */
  function Gathered<V>(sh: Shape, xs: seq<seq<V>>): (x: seq<V>)
    requires ValidInputs(sh, xs)
    ensures |x| == sh.world * sh.tokens
  {
    seq(sh.world * sh.tokens, g requires 0 <= g < sh.world * sh.tokens =>
      BlockIndex(sh.world, sh.tokens, g);
      xs[g / sh.tokens][g % sh.tokens])
  }

  /** `torch.where(on_rank, ids_global - lo, SENTINEL)` with sentinel `local` */
  function LocalId(sh: Shape, rank: nat, id: nat): nat {
    if OnRank(sh, rank, id) then id - rank * sh.local else sh.local
  }

  /** The local experts on one token: a slot whose local id is not below `local` contributes zero. */
  function LocalTerms<V>(sp: Space<V>, f: Expert<V>, sh: Shape, rank: nat, x: V, cs: seq<Choice>): (t: seq<V>)
    ensures |t| == |cs|
  {
    seq(|cs|, k requires 0 <= k < |cs| =>
      var id := LocalId(sh, rank, cs[k].id);
      if id < sh.local then sp.scale(cs[k].weight, f(rank * sh.local + id, x)) else sp.zero)
  }

  /** What rank `rank` holds for every gathered token before the all-reduce. */
  function Partial<V>(sp: Space<V>, f: Expert<V>, gate: Gate<V>, sh: Shape, rank: nat, x: seq<V>): (p: seq<V>)
    ensures |p| == |x|
  {
    seq(|x|, g requires 0 <= g < |x| => Sum(sp, LocalTerms(sp, f, sh, rank, x[g], gate(x[g]))))
  }

  /** One element of an all-reduce that adds the ranks' contributions in some order. */
  function Reduced<V>(sp: Space<V>, parts: seq<seq<V>>, order: seq<nat>, g: nat): V
    requires forall i :: 0 <= i < |order| ==> order[i] < |parts|
    requires forall r :: 0 <= r < |parts| ==> g < |parts[r]|
  {
    Sum(sp, Contributions(parts, order, g))
  }

  function Contributions<V>(parts: seq<seq<V>>, order: seq<nat>, g: nat): (c: seq<V>)
    requires forall i :: 0 <= i < |order| ==> order[i] < |parts|
    requires forall r :: 0 <= r < |parts| ==> g < |parts[r]|
    ensures |c| == |order|
    ensures forall i :: 0 <= i < |order| ==> c[i] == parts[order[i]][g]
  {
    seq(|order|, i requires 0 <= i < |order| => parts[order[i]][g])
  }

  /** The contributions to one token, by rank in summation order. */
  function TokenContributions<V>(sp: Space<V>, f: Expert<V>, sh: Shape, order: seq<nat>, x: V,
                                 cs: seq<Choice>): (c: seq<V>)
    ensures |c| == |order|
    ensures forall i :: 0 <= i < |order| ==> c[i] == Sum(sp, LocalTerms(sp, f, sh, order[i], x, cs))
  {
    seq(|order|, i requires 0 <= i < |order| => Sum(sp, LocalTerms(sp, f, sh, order[i], x, cs)))
  }

  /** The contributions to one slot of a token. */
  function SlotContributions<V>(sp: Space<V>, f: Expert<V>, sh: Shape, order: seq<nat>, x: V, cs: seq<Choice>,
                                k: nat): (c: seq<V>)
    requires k < |cs|
    ensures |c| == |order|
    ensures forall i :: 0 <= i < |order| ==> c[i] == LocalTerms(sp, f, sh, order[i], x, cs)[k]
  {
    seq(|order|, i requires 0 <= i < |order| => LocalTerms(sp, f, sh, order[i], x, cs)[k])
  }

  function DenseTerms<V>(sp: Space<V>, f: Expert<V>, x: V, cs: seq<Choice>): (t: seq<V>)
    ensures |t| == |cs|
  {
    seq(|cs|, k requires 0 <= k < |cs| => sp.scale(cs[k].weight, f(cs[k].id, x)))
  }

  // ---- Sums over ranks and slots ----

  function Pairwise<V>(sp: Space<V>, a: seq<V>, b: seq<V>): (c: seq<V>)
    requires |a| == |b|
    ensures |c| == |a|
  {
    seq(|a|, i requires 0 <= i < |a| => sp.add(a[i], b[i]))
  }

  lemma {:induction false} SumOfPairwise<V(!new)>(sp: Space<V>, a: seq<V>, b: seq<V>)
    requires CommutativeMonoid(sp) && |a| == |b|
    ensures Sum(sp, Pairwise(sp, a, b)) == sp.add(Sum(sp, a), Sum(sp, b))
  {
    if a != [] {
      hide CommutativeMonoid;
      var n := |a| - 1;
      SumOfPairwise(sp, a[..n], b[..n]);
      assert Pairwise(sp, a, b)[..n] == Pairwise(sp, a[..n], b[..n]);
      AddFour(sp, Sum(sp, a[..n]), Sum(sp, b[..n]), a[n], b[n]);
    } else {
      assert sp.add(sp.zero, sp.zero) == sp.zero;
    }
  }

  lemma AddFour<V(!new)>(sp: Space<V>, a: V, b: V, x: V, y: V)
    requires CommutativeMonoid(sp)
    ensures sp.add(sp.add(a, b), sp.add(x, y)) == sp.add(sp.add(a, x), sp.add(b, y))
  {
    calc {
      sp.add(sp.add(a, b), sp.add(x, y));
      sp.add(a, sp.add(b, sp.add(x, y)));
      sp.add(a, sp.add(sp.add(b, x), y));
      sp.add(a, sp.add(sp.add(x, b), y));
      sp.add(a, sp.add(x, sp.add(b, y)));
      sp.add(sp.add(a, x), sp.add(b, y));
    }
  }

  lemma {:induction false} SumOfZeros<V(!new)>(sp: Space<V>, a: seq<V>)
    requires CommutativeMonoid(sp)
    requires forall i :: 0 <= i < |a| ==> a[i] == sp.zero
    ensures Sum(sp, a) == sp.zero
  {
    if a != [] { SumOfZeros(sp, a[..|a| - 1]); }
  }

  lemma OneTerm<V(!new)>(sp: Space<V>, a: seq<V>, k: nat)
    requires CommutativeMonoid(sp) && k < |a|
    requires forall i :: 0 <= i < |a| && i != k ==> a[i] == sp.zero
    ensures Sum(sp, a) == a[k]
    decreases |a|
  {
    var n := |a| - 1;
    if k == n {
      SumOfZeros(sp, a[..n]);
    } else {
      OneTerm(sp, a[..n], k);
      assert sp.add(a[k], sp.zero) == sp.add(sp.zero, a[k]);
    }
  }

  /** Column sums of a list of equally long rows. */
  function ColumnSums<V>(sp: Space<V>, rows: seq<seq<V>>, width: nat): (c: seq<V>)
    requires forall i :: 0 <= i < |rows| ==> |rows[i]| == width
    ensures |c| == width
  {
    seq(width, k requires 0 <= k < width => Sum(sp, Column(rows, width, k)))
  }

  function Column<V>(rows: seq<seq<V>>, width: nat, k: nat): (c: seq<V>)
    requires forall i :: 0 <= i < |rows| ==> |rows[i]| == width
    requires k < width
    ensures |c| == |rows|
  {
    seq(|rows|, i requires 0 <= i < |rows| => rows[i][k])
  }

  function RowSums<V>(sp: Space<V>, rows: seq<seq<V>>): (c: seq<V>)
    ensures |c| == |rows|
  {
    seq(|rows|, i requires 0 <= i < |rows| => Sum(sp, rows[i]))
  }

  /** The double sum may be taken in either order. */
  lemma {:induction false} SumsCommute<V(!new)>(sp: Space<V>, rows: seq<seq<V>>, width: nat)
    requires CommutativeMonoid(sp)
    requires forall i :: 0 <= i < |rows| ==> |rows[i]| == width
    ensures Sum(sp, RowSums(sp, rows)) == Sum(sp, ColumnSums(sp, rows, width))
  {
    hide CommutativeMonoid;
    if rows == [] {
      SumOfZeros(sp, ColumnSums(sp, rows, width));
    } else {
      var n := |rows| - 1;
      var front, last := rows[..n], rows[n];
      SumsCommute(sp, front, width);
      assert RowSums(sp, rows)[..n] == RowSums(sp, front);
      SumOfPairwise(sp, ColumnSums(sp, front, width), last);
      forall k | 0 <= k < width
        ensures ColumnSums(sp, rows, width)[k] == Pairwise(sp, ColumnSums(sp, front, width), last)[k]
      {
        assert Column(rows, width, k)[..n] == Column(front, width, k);
      }
      assert ColumnSums(sp, rows, width) == Pairwise(sp, ColumnSums(sp, front, width), last);
    }
  }

  /** A slot is on-rank for exactly the rank that owns its expert. */
  lemma ExactlyOneOwner(sh: Shape, id: nat, rank: nat)
    requires sh.local > 0 && id < sh.world * sh.local
    ensures 0 <= id / sh.local < sh.world
    ensures LocalId(sh, rank, id) < sh.local <==> rank == id / sh.local
    ensures rank == id / sh.local ==> rank * sh.local + LocalId(sh, rank, id) == id
  {
    BlockIndex(sh.world, sh.local, id);
    OwnerRange(id, sh.local, rank);
  }

  /** Over all ranks, in any order, the terms of one slot collapse to the dense term. */
  lemma SlotCollapses<V(!new)>(sp: Space<V>, f: Expert<V>, sh: Shape, order: seq<nat>, x: V, cs: seq<Choice>, k: nat)
    requires CommutativeMonoid(sp) && sh.local > 0
    requires IsPermutation(order) && |order| == sh.world
    requires k < |cs| && cs[k].id < sh.world * sh.local
    ensures Sum(sp, SlotContributions(sp, f, sh, order, x, cs, k)) == DenseTerms(sp, f, x, cs)[k]
  {
    hide CommutativeMonoid;
    var terms := SlotContributions(sp, f, sh, order, x, cs, k);
    var id := cs[k].id;
    var owner := id / sh.local;
    ExactlyOneOwner(sh, id, owner);
    PermutationIsOnto(order, owner);
    var at :| 0 <= at < |order| && order[at] == owner;
    forall i | 0 <= i < |order| && i != at ensures terms[i] == sp.zero {
      ExactlyOneOwner(sh, id, order[i]);
    }
    OneTerm(sp, terms, at);
  }

  /** One token after the all-reduce, whatever the order in which ranks are added. */
  lemma TokenCollapses<V(!new)>(sp: Space<V>, f: Expert<V>, sh: Shape, order: seq<nat>, x: V, cs: seq<Choice>)
    requires CommutativeMonoid(sp) && sh.local > 0
    requires IsPermutation(order) && |order| == sh.world
    requires forall k :: 0 <= k < |cs| ==> cs[k].id < sh.world * sh.local
    ensures Sum(sp, TokenContributions(sp, f, sh, order, x, cs)) == Sum(sp, DenseTerms(sp, f, x, cs))
  {
    hide CommutativeMonoid;
    var rows := seq(|order|, i requires 0 <= i < |order| => LocalTerms(sp, f, sh, order[i], x, cs));
    SumsCommute(sp, rows, |cs|);
    assert RowSums(sp, rows) == TokenContributions(sp, f, sh, order, x, cs);
    forall k | 0 <= k < |cs| ensures ColumnSums(sp, rows, |cs|)[k] == DenseTerms(sp, f, x, cs)[k] {
      SlotCollapses(sp, f, sh, order, x, cs, k);
      assert Column(rows, |cs|, k) == SlotContributions(sp, f, sh, order, x, cs, k);
    }
    assert ColumnSums(sp, rows, |cs|) == DenseTerms(sp, f, x, cs);
  }

  // ---- The scheme ----

  function Partials<V>(sp: Space<V>, f: Expert<V>, gate: Gate<V>, sh: Shape, xs: seq<seq<V>>): (ps: seq<seq<V>>)
    requires ValidInputs(sh, xs)
    ensures |ps| == sh.world
    ensures forall r :: 0 <= r < sh.world ==> |ps[r]| == sh.world * sh.tokens
  {
    seq(sh.world, r requires 0 <= r < sh.world => Partial(sp, f, gate, sh, r, Gathered(sh, xs)))
  }

  /** The layer on every rank: its own rows of the all-reduced partial results. */
  function GatherLayer<V>(sp: Space<V>, f: Expert<V>, gate: Gate<V>, sh: Shape, order: seq<nat>,
                          xs: seq<seq<V>>): (ys: seq<seq<V>>)
    requires ValidInputs(sh, xs)
    requires forall i :: 0 <= i < |order| ==> order[i] < sh.world
    ensures |ys| == sh.world
    ensures forall r :: 0 <= r < sh.world ==> |ys[r]| == sh.tokens
  {
    var reduced := AllReduced(sp, Partials(sp, f, gate, sh, xs), order, sh.world * sh.tokens);
    seq(sh.world, r requires 0 <= r < sh.world => OwnRows(sh, reduced, r))
  }

  /** `out_partial` on every rank after the all-reduce. */
  function AllReduced<V>(sp: Space<V>, parts: seq<seq<V>>, order: seq<nat>, n: nat): (y: seq<V>)
    requires forall q :: 0 <= q < |parts| ==> |parts[q]| == n
    requires forall i :: 0 <= i < |order| ==> order[i] < |parts|
    ensures |y| == n
    ensures forall g :: 0 <= g < n ==> y[g] == Reduced(sp, parts, order, g)
  {
    seq(n, g requires 0 <= g < n => Reduced(sp, parts, order, g))
  }

  /** `out_partial[rank * M : (rank + 1) * M]` */
  function OwnRows<V>(sh: Shape, out: seq<V>, r: nat): (y: seq<V>)
    requires r < sh.world && |out| == sh.world * sh.tokens
    ensures |y| == sh.tokens
    ensures forall t {:trigger y[t]} :: 0 <= t < sh.tokens ==>
              0 <= r * sh.tokens + t < |out| && y[t] == out[r * sh.tokens + t]
  {
    BlockBounds(sh.world, sh.tokens, r);
    out[r * sh.tokens..r * sh.tokens + sh.tokens]
  }

  lemma PartialAt<V>(sp: Space<V>, f: Expert<V>, gate: Gate<V>, sh: Shape, xs: seq<seq<V>>, q: nat, r: nat, t: nat)
    requires ValidInputs(sh, xs) && q < sh.world && r < sh.world && t < sh.tokens
    ensures 0 <= r * sh.tokens + t < sh.world * sh.tokens
    ensures Partials(sp, f, gate, sh, xs)[q][r * sh.tokens + t]
            == Sum(sp, LocalTerms(sp, f, sh, q, xs[r][t], gate(xs[r][t])))
  {
    InBlock(sh.world, sh.tokens, r, t);
    assert Gathered(sh, xs)[r * sh.tokens + t] == xs[r][t];
  }

  lemma ReducedToken<V(!new)>(sp: Space<V>, f: Expert<V>, sh: Shape, parts: seq<seq<V>>, order: seq<nat>, g: nat,
                       x: V, cs: seq<Choice>)
    requires CommutativeMonoid(sp) && sh.local > 0
    requires IsPermutation(order) && |order| == |parts| == sh.world
    requires forall k :: 0 <= k < |cs| ==> cs[k].id < sh.world * sh.local
    requires forall q :: 0 <= q < sh.world ==> g < |parts[q]| && parts[q][g] == Sum(sp, LocalTerms(sp, f, sh, q, x, cs))
    ensures Reduced(sp, parts, order, g) == Sum(sp, DenseTerms(sp, f, x, cs))
  {
    hide CommutativeMonoid;
    TokenCollapses(sp, f, sh, order, x, cs);
    assert Contributions(parts, order, g) == TokenContributions(sp, f, sh, order, x, cs);
  }

  /** Main result: every rank gets `sum_k w[t,k] * F_{id[t,k]}(x[t])` for its own tokens. */
  lemma GatherLayerIsDense<V(!new)>(sp: Space<V>, f: Expert<V>, gate: Gate<V>, sh: Shape, order: seq<nat>,
                             xs: seq<seq<V>>, r: nat, t: nat)
    requires CommutativeMonoid(sp) && ValidInputs(sh, xs)
    requires ValidGate(gate, sh.topk, sh.world * sh.local)
    requires IsPermutation(order) && |order| == sh.world
    requires r < sh.world && t < sh.tokens
    ensures GatherLayer(sp, f, gate, sh, order, xs)[r][t] == Sum(sp, DenseTerms(sp, f, xs[r][t], gate(xs[r][t])))
  {
    hide CommutativeMonoid, Partials, OwnRows, AllReduced, Reduced;
    var ps := Partials(sp, f, gate, sh, xs);
    InBlock(sh.world, sh.tokens, r, t);
    forall q | 0 <= q < sh.world
      ensures ps[q][r * sh.tokens + t] == Sum(sp, LocalTerms(sp, f, sh, q, xs[r][t], gate(xs[r][t])))
    {
      PartialAt(sp, f, gate, sh, xs, q, r, t);
    }
    ReducedToken(sp, f, sh, ps, order, r * sh.tokens + t, xs[r][t], gate(xs[r][t]));
  }

  /** The routing a gate induces on one rank's tokens. */
  ghost predicate RoutedBy<V>(gate: Gate<V>, sh: Shape, rt: Routing, x: seq<V>)
    requires |x| == sh.tokens && |rt.ids| == |rt.weights| == sh.tokens * sh.topk
  {
    forall t, k :: 0 <= t < sh.tokens && 0 <= k < sh.topk ==> SlotMatches(gate, sh, rt, x, t, k)
  }

  predicate SlotMatches<V>(gate: Gate<V>, sh: Shape, rt: Routing, x: seq<V>, t: nat, k: nat)
    requires |x| == sh.tokens && |rt.ids| == |rt.weights| == sh.tokens * sh.topk
    requires t < sh.tokens && k < sh.topk
  {
    InBlock(sh.tokens, sh.topk, t, k);
    && k < |gate(x[t])|
    && gate(x[t])[k] == Choice(rt.ids[t * sh.topk + k], rt.weights[t * sh.topk + k])
  }

  /** Given the same routing, the all-gather scheme and the all-to-all scheme give the same tokens. */
  lemma SchemesAgree<V(!new)>(sp: Space<V>, f: Expert<V>, gate: Gate<V>, sh: Shape, order: seq<nat>,
                       rs: seq<Routing>, xs: seq<seq<V>>)
    requires CommutativeMonoid(sp) && ValidGate(gate, sh.topk, sh.world * sh.local)
    requires IsPermutation(order) && |order| == sh.world
    requires ValidGroup(sh, rs, xs) && AllBalanced(sh, rs)
    requires forall r :: 0 <= r < sh.world ==> RoutedBy(gate, sh, rs[r], xs[r])
    ensures EpLayer(sp, f, sh, rs, xs) == GatherLayer(sp, f, gate, sh, order, xs)
  {
    hide CommutativeMonoid;
    EpLayerIsDense(sp, f, sh, rs, xs);
    hide AllBalanced, GatherLayer, EpLayer;
    forall r, t | 0 <= r < sh.world && 0 <= t < sh.tokens
      ensures DenseGroup(sp, f, sh, rs, xs)[r][t] == GatherLayer(sp, f, gate, sh, order, xs)[r][t]
    {
      GatherLayerIsDense(sp, f, gate, sh, order, xs, r, t);
      DenseTokenMatches(sp, f, gate, sh, rs[r], xs[r], t);
    }
    forall r | 0 <= r < sh.world
      ensures DenseGroup(sp, f, sh, rs, xs)[r] == GatherLayer(sp, f, gate, sh, order, xs)[r] {}
  }

  lemma DenseTokenMatches<V(!new)>(sp: Space<V>, f: Expert<V>, gate: Gate<V>, sh: Shape, rt: Routing, x: seq<V>, t: nat)
    requires |x| == sh.tokens && |rt.ids| == |rt.weights| == sh.tokens * sh.topk && t < sh.tokens
    requires RoutedBy(gate, sh, rt, x) && |gate(x[t])| == sh.topk
    ensures Dense(sp, f, sh.topk, rt, x)[t] == Sum(sp, DenseTerms(sp, f, x[t], gate(x[t])))
  {
    var a := DenseRow(sp, f, sh.topk, rt, x, t);
    var b := DenseTerms(sp, f, x[t], gate(x[t]));
    forall k | 0 <= k < sh.topk ensures a[k] == b[k] {
      assert SlotMatches(gate, sh, rt, x, t, k);
    }
    assert a == b;
  }
}
