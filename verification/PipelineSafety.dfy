/** Safety of the hybrid pipeline: whatever the interleaving, finished activations are the layers of the
    expert-parallel scheme in global order, and the dense ones wherever the routing is balanced. */
module PipelineSafety {
  import opened Moe
  import opened AllToAll
  import opened EpDispatch
  import opened Pipeline

  /** The activations of microbatch `mb` on all EP ranks after the first `g` layers in global order, each
      computed for the whole EP group at once; no buffers, no interleaving. */
  function Act<V>(c: Config<V>, g: nat, mb: nat): (xs: seq<seq<V>>)
    requires c.Valid() && g <= |c.layers| && mb < c.batches
    ensures ValidGroup(c.sh, c.routings[mb], xs)
    decreases g
  {
    if g == 0 then c.inputs[mb]
    else EpLayer(c.sp, c.layers[g - 1], c.sh, c.routings[mb], Act(c, g - 1, mb))
  }

  /** The specification: the same with the dense layer. */
  function DenseAct<V>(c: Config<V>, g: nat, mb: nat): (xs: seq<seq<V>>)
    requires c.Valid() && g <= |c.layers| && mb < c.batches
    ensures ValidGroup(c.sh, c.routings[mb], xs)
    decreases g
  {
    if g == 0 then c.inputs[mb]
    else DenseGroup(c.sp, c.layers[g - 1], c.sh, c.routings[mb], DenseAct(c, g - 1, mb))
  }

  lemma {:induction false} ActIsDense<V>(c: Config<V>, g: nat, mb: nat)
    requires c.Valid() && g <= |c.layers| && mb < c.batches && AllBalanced(c.sh, c.routings[mb])
    ensures Act(c, g, mb) == DenseAct(c, g, mb)
    decreases g
  {
    hide EpLayer, DenseGroup, AllBalanced;
    if g > 0 {
      ActIsDense(c, g - 1, mb);
      EpLayerIsDense(c.sp, c.layers[g - 1], c.sh, c.routings[mb], Act(c, g - 1, mb));
    }
  }

  /** The layers of stage `s` start at global index `s * layersPerStage`. */
  function Base<V>(c: Config<V>, s: nat): (g: nat)
    requires c.Valid() && s <= c.stages
    ensures g == c.FirstLayer(s) <= |c.layers|
    ensures s < c.stages ==> g + c.layersPerStage == c.FirstLayer(s + 1) <= |c.layers|
  {
    FirstLayerMonotone(c, s, c.stages);
    FirstLayerMonotone(c, if s < c.stages then s + 1 else s, c.stages);
    c.FirstLayer(s)
  }

  // What the buffers of all EP ranks must hold in layer `g` of microbatch `mb`.

  function Sent<V>(c: Config<V>, g: nat, mb: nat): (b: seq<seq<V>>)
    requires c.Valid() && g < |c.layers| && mb < c.batches
    ensures |b| == c.sh.world && EqualSplit(b, c.sh.perDest)
  {
    Sends(c.sh, c.routings[mb], Act(c, g, mb))
  }

  function Out<V>(c: Config<V>, g: nat, mb: nat): (b: seq<seq<V>>)
    requires c.Valid() && g < |c.layers| && mb < c.batches
    ensures |b| == c.sh.world && EqualSplit(b, c.sh.perDest)
  {
    Outs(c.sp, c.layers[g], c.sh, c.routings[mb], Act(c, g, mb))
  }

  function Back<V>(c: Config<V>, g: nat, mb: nat): (b: seq<seq<V>>)
    requires c.Valid() && g < |c.layers| && mb < c.batches
    ensures |b| == c.sh.world && EqualSplit(b, c.sh.perDest)
  {
    Combined(c.sp, c.layers[g], c.sh, c.routings[mb], Act(c, g, mb))
  }

  lemma PermuteMeetsSpec<V>(c: Config<V>, g: nat, mb: nat, e: nat)
    requires c.Valid() && g < |c.layers| && mb < c.batches && e < c.sh.world
    ensures SendX(c.sh, c.routings[mb][e], Act(c, g, mb)[e]) == Sent(c, g, mb)[e]
  {}

  lemma ExpertsMeetSpec<V>(c: Config<V>, g: nat, mb: nat, e: nat)
    requires c.Valid() && g < |c.layers| && mb < c.batches && e < c.sh.world
    ensures var n, rs := c.sh.perDest, c.routings[mb];
            Kernel(c.sp, c.layers[g], c.sh, e, Exchange(Sent(c, g, mb), n)[e],
                   Exchange(IdSends(c.sh, rs), n)[e], Exchange(WSends(c.sh, rs), n)[e])
            == Out(c, g, mb)[e]
  {}

  lemma SumMeetsSpec<V>(c: Config<V>, g: nat, mb: nat, e: nat)
    requires c.Valid() && g < |c.layers| && mb < c.batches && e < c.sh.world
    ensures Unpermute(c.sp, c.sh, c.routings[mb][e], Back(c, g, mb)[e]) == Act(c, g + 1, mb)[e]
  {}

  /** Number of layers of its stage a rank has completed in the current microbatch. */
  function LayersDone<V>(c: Config<V>, at: Place): nat
    requires !at.Start?
  {
    match at
    case In(l, _) => l
    case Finish => c.layersPerStage
  }

  /** What one rank holds, in terms of the specification alone. */
  ghost predicate RankInv<V>(c: Config<V>, s: nat, e: nat, r: Rank<V>)
    requires c.Valid() && s < c.stages && e < c.sh.world
  {
    && Sized(c, r)
    && |r.done| == r.mb
    && (forall m :: 0 <= m < r.mb ==> r.done[m] == Act(c, Base(c, s + 1), m)[e])
    && (!r.at.Start? ==> Cur(c, s, r) == Act(c, Base(c, s) + LayersDone(c, r.at), r.mb)[e])
    && (r.at.In? ==> LayerInv(c, e, r, r.at.phase, Base(c, s) + r.at.layer))
  }

  /** The buffers within layer `g`: each holds what the phases before `p` must have written. */
  ghost predicate LayerInv<V>(c: Config<V>, e: nat, r: Rank<V>, p: Phase, g: nat)
    requires c.Valid() && e < c.sh.world && g < |c.layers| && r.mb < c.batches
  {
    var n, rs, i := c.sh.perDest, c.routings[r.mb], Index(p);
    && (i > 0 ==> r.sendX == Sent(c, g, r.mb)[e])
    && (i > 1 ==> r.recvX == Exchange(Sent(c, g, r.mb), n)[e])
    && (i > 2 ==> r.recvIds == Exchange(IdSends(c.sh, rs), n)[e])
    && (i > 3 ==> r.recvW == Exchange(WSends(c.sh, rs), n)[e])
    && (i > 4 ==> r.moeOut == Out(c, g, r.mb)[e])
    && (i > 5 ==> r.combined == Back(c, g, r.mb)[e])
  }

  function Index(p: Phase): nat {
    match p
    case Permute => 0
    case ExchangeX => 1
    case ExchangeIds => 2
    case ExchangeW => 3
    case Experts => 4
    case ExchangeOut => 5
    case SumUp => 6
  }

  /** All-to-alls completed within the current layer. */
  function PhaseExchanges(p: Phase): nat {
    match p
    case Permute => 0
    case ExchangeX => 0
    case ExchangeIds => 1
    case ExchangeW => 2
    case Experts => 3
    case ExchangeOut => 3
    case SumUp => 4
  }

  /** The next all-to-all of a rank, as (microbatch, layer, number within it). */
  function NextExchange<V>(c: Config<V>, mb: nat, at: Place): (nat, nat, nat) {
    match at
    case Start => (mb, 0, 0)
    case In(l, p) =>
      if !p.SumUp? then (mb, l, PhaseExchanges(p))
      else if l + 1 < c.layersPerStage then (mb, l + 1, 0)
      else (mb + 1, 0, 0)
    case Finish => (mb + 1, 0, 0)
  }

  /** Members of a stage wait for the same all-to-all. */
  ghost predicate InStep<V>(c: Config<V>, members: seq<Rank<V>>) {
    c.layersPerStage > 0 ==>
      forall i, j :: 0 <= i < |members| && 0 <= j < |members| ==>
        NextExchange(c, members[i].mb, members[i].at) == NextExchange(c, members[j].mb, members[j].at)
  }

  /** Sends completed by a stage are the recvs completed by the next one. */
  ghost predicate Matched<V>(sender: Rank<V>, receiver: Rank<V>) {
    sender.mb == receiver.mb + (if receiver.at.Start? then 0 else 1)
  }

  ghost predicate MatchedAt<V>(c: Config<V>, st: State<V>, s: nat, e: nat)
    requires WellSized(c, st) && e < c.sh.world
  {
    s + 1 < c.stages ==> Matched(st[s][e], st[s + 1][e])
  }

  ghost predicate Inv<V>(c: Config<V>, st: State<V>)
    requires c.Valid()
  {
    && WellSized(c, st)
    && (forall s, e :: 0 <= s < c.stages && 0 <= e < c.sh.world ==> RankInv(c, s, e, st[s][e]))
    && (forall s :: 0 <= s < c.stages ==> InStep(c, st[s]))
    && (forall s, e :: 0 <= s < c.stages && 0 <= e < c.sh.world ==> MatchedAt(c, st, s, e))
  }

  lemma InitInv<V>(c: Config<V>, st: State<V>)
    requires c.Valid() && Init(c, st)
    ensures Inv(c, st)
  {
    forall s, e | 0 <= s < c.stages && 0 <= e < c.sh.world ensures RankInv(c, s, e, st[s][e]) {}
  }

  // ---- One rank at a time ----

  lemma LoadKeepsRankInv<V>(c: Config<V>, e: nat, r: Rank<V>)
    requires c.Valid() && e < c.sh.world && RankInv(c, 0, e, r) && Busy(c, r) && r.at == Start
    ensures RankInv(c, 0, e, Advance(c, r.(x := c.inputs[r.mb][e])))
  {
    LayerRange(c, 0);
  }

  lemma LayerRange<V>(c: Config<V>, s: nat)
    requires c.Valid() && s < c.stages
    ensures Base(c, s) + c.layersPerStage == Base(c, s + 1) <= |c.layers|
    ensures s == 0 ==> Base(c, s) == 0
  {}

  lemma PermuteKeepsRankInv<V>(c: Config<V>, s: nat, e: nat, r: Rank<V>)
    requires c.Valid() && s < c.stages && e < c.sh.world && RankInv(c, s, e, r)
    requires Busy(c, r) && r.at.In? && r.at.phase == Permute
    ensures RankInv(c, s, e, Advance(c, r.(sendX := SendX(c.sh, c.routings[r.mb][e], Cur(c, s, r)))))
  {
    hide Sent, SendX, Act, ValidRouting, Exchange;
    LayerRange(c, s);
    PermuteMeetsSpec(c, Base(c, s) + r.at.layer, r.mb, e);
  }

  lemma ExpertsKeepRankInv<V>(c: Config<V>, s: nat, e: nat, r: Rank<V>)
    requires c.Valid() && s < c.stages && e < c.sh.world && RankInv(c, s, e, r)
    requires Busy(c, r) && r.at.In? && r.at.phase == Experts
    ensures Base(c, s) + r.at.layer < |c.layers|
    ensures RankInv(c, s, e, Advance(c, r.(moeOut :=
              Kernel(c.sp, c.layers[Base(c, s) + r.at.layer], c.sh, e, r.recvX, r.recvIds, r.recvW))))
  {
    hide Out, Sent, Back, Kernel, Exchange, Act;
    LayerRange(c, s);
    ExpertsMeetSpec(c, Base(c, s) + r.at.layer, r.mb, e);
  }

  lemma SumKeepsRankInv<V>(c: Config<V>, s: nat, e: nat, r: Rank<V>)
    requires c.Valid() && s < c.stages && e < c.sh.world && RankInv(c, s, e, r)
    requires Busy(c, r) && r.at.In? && r.at.phase == SumUp
    ensures RankInv(c, s, e, Advance(c, r.(x := Unpermute(c.sp, c.sh, c.routings[r.mb][e], r.combined))))
  {
    hide Out, Sent, Back, Unpermute, Exchange, Act;
    LayerRange(c, s);
    SumMeetsSpec(c, Base(c, s) + r.at.layer, r.mb, e);
  }

  lemma LocalKeepsRankInv<V>(c: Config<V>, s: nat, e: nat, r: Rank<V>)
    requires c.Valid() && s < c.stages && e < c.sh.world && RankInv(c, s, e, r) && AtLocal(c, s, r)
    ensures RankInv(c, s, e, RunLocal(c, s, e, r))
  {
    hide SendX, Kernel, Unpermute, ValidRouting, Act;
    assert Sized(c, r);
    LayerRange(c, s);
    hide RankInv;
    match r.at
    case Start => LoadKeepsRankInv(c, e, r);
    case Finish => FinishKeepsRankInv(c, s, e, r);
    case In(l, p) =>
      if p.Permute? {
        PermuteKeepsRankInv(c, s, e, r);
      } else if p.Experts? {
        ExpertsKeepRankInv(c, s, e, r);
      } else {
        SumKeepsRankInv(c, s, e, r);
      }
  }

  lemma FinishKeepsRankInv<V>(c: Config<V>, s: nat, e: nat, r: Rank<V>)
    requires c.Valid() && s < c.stages && e < c.sh.world && RankInv(c, s, e, r)
    requires Busy(c, r) && r.at == Finish
    ensures RankInv(c, s, e, FinishBatch(c, s, r))
    ensures Cur(c, s, r) == Act(c, Base(c, s + 1), r.mb)[e]
  {
    hide ValidRouting, Act, LayerInv;
    LayerRange(c, s);
  }

  lemma RecvKeepsRankInv<V>(c: Config<V>, s: nat, e: nat, r: Rank<V>, sent: seq<V>)
    requires c.Valid() && 0 < s < c.stages && e < c.sh.world && RankInv(c, s, e, r) && AtRecv(c, s, r)
    requires sent == Act(c, Base(c, s), r.mb)[e]
    ensures RankInv(c, s, e, Advance(c, r.(ppRecv := sent)))
  {
    hide Sent, Out, Back, Act, IdSends, WSends, Exchange, ValidRouting;
    LayerRange(c, s);
  }

  /** All members of a stage stand at the same all-to-all. */
  ghost predicate Together<V>(c: Config<V>, s: nat, members: seq<Rank<V>>, mb: nat, l: nat, p: Phase)
    requires c.Valid() && s < c.stages
  {
    && AllAtCollective(c, members)
    && forall i :: 0 <= i < c.sh.world ==>
         RankInv(c, s, i, members[i]) && members[i].mb == mb && members[i].at == In(l, p)
  }

  lemma BuffersAreSpec<V>(c: Config<V>, s: nat, members: seq<Rank<V>>, mb: nat, l: nat, p: Phase)
    requires c.Valid() && s < c.stages && Together(c, s, members, mb, l, p)
    requires mb < c.batches && Base(c, s) + l < |c.layers|
    ensures p == ExchangeX ==> SendBufs(c, members) == Sent(c, Base(c, s) + l, mb)
    ensures IdBufs(c, members) == IdSends(c.sh, c.routings[mb])
    ensures WBufs(c, members) == WSends(c.sh, c.routings[mb])
    ensures p == ExchangeOut ==> OutBufs(c, members) == Out(c, Base(c, s) + l, mb)
  {
    hide Act, Exchange, RankInv, Sent, Out, SendIds, SendW;
    forall i | 0 <= i < c.sh.world
      ensures p == ExchangeX ==> SendBufs(c, members)[i] == Sent(c, Base(c, s) + l, mb)[i]
      ensures p == ExchangeOut ==> OutBufs(c, members)[i] == Out(c, Base(c, s) + l, mb)[i]
    {
      BuffersOfRank(c, s, i, members[i], mb, l, p);
    }
  }

  lemma BuffersOfRank<V>(c: Config<V>, s: nat, e: nat, r: Rank<V>, mb: nat, l: nat, p: Phase)
    requires c.Valid() && s < c.stages && e < c.sh.world && RankInv(c, s, e, r)
    requires r.mb == mb < c.batches && r.at == In(l, p) && Base(c, s) + l < |c.layers|
    ensures p == ExchangeX ==> r.sendX == Sent(c, Base(c, s) + l, mb)[e]
    ensures p == ExchangeOut ==> r.moeOut == Out(c, Base(c, s) + l, mb)[e]
  {
    hide Act, Exchange, Sent, Out;
  }

  lemma BackIsExchanged<V>(c: Config<V>, g: nat, mb: nat)
    requires c.Valid() && g < |c.layers| && mb < c.batches
    ensures Back(c, g, mb) == Exchange(Out(c, g, mb), c.sh.perDest)
  {}

  lemma GotX<V>(c: Config<V>, s: nat, e: nat, r: Rank<V>, got: seq<V>)
    requires c.Valid() && s < c.stages && e < c.sh.world && RankInv(c, s, e, r)
    requires Busy(c, r) && r.at.In? && r.at.phase == ExchangeX && Base(c, s) + r.at.layer < |c.layers|
    requires got == Exchange(Sent(c, Base(c, s) + r.at.layer, r.mb), c.sh.perDest)[e]
    ensures RankInv(c, s, e, Advance(c, r.(recvX := got)))
  {
    hide Out, Sent, Back, Act, IdSends, WSends, Exchange;
  }

  lemma GotIds<V>(c: Config<V>, s: nat, e: nat, r: Rank<V>, got: seq<nat>)
    requires c.Valid() && s < c.stages && e < c.sh.world && RankInv(c, s, e, r)
    requires Busy(c, r) && r.at.In? && r.at.phase == ExchangeIds && Base(c, s) + r.at.layer < |c.layers|
    requires got == Exchange(IdSends(c.sh, c.routings[r.mb]), c.sh.perDest)[e]
    ensures RankInv(c, s, e, Advance(c, r.(recvIds := got)))
  {
    hide Out, Sent, Back, Act, IdSends, WSends, Exchange;
  }

  lemma GotW<V>(c: Config<V>, s: nat, e: nat, r: Rank<V>, got: seq<real>)
    requires c.Valid() && s < c.stages && e < c.sh.world && RankInv(c, s, e, r)
    requires Busy(c, r) && r.at.In? && r.at.phase == ExchangeW && Base(c, s) + r.at.layer < |c.layers|
    requires got == Exchange(WSends(c.sh, c.routings[r.mb]), c.sh.perDest)[e]
    ensures RankInv(c, s, e, Advance(c, r.(recvW := got)))
  {
    hide Out, Sent, Back, Act, IdSends, WSends, Exchange;
  }

  lemma GotOut<V>(c: Config<V>, s: nat, e: nat, r: Rank<V>, got: seq<V>)
    requires c.Valid() && s < c.stages && e < c.sh.world && RankInv(c, s, e, r)
    requires Busy(c, r) && r.at.In? && r.at.phase == ExchangeOut && Base(c, s) + r.at.layer < |c.layers|
    requires got == Back(c, Base(c, s) + r.at.layer, r.mb)[e]
    ensures RankInv(c, s, e, Advance(c, r.(combined := got)))
  {
    hide Out, Sent, Back, Act, IdSends, WSends, Exchange;
  }

  lemma DeliverKeepsRankInv<V>(c: Config<V>, s: nat, members: seq<Rank<V>>, mb: nat, l: nat, p: Phase, e: nat)
    requires c.Valid() && s < c.stages && Together(c, s, members, mb, l, p) && e < c.sh.world
    ensures RankInv(c, s, e, Deliver(c, members, e))
  {
    hide Out, Sent, Back, Act, SendBufs, IdBufs, WBufs, OutBufs, IdSends, WSends, Exchange, ValidRouting;
    var r := members[e];
    LayerRange(c, s);
    assert RankInv(c, s, e, r) && AtCollective(c, r);
    BuffersAreSpec(c, s, members, mb, l, p);
    BackIsExchanged(c, Base(c, s) + l, mb);
    hide RankInv;
    if p.ExchangeX? {
      GotX(c, s, e, r, Deliver(c, members, e).recvX);
    } else if p.ExchangeIds? {
      GotIds(c, s, e, r, Deliver(c, members, e).recvIds);
    } else if p.ExchangeW? {
      GotW(c, s, e, r, Deliver(c, members, e).recvW);
    } else {
      GotOut(c, s, e, r, Deliver(c, members, e).combined);
    }
  }

  // ---- Ranks against each other ----

  lemma MembersTogether<V>(c: Config<V>, st: State<V>, s: nat)
    requires c.Valid() && Inv(c, st) && Enabled(c, st, Collective(s))
    ensures Together(c, s, st[s], st[s][0].mb, st[s][0].at.layer, st[s][0].at.phase)
  {
    assert InStep(c, st[s]);
    assert AtCollective(c, st[s][0]);
    forall i | 0 <= i < c.sh.world ensures st[s][i].mb == st[s][0].mb && st[s][i].at == st[s][0].at {
      assert AtCollective(c, st[s][i]);
    }
  }

  lemma LocalKeepsNextExchange<V>(c: Config<V>, s: nat, e: nat, r: Rank<V>)
    requires c.Valid() && s < c.stages && e < c.sh.world && Sized(c, r) && AtLocal(c, s, r)
    requires c.layersPerStage > 0
    ensures var r' := RunLocal(c, s, e, r); NextExchange(c, r'.mb, r'.at) == NextExchange(c, r.mb, r.at)
  {
    hide SendX, Kernel, Unpermute;
  }

  lemma LocalKeepsInv<V>(c: Config<V>, st: State<V>, s: nat, e: nat)
    requires c.Valid() && Inv(c, st) && Enabled(c, st, Local(s, e))
    ensures Inv(c, Apply(c, st, Local(s, e)))
  {
    hide RankInv, SendX, Kernel, Unpermute;
    var st' := Apply(c, st, Local(s, e));
    var r, r' := st[s][e], st'[s][e];
    LocalKeepsRankInv(c, s, e, r);
    if c.layersPerStage > 0 { LocalKeepsNextExchange(c, s, e, r); }
    forall i, j | 0 <= i < c.stages && 0 <= j < c.sh.world ensures RankInv(c, i, j, st'[i][j]) {
      assert RankInv(c, i, j, st[i][j]);
    }
    forall i | 0 <= i < c.stages ensures InStep(c, st'[i]) {
      assert InStep(c, st[i]);
    }
    forall i, j | 0 <= i < c.stages && 0 <= j < c.sh.world ensures MatchedAt(c, st', i, j) {
      assert MatchedAt(c, st, i, j);
    }
  }

  lemma CollectiveKeepsInv<V>(c: Config<V>, st: State<V>, s: nat)
    requires c.Valid() && Inv(c, st) && Enabled(c, st, Collective(s))
    ensures Inv(c, Apply(c, st, Collective(s)))
  {
    hide RankInv, Exchange, ValidGroup, SendBufs, IdBufs, WBufs, OutBufs;
    var st' := Apply(c, st, Collective(s));
    MembersTogether(c, st, s);
    var mb, l, p := st[s][0].mb, st[s][0].at.layer, st[s][0].at.phase;
    forall e | 0 <= e < c.sh.world
      ensures RankInv(c, s, e, st'[s][e]) && st'[s][e].mb == mb && st'[s][e].at == In(l, NextPhase(p))
    {
      DeliverKeepsRankInv(c, s, st[s], mb, l, p, e);
    }
    forall i, j | 0 <= i < c.stages && 0 <= j < c.sh.world ensures RankInv(c, i, j, st'[i][j]) {
      assert RankInv(c, i, j, st[i][j]);
    }
    forall i | 0 <= i < c.stages ensures InStep(c, st'[i]) {
      assert InStep(c, st[i]);
    }
    forall i, j | 0 <= i < c.stages && 0 <= j < c.sh.world ensures MatchedAt(c, st', i, j) {
      assert MatchedAt(c, st, i, j);
    }
  }

  lemma TransferKeepsRankInv<V>(c: Config<V>, st: State<V>, s: nat, e: nat)
    requires c.Valid() && Inv(c, st) && Enabled(c, st, Transfer(s, e))
    ensures RankInv(c, s, e, FinishBatch(c, s, st[s][e]))
    ensures RankInv(c, s + 1, e, Advance(c, st[s + 1][e].(ppRecv := Cur(c, s, st[s][e]))))
    ensures st[s][e].mb == st[s + 1][e].mb
  {
    hide Act, ValidRouting;
    assert RankInv(c, s, e, st[s][e]) && RankInv(c, s + 1, e, st[s + 1][e]);
    assert MatchedAt(c, st, s, e);
    FinishKeepsRankInv(c, s, e, st[s][e]);
    RecvKeepsRankInv(c, s + 1, e, st[s + 1][e], Cur(c, s, st[s][e]));
  }

  lemma TransferKeepsNextExchange<V>(c: Config<V>, s: nat, r: Rank<V>, next: Rank<V>, sent: seq<V>)
    requires AtSend(c, s, r) && AtRecv(c, s + 1, next) && c.layersPerStage > 0
    ensures var r' := FinishBatch(c, s, r); NextExchange(c, r'.mb, r'.at) == NextExchange(c, r.mb, r.at)
    ensures var next' := Advance(c, next.(ppRecv := sent));
            NextExchange(c, next'.mb, next'.at) == NextExchange(c, next.mb, next.at)
  {}

  lemma TransferKeepsInStep<V>(c: Config<V>, st: State<V>, s: nat, e: nat, i: nat)
    requires c.Valid() && Inv(c, st) && Enabled(c, st, Transfer(s, e)) && i < c.stages
    ensures InStep(c, Apply(c, st, Transfer(s, e))[i])
  {
    hide RankInv, ValidGroup, NextExchange, MatchedAt;
    assert InStep(c, st[i]);
    if c.layersPerStage > 0 {
      TransferKeepsNextExchange(c, s, st[s][e], st[s + 1][e], Cur(c, s, st[s][e]));
    }
  }

  lemma TransferKeepsInv<V>(c: Config<V>, st: State<V>, s: nat, e: nat)
    requires c.Valid() && Inv(c, st) && Enabled(c, st, Transfer(s, e))
    ensures Inv(c, Apply(c, st, Transfer(s, e)))
  {
    hide RankInv, ValidGroup, InStep, Sized;
    var st' := Apply(c, st, Transfer(s, e));
    ApplyKeepsSizes(c, st, Transfer(s, e));
    TransferKeepsRankInv(c, st, s, e);
    forall i, j | 0 <= i < c.stages && 0 <= j < c.sh.world ensures RankInv(c, i, j, st'[i][j]) {
      assert RankInv(c, i, j, st[i][j]);
    }
    forall i | 0 <= i < c.stages ensures InStep(c, st'[i]) { TransferKeepsInStep(c, st, s, e, i); }
    forall i, j | 0 <= i < c.stages && 0 <= j < c.sh.world ensures MatchedAt(c, st', i, j) {
      assert MatchedAt(c, st, i, j);
    }
  }

  lemma StepKeepsInv<V>(c: Config<V>, st: State<V>, step: Step)
    requires c.Valid() && Inv(c, st) && Enabled(c, st, step)
    ensures Inv(c, Apply(c, st, step))
  {
    match step
    case Local(s, e) => LocalKeepsInv(c, st, s, e);
    case Collective(s) => CollectiveKeepsInv(c, st, s);
    case Transfer(s, e) => TransferKeepsInv(c, st, s, e);
  }

  lemma {:induction false} RunInv<V>(c: Config<V>, states: seq<State<V>>, steps: seq<Step>, i: nat)
    requires c.Valid() && IsRun(c, states, steps) && i < |states|
    ensures Inv(c, states[i])
  {
    if i == 0 {
      InitInv(c, states[0]);
    } else {
      RunInv(c, states, steps, i - 1);
      StepKeepsInv(c, states[i - 1], steps[i - 1]);
    }
  }

  /** Main result, for any routing: at any moment of any execution, what the last stage has finished on EP
      rank `e` is, microbatch by microbatch, all layers applied to stage 0's inputs in global order. */
  lemma FinishedOutputsAreLayers<V>(c: Config<V>, states: seq<State<V>>, steps: seq<Step>, i: nat, e: nat, m: nat)
    requires c.Valid() && IsRun(c, states, steps) && i < |states| && e < c.sh.world
    requires WellSized(c, states[i]) && m < |states[i][c.stages - 1][e].done|
    ensures m < c.batches && states[i][c.stages - 1][e].done[m] == Act(c, |c.layers|, m)[e]
  {
    RunInv(c, states, steps, i);
    assert RankInv(c, c.stages - 1, e, states[i][c.stages - 1][e]);
    assert Base(c, c.stages) == |c.layers|;
  }

  /** Main result: for a microbatch with balanced routing that is the dense result. */
  lemma FinishedOutputsAreDense<V>(c: Config<V>, states: seq<State<V>>, steps: seq<Step>, i: nat, e: nat, m: nat)
    requires c.Valid() && IsRun(c, states, steps) && i < |states| && e < c.sh.world
    requires WellSized(c, states[i]) && m < |states[i][c.stages - 1][e].done|
    requires m < c.batches ==> AllBalanced(c.sh, c.routings[m])
    ensures m < c.batches && states[i][c.stages - 1][e].done[m] == DenseAct(c, |c.layers|, m)[e]
  {
    FinishedOutputsAreLayers(c, states, steps, i, e, m);
    ActIsDense(c, |c.layers|, m);
  }
}
