/** The hybrid pipeline as a state machine: `stages` stages of `sh.world` ranks each run the same
    straight-line program per microbatch, and the ranks' steps interleave freely. A rank's own
    operations are steps by themselves; an all-to-all is a step of a whole stage, a send with its recv
    a step of two ranks.
 */
module Pipeline {
  import opened Moe
  import opened AllToAll
  import opened EpDispatch

  datatype Config<!V> = Config(
    sp: Space<V>,
    sh: Shape,                        // of one EP group; `sh.world` is ep_size
    stages: nat,                      // pp_size
    layersPerStage: nat,
    batches: nat,                     // microbatches
    layers: seq<Expert<V>>,           // in global order: stage * layersPerStage + l
    routings: seq<seq<Routing>>,      // per microbatch, per EP rank
    inputs: seq<seq<seq<V>>>          // per microbatch, per EP rank
  ) {
    ghost predicate Valid() {
      && sh.Valid()
      && stages > 0
      && |layers| == FirstLayer(stages)
      && |routings| == |inputs| == batches
      && forall mb :: 0 <= mb < batches ==> ValidGroup(sh, routings[mb], inputs[mb])
    }

    /** Global index of the first layer of stage `s`. */
    function FirstLayer(s: nat): nat {
      if s == 0 then 0 else FirstLayer(s - 1) + layersPerStage
    }
  }

  /** The operations of one layer, in program order. */
  datatype Phase = Permute | ExchangeX | ExchangeIds | ExchangeW | Experts | ExchangeOut | SumUp

  /** Where a rank stands within a microbatch: before taking the input (`inputs[mb]` on stage 0,
      `dist.recv` elsewhere), in a layer, or before handing the result on (`dist.send`, or dropping it
      on the last stage). */
  datatype Place = Start | In(layer: nat, phase: Phase) | Finish

  /** One rank: program position, the local `x`, the persistent buffers, and (for stating results)
      the activations it has finished. */
  datatype Rank<V> = Rank(
    mb: nat, at: Place,
    x: seq<V>, ppRecv: seq<V>,
    sendX: seq<V>, recvX: seq<V>, recvIds: seq<nat>, recvW: seq<real>, moeOut: seq<V>, combined: seq<V>,
    done: seq<seq<V>>)

  /** Indexed `[pp_stage][ep_rank]`. */
  type State<V> = seq<seq<Rank<V>>>

  datatype Step = Local(s: nat, e: nat) | Collective(s: nat) | Transfer(s: nat, e: nat)

  predicate Sized<V>(c: Config<V>, r: Rank<V>) {
    && |r.x| == |r.ppRecv| == c.sh.tokens
    && |r.sendX| == |r.recvX| == |r.recvIds| == |r.recvW| == |r.moeOut| == |r.combined| == c.sh.slots
    && (r.at.In? ==> r.at.layer < c.layersPerStage)
    && r.mb <= c.batches
    && (r.mb == c.batches ==> r.at == Start)
  }

  predicate WellSized<V>(c: Config<V>, st: State<V>) {
    && |st| == c.stages
    && forall s :: 0 <= s < c.stages ==>
         |st[s]| == c.sh.world && forall e :: 0 <= e < c.sh.world ==> Sized(c, st[s][e])
  }

  function NextPhase(p: Phase): Phase
    requires !p.SumUp?
  {
    match p
    case Permute => ExchangeX
    case ExchangeX => ExchangeIds
    case ExchangeIds => ExchangeW
    case ExchangeW => Experts
    case Experts => ExchangeOut
    case ExchangeOut => SumUp
  }

  function NextPlace<V>(c: Config<V>, at: Place): Place
    requires !at.Finish?
  {
    match at
    case Start => EnterLayer(c, 0)
    case In(l, p) => if p.SumUp? then EnterLayer(c, l + 1) else In(l, NextPhase(p))
  }

  function EnterLayer<V>(c: Config<V>, l: nat): Place {
    if l < c.layersPerStage then In(l, Permute) else Finish
  }

  predicate Busy<V>(c: Config<V>, r: Rank<V>) {
    r.mb < c.batches
  }

  predicate IsExchange(p: Phase) {
    p.ExchangeX? || p.ExchangeIds? || p.ExchangeW? || p.ExchangeOut?
  }

  predicate AtCollective<V>(c: Config<V>, r: Rank<V>) {
    Busy(c, r) && r.at.In? && IsExchange(r.at.phase)
  }

  predicate AtLocal<V>(c: Config<V>, s: nat, r: Rank<V>) {
    && Busy(c, r)
    && match r.at
       case Start => s == 0
       case In(_, p) => !IsExchange(p)
       case Finish => s + 1 >= c.stages
  }

  predicate AtSend<V>(c: Config<V>, s: nat, r: Rank<V>) {
    Busy(c, r) && r.at == Finish && s + 1 < c.stages
  }

  predicate AtRecv<V>(c: Config<V>, s: nat, r: Rank<V>) {
    Busy(c, r) && r.at == Start && s > 0
  }

  predicate Enabled<V>(c: Config<V>, st: State<V>, step: Step)
    requires WellSized(c, st)
  {
    match step
    case Local(s, e) => s < c.stages && e < c.sh.world && AtLocal(c, s, st[s][e])
    case Collective(s) =>
      && s < c.stages
      && (forall e :: 0 <= e < c.sh.world ==> AtCollective(c, st[s][e]))
      && (forall e :: 0 <= e < c.sh.world ==> st[s][e].at.phase == st[s][0].at.phase)
    case Transfer(s, e) =>
      s < c.stages && e < c.sh.world && AtSend(c, s, st[s][e]) && AtRecv(c, s + 1, st[s + 1][e])
  }

  /** No layer of this microbatch has returned yet. */
  predicate Fresh<V>(c: Config<V>, at: Place) {
    match at
    case Start => true
    case In(l, _) => l == 0
    case Finish => c.layersPerStage == 0
  }

  /** The tensor the current layer reads: `stage_forward` is called on `pp_recv_buf` itself, and `x`
      is a tensor of its own only once a layer has returned. */
  function Cur<V>(c: Config<V>, s: nat, r: Rank<V>): seq<V> {
    if s > 0 && Fresh(c, r.at) then r.ppRecv else r.x
  }

  function Advance<V>(c: Config<V>, r: Rank<V>): Rank<V>
    requires !r.at.Finish?
  {
    r.(at := NextPlace(c, r.at))
  }

  function FinishBatch<V>(c: Config<V>, s: nat, r: Rank<V>): Rank<V> {
    r.(mb := r.mb + 1, at := Start, done := r.done + [Cur(c, s, r)])
  }

  function RunLocal<V>(c: Config<V>, s: nat, e: nat, r: Rank<V>): (r': Rank<V>)
    requires c.Valid() && s < c.stages && e < c.sh.world && Sized(c, r) && AtLocal(c, s, r)
    ensures Sized(c, r')
  {
    var rt := c.routings[r.mb][e];
    match r.at
    case Start => Advance(c, r.(x := c.inputs[r.mb][e]))
    case Finish => FinishBatch(c, s, r)
    case In(l, p) =>
      if p.Permute? then Advance(c, r.(sendX := SendX(c.sh, rt, Cur(c, s, r))))
      else if p.Experts? then
        LayerIndex(c, s, l);
        Advance(c, r.(moeOut := Kernel(c.sp, c.layers[c.FirstLayer(s) + l], c.sh, e, r.recvX, r.recvIds, r.recvW)))
      else Advance(c, r.(x := Unpermute(c.sp, c.sh, rt, r.combined)))
  }

  lemma {:induction false} FirstLayerIsProduct<V>(c: Config<V>, s: nat)
    ensures c.FirstLayer(s) == s * c.layersPerStage
  {
    if s > 0 {
      FirstLayerIsProduct(c, s - 1);
      assert s * c.layersPerStage == (s - 1) * c.layersPerStage + c.layersPerStage;
    }
  }

  lemma {:induction false} FirstLayerMonotone<V>(c: Config<V>, s: nat, t: nat)
    requires s <= t
    ensures c.FirstLayer(s) <= c.FirstLayer(t)
    decreases t
  {
    if s < t { FirstLayerMonotone(c, s, t - 1); }
  }

  lemma LayerIndex<V>(c: Config<V>, s: nat, l: nat)
    requires c.Valid() && s < c.stages && l < c.layersPerStage
    ensures c.FirstLayer(s) + l < c.FirstLayer(s + 1) <= |c.layers|
  {
    FirstLayerMonotone(c, s + 1, c.stages);
  }

  ghost predicate AllAtCollective<V>(c: Config<V>, members: seq<Rank<V>>) {
    && |members| == c.sh.world
    && forall i :: 0 <= i < c.sh.world ==> Sized(c, members[i]) && AtCollective(c, members[i])
  }

  function SendBufs<V>(c: Config<V>, members: seq<Rank<V>>): (b: seq<seq<V>>)
    requires c.Valid() && AllAtCollective(c, members)
    ensures |b| == c.sh.world && EqualSplit(b, c.sh.perDest)
    ensures forall i :: 0 <= i < c.sh.world ==> b[i] == members[i].sendX
  {
    seq(c.sh.world, i requires 0 <= i < c.sh.world => members[i].sendX)
  }

  function IdBufs<V>(c: Config<V>, members: seq<Rank<V>>): (b: seq<seq<nat>>)
    requires c.Valid() && AllAtCollective(c, members)
    ensures |b| == c.sh.world && EqualSplit(b, c.sh.perDest)
    ensures forall i :: 0 <= i < c.sh.world ==> b[i] == SendIds(c.routings[members[i].mb][i].ids, c.sh.local)
  {
    seq(c.sh.world, i requires 0 <= i < c.sh.world => SendIds(c.routings[members[i].mb][i].ids, c.sh.local))
  }

  function WBufs<V>(c: Config<V>, members: seq<Rank<V>>): (b: seq<seq<real>>)
    requires c.Valid() && AllAtCollective(c, members)
    ensures |b| == c.sh.world && EqualSplit(b, c.sh.perDest)
    ensures forall i :: 0 <= i < c.sh.world ==> b[i] == SendW(c.sh, c.routings[members[i].mb][i])
  {
    seq(c.sh.world, i requires 0 <= i < c.sh.world => SendW(c.sh, c.routings[members[i].mb][i]))
  }

  function OutBufs<V>(c: Config<V>, members: seq<Rank<V>>): (b: seq<seq<V>>)
    requires c.Valid() && AllAtCollective(c, members)
    ensures |b| == c.sh.world && EqualSplit(b, c.sh.perDest)
    ensures forall i :: 0 <= i < c.sh.world ==> b[i] == members[i].moeOut
  {
    seq(c.sh.world, i requires 0 <= i < c.sh.world => members[i].moeOut)
  }

  /** What an exchange hands to EP rank `e`, by the phase all members are in. */
  function Deliver<V>(c: Config<V>, members: seq<Rank<V>>, e: nat): (r': Rank<V>)
    requires c.Valid() && AllAtCollective(c, members) && e < c.sh.world
    ensures Sized(c, r')
  {
    var n, r := c.sh.perDest, members[e];
    assert AtCollective(c, r);
    if r.at.phase.ExchangeX? then Advance(c, r.(recvX := Exchange(SendBufs(c, members), n)[e]))
    else if r.at.phase.ExchangeIds? then Advance(c, r.(recvIds := Exchange(IdBufs(c, members), n)[e]))
    else if r.at.phase.ExchangeW? then Advance(c, r.(recvW := Exchange(WBufs(c, members), n)[e]))
    else Advance(c, r.(combined := Exchange(OutBufs(c, members), n)[e]))
  }

  function Set<V>(st: State<V>, s: nat, e: nat, r: Rank<V>): (st': State<V>)
    requires s < |st| && e < |st[s]|
    ensures |st'| == |st| && forall i :: 0 <= i < |st| ==> |st'[i]| == |st[i]|
    ensures forall i, j :: 0 <= i < |st| && 0 <= j < |st[i]| ==>
              st'[i][j] == if i == s && j == e then r else st[i][j]
  {
    st[s := st[s][e := r]]
  }

  function Apply<V>(c: Config<V>, st: State<V>, step: Step): (st': State<V>)
    requires c.Valid() && WellSized(c, st) && Enabled(c, st, step)
  {
    match step
    case Local(s, e) => Set(st, s, e, RunLocal(c, s, e, st[s][e]))
    case Collective(s) =>
      st[s := seq(c.sh.world, e requires 0 <= e < c.sh.world => Deliver(c, st[s], e))]
    case Transfer(s, e) =>
      var sent, r := Cur(c, s, st[s][e]), st[s + 1][e];
      Set(Set(st, s, e, FinishBatch(c, s, st[s][e])), s + 1, e, Advance(c, r.(ppRecv := sent)))
  }

  /** Every rank is before its first operation; buffers hold anything (`torch.empty`). */
  predicate Init<V>(c: Config<V>, st: State<V>) {
    && WellSized(c, st)
    && forall s, e :: 0 <= s < c.stages && 0 <= e < c.sh.world ==>
         st[s][e].mb == 0 && st[s][e].at == Start && st[s][e].done == []
  }

  predicate Final<V>(c: Config<V>, st: State<V>)
    requires WellSized(c, st)
  {
    forall s, e :: 0 <= s < c.stages && 0 <= e < c.sh.world ==> !Busy(c, st[s][e])
  }

  /** Shapes survive every step, so `Apply` can be iterated. */
  lemma ApplyKeepsSizes<V>(c: Config<V>, st: State<V>, step: Step)
    requires c.Valid() && WellSized(c, st) && Enabled(c, st, step)
    ensures WellSized(c, Apply(c, st, step))
  {
    hide RunLocal, Deliver, ValidGroup;
  }

  /** An execution: `steps[i]` takes `states[i]` to `states[i + 1]`. */
  ghost predicate IsRun<V>(c: Config<V>, states: seq<State<V>>, steps: seq<Step>)
    requires c.Valid()
  {
    && |states| == |steps| + 1
    && Init(c, states[0])
    && forall i :: 0 <= i < |steps| ==>
         && WellSized(c, states[i])
         && Enabled(c, states[i], steps[i])
         && states[i + 1] == Apply(c, states[i], steps[i])
  }
}
