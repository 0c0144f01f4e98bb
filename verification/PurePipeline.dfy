/** The pure pipeline: every stage holds all experts and runs fused layers between a recv and a send. */
module PurePipeline {
  import opened Arith
  import opened Moe

  /** `layers[s][l]` is layer `l` of stage `s`; the routing of a microbatch is shared by all layers. */
  datatype Config<!V> = Config(
    sp: Space<V>,
    tokens: nat,
    topk: nat,
    perStage: nat,
    layers: seq<seq<Expert<V>>>,
    routings: seq<Routing>,
    inputs: seq<seq<V>>
  ) {
    predicate Valid() {
      && layers != []
      && (forall s :: 0 <= s < |layers| ==> |layers[s]| == perStage)
      && |routings| == |inputs|
      && forall mb :: 0 <= mb < |inputs| ==>
           |inputs[mb]| == tokens && |routings[mb].ids| == |routings[mb].weights| == tokens * topk
    }
  }

  /** Before taking the input, before layer `l`, or before handing the result on. */
  datatype Place = Start | Before(l: nat) | Finish

  /** A rank's program position, its local `x`, its receive buffer, and the activations it has finished. */
  datatype Rank<V> = Rank(mb: nat, at: Place, x: seq<V>, recv: seq<V>, done: seq<seq<V>>)

  /** One rank per stage. */
  type State<V> = seq<Rank<V>>

  datatype Step = Local(s: nat) | Transfer(s: nat)

  predicate Sized<V>(c: Config<V>, r: Rank<V>) {
    && |r.x| == |r.recv| == c.tokens
    && (r.at.Before? ==> r.at.l < c.perStage)
    && r.mb <= |c.inputs| && (r.mb == |c.inputs| ==> r.at == Start)
  }

  predicate WellSized<V>(c: Config<V>, st: State<V>) {
    |st| == |c.layers| && forall s :: 0 <= s < |st| ==> Sized(c, st[s])
  }

  function Enter<V>(c: Config<V>, l: nat): Place {
    if l < c.perStage then Before(l) else Finish
  }

  /** The tensor in hand: the receive buffer itself until a layer has returned. */
  function Cur<V>(c: Config<V>, s: nat, r: Rank<V>): seq<V> {
    if s > 0 && (r.at == Before(0) || c.perStage == 0) then r.recv else r.x
  }

  predicate Busy<V>(c: Config<V>, r: Rank<V>) {
    r.mb < |c.inputs|
  }

  predicate AtLocal(at: Place, s: nat, stages: nat) {
    match at
    case Start => s == 0
    case Before(_) => true
    case Finish => s + 1 == stages
  }

  predicate Enabled<V>(c: Config<V>, st: State<V>, step: Step)
    requires WellSized(c, st)
  {
    match step
    case Local(s) => s < |st| && Busy(c, st[s]) && AtLocal(st[s].at, s, |st|)
    case Transfer(s) =>
      s + 1 < |st| && Busy(c, st[s]) && Busy(c, st[s + 1]) && st[s].at == Finish && st[s + 1].at == Start
  }

  function FinishBatch<V>(c: Config<V>, s: nat, r: Rank<V>): Rank<V> {
    r.(mb := r.mb + 1, at := Start, done := r.done + [Cur(c, s, r)])
  }

  function RunLocal<V>(c: Config<V>, s: nat, r: Rank<V>): (r': Rank<V>)
    requires c.Valid() && s < |c.layers| && Sized(c, r) && Busy(c, r)
  {
    match r.at
    case Start => r.(x := c.inputs[r.mb], at := Enter(c, 0))
    case Before(l) =>
      r.(x := Dense(c.sp, c.layers[s][l], c.topk, c.routings[r.mb], Cur(c, s, r)), at := Enter(c, l + 1))
    case Finish => FinishBatch(c, s, r)
  }

  function Apply<V>(c: Config<V>, st: State<V>, step: Step): State<V>
    requires c.Valid() && WellSized(c, st) && Enabled(c, st, step)
  {
    match step
    case Local(s) => st[s := RunLocal(c, s, st[s])]
    case Transfer(s) =>
      st[s := FinishBatch(c, s, st[s])][s + 1 := st[s + 1].(recv := Cur(c, s, st[s]), at := Enter(c, 0))]
  }

  predicate Init<V>(c: Config<V>, st: State<V>) {
    WellSized(c, st) && forall s :: 0 <= s < |st| ==> st[s].mb == 0 && st[s].at == Start && st[s].done == []
  }

  ghost predicate IsRun<V>(c: Config<V>, states: seq<State<V>>, steps: seq<Step>)
    requires c.Valid()
  {
    && |states| == |steps| + 1 && Init(c, states[0])
    && forall i :: 0 <= i < |steps| ==>
         WellSized(c, states[i]) && Enabled(c, states[i], steps[i]) && states[i + 1] == Apply(c, states[i], steps[i])
  }

  // ---- Safety ----

  /** The specification: microbatch `mb` ahead of layer `l` of stage `s`, all layers before it applied densely in
      global order. */
  function Act<V>(c: Config<V>, s: nat, l: nat, mb: nat): (x: seq<V>)
    requires c.Valid() && s < |c.layers| && l <= c.perStage && mb < |c.inputs|
    ensures |x| == c.tokens
    decreases s, l
  {
    if l > 0 then Dense(c.sp, c.layers[s][l - 1], c.topk, c.routings[mb], Act(c, s, l - 1, mb))
    else if s > 0 then Act(c, s - 1, c.perStage, mb)
    else c.inputs[mb]
  }

  ghost predicate RankInv<V>(c: Config<V>, s: nat, r: Rank<V>)
    requires c.Valid() && s < |c.layers|
  {
    && Sized(c, r) && |r.done| == r.mb
    && (forall m :: 0 <= m < r.mb ==> r.done[m] == Act(c, s, c.perStage, m))
    && (r.at.Before? ==> Cur(c, s, r) == Act(c, s, r.at.l, r.mb))
    && (r.at.Finish? ==> Cur(c, s, r) == Act(c, s, c.perStage, r.mb))
  }

  /** Sends completed by a stage are the recvs completed by the next one. */
  predicate Matched<V>(r: Rank<V>, next: Rank<V>) {
    r.mb == next.mb + (if next.at.Start? then 0 else 1)
  }

  predicate MatchedAt<V>(st: State<V>, s: nat)
    requires s < |st|
  {
    s + 1 < |st| ==> Matched(st[s], st[s + 1])
  }

  ghost predicate Inv<V>(c: Config<V>, st: State<V>)
    requires c.Valid()
  {
    && WellSized(c, st)
    && (forall s :: 0 <= s < |st| ==> RankInv(c, s, st[s]))
    && (forall s :: 0 <= s < |st| ==> MatchedAt(st, s))
  }

  lemma LocalKeepsRankInv<V>(c: Config<V>, s: nat, r: Rank<V>)
    requires c.Valid() && s < |c.layers| && RankInv(c, s, r) && Busy(c, r) && (r.at.Start? ==> s == 0)
    ensures RankInv(c, s, RunLocal(c, s, r))
  {
    hide Dense, Act;
    if r.at.Before? { NextLayer(c, s, r.at.l, r.mb); } else { FirstInput(c, r.mb); }
  }

  lemma NextLayer<V>(c: Config<V>, s: nat, l: nat, mb: nat)
    requires c.Valid() && s < |c.layers| && l < c.perStage && mb < |c.inputs|
    ensures Act(c, s, l + 1, mb) == Dense(c.sp, c.layers[s][l], c.topk, c.routings[mb], Act(c, s, l, mb))
  {
    hide Dense;
  }

  lemma FirstInput<V>(c: Config<V>, mb: nat)
    requires c.Valid() && mb < |c.inputs|
    ensures Act(c, 0, 0, mb) == c.inputs[mb]
  {}

  lemma TransferKeepsRankInv<V>(c: Config<V>, s: nat, r: Rank<V>, next: Rank<V>)
    requires c.Valid() && s + 1 < |c.layers| && RankInv(c, s, r) && RankInv(c, s + 1, next)
    requires Busy(c, r) && r.at == Finish && next.at == Start && r.mb == next.mb
    ensures RankInv(c, s, FinishBatch(c, s, r))
    ensures RankInv(c, s + 1, next.(recv := Cur(c, s, r), at := Enter(c, 0)))
  {
    hide Dense;
  }

  /** Every step of every rank keeps the invariant. */
  lemma StepKeepsInv<V>(c: Config<V>, st: State<V>, step: Step)
    requires c.Valid() && Inv(c, st) && Enabled(c, st, step)
    ensures Inv(c, Apply(c, st, step))
  {
    hide RankInv, RunLocal;
    var s, st' := step.s, Apply(c, st, step);
    assert MatchedAt(st, s) && (s > 0 ==> MatchedAt(st, s - 1));
    if step.Local? {
      LocalKeepsRankInv(c, s, st[s]);
      LocalMoves(c, s, st[s]);
    } else {
      TransferKeepsRankInv(c, s, st[s], st[s + 1]);
      FinishIsSized(c, s, st[s]);
      assert s + 2 < |st| ==> MatchedAt(st, s + 1);
    }
    forall i | 0 <= i < |st'| ensures Sized(c, st'[i]) && RankInv(c, i, st'[i]) {
      assert RankInv(c, i, st[i]);
    }
    forall i | 0 <= i < |st'| ensures MatchedAt(st', i) {
      assert MatchedAt(st, i);
    }
  }

  lemma FinishIsSized<V>(c: Config<V>, s: nat, r: Rank<V>)
    requires Sized(c, r) && Busy(c, r)
    ensures Sized(c, FinishBatch(c, s, r))
  {}

  /** What a local operation does to a rank's place. */
  lemma LocalMoves<V>(c: Config<V>, s: nat, r: Rank<V>)
    requires c.Valid() && s < |c.layers| && Sized(c, r) && Busy(c, r)
    ensures var r' := RunLocal(c, s, r);
            && Sized(c, r')
            && (r.at.Finish? ==> r'.mb == r.mb + 1 && r'.at == Start)
            && (!r.at.Finish? ==> r'.mb == r.mb && r'.at == Enter(c, if r.at.Start? then 0 else r.at.l + 1))
  {
    hide Dense;
  }

  lemma {:induction false} RunInv<V>(c: Config<V>, states: seq<State<V>>, steps: seq<Step>, i: nat)
    requires c.Valid() && IsRun(c, states, steps) && i < |states|
    ensures Inv(c, states[i])
  {
    hide Apply;
    if i > 0 {
      RunInv(c, states, steps, i - 1);
      StepKeepsInv(c, states[i - 1], steps[i - 1]);
    } else {
      forall s | 0 <= s < |states[0]| ensures RankInv(c, s, states[0][s]) && MatchedAt(states[0], s) {}
    }
  }

  // ---- Progress ----

  function Ordinal<V>(c: Config<V>, at: Place): nat {
    match at
    case Start => 0
    case Before(l) => 1 + l
    case Finish => 1 + c.perStage
  }

  /** A rank that is not done can move, or waits for a rank earlier in (microbatch, stage) order. */
  lemma {:induction false} SomeStepEnabled<V>(c: Config<V>, st: State<V>, s: nat) returns (step: Step)
    requires c.Valid() && Inv(c, st) && s < |st| && Busy(c, st[s])
    ensures Enabled(c, st, step)
    decreases st[s].mb, s
  {
    hide RankInv;
    assert MatchedAt(st, s) && (s > 0 ==> MatchedAt(st, s - 1));
    if st[s].at.Before? || (st[s].at.Start? && s == 0) || (st[s].at.Finish? && s + 1 == |st|) {
      step := Local(s);
    } else if st[s].at.Start? {
      step := SomeStepEnabled(c, st, s - 1);
    } else if st[s + 1].at.Start? {
      step := Transfer(s);
    } else {
      step := SomeStepEnabled(c, st, s + 1);
    }
  }

  lemma NoDeadlock<V>(c: Config<V>, states: seq<State<V>>, steps: seq<Step>, i: nat)
    requires c.Valid() && IsRun(c, states, steps) && i < |states|
    ensures WellSized(c, states[i])
    ensures (forall s :: 0 <= s < |states[i]| ==> !Busy(c, states[i][s])) || exists step :: Enabled(c, states[i], step)
  {
    RunInv(c, states, steps, i);
    if s :| 0 <= s < |states[i]| && Busy(c, states[i][s]) {
      var step := SomeStepEnabled(c, states[i], s);
    }
  }

  /** Operations a rank has performed, and all ranks together. */
  function Done<V>(c: Config<V>, r: Rank<V>): nat {
    r.mb * (c.perStage + 2) + Ordinal(c, r.at)
  }

  function AllDone<V>(c: Config<V>, st: State<V>): nat {
    if st == [] then 0 else AllDone(c, st[..|st| - 1]) + Done(c, st[|st| - 1])
  }

  lemma {:induction false} AllDoneGrows<V>(c: Config<V>, st: State<V>, st': State<V>, s: nat)
    requires |st| == |st'| && s < |st| && Done(c, st'[s]) > Done(c, st[s])
    requires forall i :: 0 <= i < |st| ==> Done(c, st'[i]) >= Done(c, st[i])
    ensures AllDone(c, st') > AllDone(c, st)
  {
    hide Done;
    var n := |st| - 1;
    if s < n { AllDoneGrows(c, st[..n], st'[..n], s); } else { AllDoneNotLess(c, st[..n], st'[..n]); }
  }

  lemma {:induction false} AllDoneNotLess<V>(c: Config<V>, st: State<V>, st': State<V>)
    requires |st| == |st'| && forall i :: 0 <= i < |st| ==> Done(c, st'[i]) >= Done(c, st[i])
    ensures AllDone(c, st') >= AllDone(c, st)
  {
    hide Done;
    if st != [] { AllDoneNotLess(c, st[..|st| - 1], st'[..|st| - 1]); }
  }

  lemma {:induction false} AllDoneBound<V>(c: Config<V>, st: State<V>, k: nat)
    requires forall i :: 0 <= i < |st| ==> Done(c, st[i]) <= k
    ensures AllDone(c, st) <= |st| * k
  {
    hide Done;
    if st != [] {
      AllDoneBound(c, st[..|st| - 1], k);
      OneMore(|st| - 1, k);
    }
  }

  lemma DoneBound<V>(c: Config<V>, r: Rank<V>)
    requires Sized(c, r)
    ensures Done(c, r) <= |c.inputs| * (c.perStage + 2)
  {
    var k := c.perStage + 2;
    if r.mb < |c.inputs| {
      assert (r.mb + 1) * k == r.mb * k + k;
      assert (r.mb + 1) * k <= |c.inputs| * k;
    }
  }

  lemma DoneStep<V>(c: Config<V>, r: Rank<V>, r': Rank<V>)
    requires Sized(c, r)
    requires (r.at == Finish && r'.mb == r.mb + 1 && r'.at == Start)
             || (r'.mb == r.mb && !r.at.Finish? && r'.at == Enter(c, if r.at.Start? then 0 else r.at.l + 1))
    ensures Done(c, r') == Done(c, r) + 1
  {
    var k := c.perStage + 2;
    assert (r.mb + 1) * k == r.mb * k + k;
  }

  lemma StepMoves<V>(c: Config<V>, st: State<V>, step: Step)
    requires c.Valid() && WellSized(c, st) && Enabled(c, st, step)
    ensures AllDone(c, Apply(c, st, step)) > AllDone(c, st)
  {
    hide Done, AllDone, RunLocal;
    var s, st' := step.s, Apply(c, st, step);
    if step.Local? {
      LocalMoves(c, s, st[s]);
      DoneStep(c, st[s], st'[s]);
    } else {
      DoneStep(c, st[s], st'[s]);
      DoneStep(c, st[s + 1], st'[s + 1]);
    }
    AllDoneGrows(c, st, st', s);
  }

  lemma {:induction false} StepsAreCounted<V>(c: Config<V>, states: seq<State<V>>, steps: seq<Step>, i: nat)
    requires c.Valid() && IsRun(c, states, steps) && i < |states|
    ensures i <= AllDone(c, states[i])
  {
    hide Apply, AllDone, Enabled;
    if i > 0 {
      StepsAreCounted(c, states, steps, i - 1);
      StepMoves(c, states[i - 1], steps[i - 1]);
    }
  }

  /** Main result: at any moment of any run, what a stage has finished is, microbatch by microbatch, all layers up
      to its own applied densely. */
  lemma FinishedIsDense<V>(c: Config<V>, states: seq<State<V>>, steps: seq<Step>, i: nat, s: nat, m: nat)
    requires c.Valid() && IsRun(c, states, steps) && i < |states| && s < |c.layers|
    requires |states[i]| == |c.layers| && m < |states[i][s].done|
    ensures m < |c.inputs| && states[i][s].done[m] == Act(c, s, c.perStage, m)
  {
    hide Apply, Enabled, Act;
    RunInv(c, states, steps, i);
    assert RankInv(c, s, states[i][s]);
  }

  /** A run that cannot be continued. */
  ghost predicate IsComplete<V>(c: Config<V>, states: seq<State<V>>, steps: seq<Step>)
    requires c.Valid()
  {
    && IsRun(c, states, steps) && WellSized(c, states[|steps|])
    && forall step :: !Enabled(c, states[|steps|], step)
  }

  /** Main result: runs are bounded, and one that cannot be continued has all microbatches, in order, processed by
      all layers. */
  lemma PipelineIsDense<V>(c: Config<V>, states: seq<State<V>>, steps: seq<Step>)
    requires c.Valid() && IsRun(c, states, steps)
    ensures |steps| <= |c.layers| * (|c.inputs| * (c.perStage + 2))
    ensures WellSized(c, states[|steps|])
    ensures IsComplete(c, states, steps) ==>
              var last := states[|steps|][|c.layers| - 1];
              && |last.done| == |c.inputs|
              && forall m :: 0 <= m < |c.inputs| ==> last.done[m] == Act(c, |c.layers| - 1, c.perStage, m)
  {
    hide Apply, Enabled, AllDone, Act, Done;
    RunInv(c, states, steps, |steps|);
    StepsAreCounted(c, states, steps, |steps|);
    forall i | 0 <= i < |c.layers|
      ensures Done(c, states[|steps|][i]) <= |c.inputs| * (c.perStage + 2)
    {
      DoneBound(c, states[|steps|][i]);
    }
    AllDoneBound(c, states[|steps|], |c.inputs| * (c.perStage + 2));
    NoDeadlock(c, states, steps, |steps|);
    assert RankInv(c, |c.layers| - 1, states[|steps|][|c.layers| - 1]);
  }

  /** Every run can be continued to a complete one. */
  lemma {:induction false} Continue<V>(c: Config<V>, states: seq<State<V>>, steps: seq<Step>)
    returns (longer: seq<State<V>>, more: seq<Step>)
    requires c.Valid() && IsRun(c, states, steps)
    ensures IsComplete(c, longer, more) && states <= longer && steps <= more
    decreases |c.layers| * (|c.inputs| * (c.perStage + 2)) - |steps|
  {
    hide Apply, Enabled, WellSized, Init;
    PipelineIsDense(c, states, steps);
    if step :| Enabled(c, states[|steps|], step) {
      var x, y := states + [Apply(c, states[|steps|], step)], steps + [step];
      PipelineIsDense(c, x, y);
      longer, more := Continue(c, x, y);
    } else {
      longer, more := states, steps;
    }
  }

  /** From any buffers there is a complete run. */
  lemma CompleteRunExists<V>(c: Config<V>, st: State<V>) returns (states: seq<State<V>>, steps: seq<Step>)
    requires c.Valid() && Init(c, st)
    ensures IsComplete(c, states, steps) && states[0] == st
  {
    states, steps := Continue(c, [st], []);
  }

  lemma InitialStateExists<V>(c: Config<V>) returns (st: State<V>)
    requires c.Valid()
    ensures Init(c, st)
  {
    var buffer := seq(c.tokens, _ => c.sp.zero);
    st := seq(|c.layers|, _ => Rank(0, Start, buffer, buffer, []));
  }
}
