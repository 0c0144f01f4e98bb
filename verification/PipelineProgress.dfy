/** Liveness of the hybrid pipeline: no reachable state is stuck, every execution is finite, and one
    that cannot be extended has finished every microbatch on every rank. */
module PipelineProgress {
  import opened Arith
  import opened EpDispatch
  import opened Pipeline
  import opened PipelineSafety

  /** A rank that is not done waits for nothing, or for a rank that is strictly earlier in
      (microbatch, stage, place); following the waits ends at a step that can be taken. */
  lemma {:induction false} SomeStepEnabled<V>(c: Config<V>, st: State<V>, s: nat, e: nat) returns (step: Step)
    requires c.Valid() && Inv(c, st)
    requires s < c.stages && e < c.sh.world && Busy(c, st[s][e])
    ensures Enabled(c, st, step)
    decreases st[s][e].mb, s, Ordinal(c, st[s][e].at)
  {
    hide RankInv, ValidGroup;
    var r := st[s][e];
    if AtLocal(c, s, r) {
      step := Local(s, e);
    } else if AtRecv(c, s, r) {
      assert MatchedAt(c, st, s - 1, e);
      step := SomeStepEnabled(c, st, s - 1, e);
    } else if AtSend(c, s, r) {
      assert MatchedAt(c, st, s, e);
      if st[s + 1][e].at.Start? {
        step := Transfer(s, e);
      } else {
        step := SomeStepEnabled(c, st, s + 1, e);
      }
    } else {
      assert AtCollective(c, r);
      assert InStep(c, st[s]);
      if j :| 0 <= j < c.sh.world && (st[s][j].mb, st[s][j].at) != (r.mb, r.at) {
        LaggingMember(c, r, st[s][j]);
        step := SomeStepEnabled(c, st, s, j);
      } else {
        step := Collective(s);
      }
    }
  }

  /** Operations before a place within one pass over a microbatch. */
  function Ordinal<V>(c: Config<V>, at: Place): nat {
    match at
    case Start => 0
    case In(l, p) => 1 + 7 * l + Index(p)
    case Finish => 1 + 7 * c.layersPerStage
  }

  function OpsPerBatch<V>(c: Config<V>): nat {
    2 + 7 * c.layersPerStage
  }

  /** A member awaited at an all-to-all is behind, never ahead. */
  lemma LaggingMember<V>(c: Config<V>, r: Rank<V>, other: Rank<V>)
    requires Sized(c, r) && Sized(c, other) && AtCollective(c, r)
    requires NextExchange(c, r.mb, r.at) == NextExchange(c, other.mb, other.at)
    requires (other.mb, other.at) != (r.mb, r.at)
    ensures Busy(c, other)
    ensures other.mb < r.mb || (other.mb == r.mb && Ordinal(c, other.at) < Ordinal(c, r.at))
  {}

  lemma NoDeadlock<V>(c: Config<V>, states: seq<State<V>>, steps: seq<Step>, i: nat)
    requires c.Valid() && IsRun(c, states, steps) && i < |states|
    ensures WellSized(c, states[i])
    ensures Final(c, states[i]) || exists step :: Enabled(c, states[i], step)
  {
    RunInv(c, states, steps, i);
    if !Final(c, states[i]) {
      var s, e :| 0 <= s < c.stages && 0 <= e < c.sh.world && Busy(c, states[i][s][e]);
      var step := SomeStepEnabled(c, states[i], s, e);
    }
  }

  // ---- Termination ----

  function OpsOfBatches<V>(c: Config<V>, batches: nat): nat {
    if batches == 0 then 0 else OpsOfBatches(c, batches - 1) + OpsPerBatch(c)
  }

  /** Operations a rank still has to perform. */
  function Left<V>(c: Config<V>, r: Rank<V>): nat
    requires Sized(c, r)
  {
    if r.mb >= c.batches then 0
    else OpsOfBatches(c, c.batches - r.mb - 1) + (OpsPerBatch(c) - Ordinal(c, r.at))
  }

  function LeftInStage<V>(c: Config<V>, members: seq<Rank<V>>): nat
    requires forall i :: 0 <= i < |members| ==> Sized(c, members[i])
  {
    if members == [] then 0 else LeftInStage(c, members[1..]) + Left(c, members[0])
  }

  function LeftOverall<V>(c: Config<V>, st: State<V>): nat
    requires forall s :: 0 <= s < |st| ==> forall i :: 0 <= i < |st[s]| ==> Sized(c, st[s][i])
  {
    if st == [] then 0 else LeftOverall(c, st[1..]) + LeftInStage(c, st[0])
  }

  lemma AdvanceUsesOne<V>(c: Config<V>, r: Rank<V>, r': Rank<V>)
    requires Sized(c, r) && Sized(c, r') && Busy(c, r)
    requires (!r.at.Finish? && r'.mb == r.mb && r'.at == NextPlace(c, r.at))
             || (r.at.Finish? && r'.mb == r.mb + 1 && r'.at == Start)
    ensures Left(c, r') == Left(c, r) - 1
  {}

  lemma {:induction false} StageShrinks<V>(c: Config<V>, a: seq<Rank<V>>, b: seq<Rank<V>>, w: nat)
    requires |a| == |b| && w < |a|
    requires forall i :: 0 <= i < |a| ==> Sized(c, a[i]) && Sized(c, b[i]) && Left(c, b[i]) <= Left(c, a[i])
    requires Left(c, b[w]) < Left(c, a[w])
    ensures LeftInStage(c, b) < LeftInStage(c, a)
  {
    if w == 0 {
      StageNotLarger(c, a[1..], b[1..]);
    } else {
      StageShrinks(c, a[1..], b[1..], w - 1);
    }
  }

  lemma {:induction false} StageNotLarger<V>(c: Config<V>, a: seq<Rank<V>>, b: seq<Rank<V>>)
    requires |a| == |b|
    requires forall i :: 0 <= i < |a| ==> Sized(c, a[i]) && Sized(c, b[i]) && Left(c, b[i]) <= Left(c, a[i])
    ensures LeftInStage(c, b) <= LeftInStage(c, a)
  {
    if a != [] { StageNotLarger(c, a[1..], b[1..]); }
  }

  lemma {:induction false} OverallShrinks<V>(c: Config<V>, a: State<V>, b: State<V>, s: nat)
    requires |a| == |b| && s < |a|
    requires forall i :: 0 <= i < |a| ==> forall j :: 0 <= j < |a[i]| ==> Sized(c, a[i][j])
    requires forall i :: 0 <= i < |a| ==> forall j :: 0 <= j < |b[i]| ==> Sized(c, b[i][j])
    requires forall i :: 0 <= i < |a| ==> LeftInStage(c, b[i]) <= LeftInStage(c, a[i])
    requires LeftInStage(c, b[s]) < LeftInStage(c, a[s])
    ensures LeftOverall(c, b) < LeftOverall(c, a)
  {
    if s == 0 {
      OverallNotLarger(c, a[1..], b[1..]);
    } else {
      OverallShrinks(c, a[1..], b[1..], s - 1);
    }
  }

  lemma {:induction false} OverallNotLarger<V>(c: Config<V>, a: State<V>, b: State<V>)
    requires |a| == |b|
    requires forall i :: 0 <= i < |a| ==> forall j :: 0 <= j < |a[i]| ==> Sized(c, a[i][j])
    requires forall i :: 0 <= i < |a| ==> forall j :: 0 <= j < |b[i]| ==> Sized(c, b[i][j])
    requires forall i :: 0 <= i < |a| ==> LeftInStage(c, b[i]) <= LeftInStage(c, a[i])
    ensures LeftOverall(c, b) <= LeftOverall(c, a)
  {
    if a != [] { OverallNotLarger(c, a[1..], b[1..]); }
  }

  /** A step either leaves a rank alone or takes it one operation further, and moves some rank. */
  lemma StepMoves<V>(c: Config<V>, st: State<V>, step: Step, i: nat, j: nat)
    requires c.Valid() && WellSized(c, st) && Enabled(c, st, step)
    requires i < c.stages && j < c.sh.world
    ensures WellSized(c, Apply(c, st, step))
    ensures var r, r' := st[i][j], Apply(c, st, step)[i][j];
            || (r' == r && !Moved(step, i, j))
            || (Left(c, r') == Left(c, r) - 1)
  {
    ApplyKeepsSizes(c, st, step);
    hide SendX, Kernel, Unpermute, ValidGroup, SendBufs, IdBufs, WBufs, OutBufs;
    var r, r' := st[i][j], Apply(c, st, step)[i][j];
    if Moved(step, i, j) { AdvanceUsesOne(c, r, r'); }
  }

  predicate Moved(step: Step, i: nat, j: nat) {
    match step
    case Local(s, e) => s == i && e == j
    case Collective(s) => s == i
    case Transfer(s, e) => (s == i || s + 1 == i) && e == j
  }

  lemma EveryStepShrinks<V>(c: Config<V>, st: State<V>, step: Step)
    requires c.Valid() && WellSized(c, st) && Enabled(c, st, step)
    ensures WellSized(c, Apply(c, st, step))
    ensures LeftOverall(c, Apply(c, st, step)) < LeftOverall(c, st)
  {
    hide Apply, ValidGroup, Left, LeftInStage, LeftOverall, RunLocal, FinishBatch, Act;
    ApplyKeepsSizes(c, st, step);
    var st' := Apply(c, st, step);
    var s, e := step.s, if step.Collective? then 0 else step.e;
    forall i, j | 0 <= i < c.stages && 0 <= j < c.sh.world ensures Left(c, st'[i][j]) <= Left(c, st[i][j]) {
      StepMoves(c, st, step, i, j);
    }
    StepMoves(c, st, step, s, e);
    forall i | 0 <= i < c.stages ensures LeftInStage(c, st'[i]) <= LeftInStage(c, st[i]) {
      StageNotLarger(c, st[i], st'[i]);
    }
    StageShrinks(c, st[s], st'[s], e);
    OverallShrinks(c, st, st', s);
  }

  /** No execution is longer than the operations its first state has left. */
  lemma {:induction false} RunsAreBounded<V>(c: Config<V>, states: seq<State<V>>, steps: seq<Step>, i: nat)
    requires c.Valid() && IsRun(c, states, steps) && i < |states|
    ensures WellSized(c, states[i])
    ensures i + LeftOverall(c, states[i]) <= LeftOverall(c, states[0])
  {
    hide Apply, LeftOverall, Enabled;
    if i > 0 {
      RunsAreBounded(c, states, steps, i - 1);
      EveryStepShrinks(c, states[i - 1], steps[i - 1]);
    }
  }

  lemma {:induction false} FullStage<V>(c: Config<V>, members: seq<Rank<V>>)
    requires forall i :: 0 <= i < |members| ==> Sized(c, members[i]) && members[i].mb == 0 && members[i].at == Start
    ensures LeftInStage(c, members) == |members| * OpsOfBatches(c, c.batches)
  {
    if members != [] { FullStage(c, members[1..]); }
  }

  lemma {:induction false} FullPipeline<V>(c: Config<V>, st: State<V>, n: nat)
    requires forall s :: 0 <= s < |st| ==>
               |st[s]| == n && forall i :: 0 <= i < n ==> Sized(c, st[s][i]) && st[s][i].mb == 0 && st[s][i].at == Start
    ensures LeftOverall(c, st) == |st| * (n * OpsOfBatches(c, c.batches))
  {
    if st != [] {
      hide OpsOfBatches, Left;
      FullStage(c, st[0]);
      FullPipeline(c, st[1..], n);
      OneMore(|st| - 1, n * OpsOfBatches(c, c.batches));
    }
  }

  lemma {:induction false} OpsOfBatchesIsProduct<V>(c: Config<V>, batches: nat)
    ensures OpsOfBatches(c, batches) == batches * OpsPerBatch(c)
  {
    if batches > 0 { OpsOfBatchesIsProduct(c, batches - 1); }
  }

  /** Main result: an execution has at most as many steps as there are operations in all programs
      together. */
  lemma RunsAreFinite<V>(c: Config<V>, states: seq<State<V>>, steps: seq<Step>)
    requires c.Valid() && IsRun(c, states, steps)
    ensures |steps| <= c.stages * (c.sh.world * (c.batches * (2 + 7 * c.layersPerStage)))
  {
    FullPipeline(c, states[0], c.sh.world);
    OpsOfBatchesIsProduct(c, c.batches);
    RunsAreBounded(c, states, steps, |steps|);
  }

  /** An execution to which no step can be added. */
  ghost predicate IsComplete<V>(c: Config<V>, states: seq<State<V>>, steps: seq<Step>) {
    && c.Valid() && IsRun(c, states, steps) && WellSized(c, states[|steps|])
    && forall step :: !Enabled(c, states[|steps|], step)
  }

  /** Main result, for any routing: a complete execution has finished all microbatches on every rank, and
      each EP rank of the last stage holds the results of all layers, in order. */
  lemma CompleteRunsFinish<V>(c: Config<V>, states: seq<State<V>>, steps: seq<Step>, e: nat, m: nat)
    requires IsComplete(c, states, steps) && e < c.sh.world && m < c.batches
    ensures Final(c, states[|steps|])
    ensures var last := states[|steps|][c.stages - 1][e];
            |last.done| == c.batches && last.done[m] == Act(c, |c.layers|, m)[e]
  {
    NoDeadlock(c, states, steps, |steps|);
    RunInv(c, states, steps, |steps|);
    var last := states[|steps|][c.stages - 1][e];
    assert RankInv(c, c.stages - 1, e, last) && !Busy(c, last);
    FinishedOutputsAreLayers(c, states, steps, |steps|, e, m);
  }

  /** Every execution can be continued to a complete one. */
  lemma {:induction false} Continue<V>(c: Config<V>, states: seq<State<V>>, steps: seq<Step>)
    returns (longer: seq<State<V>>, more: seq<Step>)
    requires c.Valid() && IsRun(c, states, steps) && WellSized(c, states[|steps|])
    ensures IsComplete(c, longer, more) && states <= longer && steps <= more
    decreases LeftOverall(c, states[|steps|])
  {
    hide Apply, LeftOverall, Enabled, WellSized, Init;
    var st := states[|steps|];
    if step :| Enabled(c, st, step) {
      EveryStepShrinks(c, st, step);
      longer, more := Continue(c, states + [Apply(c, st, step)], steps + [step]);
    } else {
      longer, more := states, steps;
    }
  }

  function Blank<V>(c: Config<V>): (r: Rank<V>)
    ensures Sized(c, r) && r.mb == 0 && r.at == Start && r.done == []
  {
    var (z, t, n) := (c.sp.zero, c.sh.tokens, c.sh.slots);
    Rank(0, Start, seq(t, _ => z), seq(t, _ => z), seq(n, _ => z), seq(n, _ => z), seq(n, _ => 0), seq(n, _ => 0.0),
         seq(n, _ => z), seq(n, _ => z), [])
  }

  lemma CompleteRunExists<V>(c: Config<V>) returns (states: seq<State<V>>, steps: seq<Step>)
    requires c.Valid()
    ensures IsComplete(c, states, steps)
  {
    var st := seq(c.stages, _ => seq(c.sh.world, _ => Blank(c)));
    assert WellSized(c, st);
    states, steps := Continue(c, [st], []);
  }
}
