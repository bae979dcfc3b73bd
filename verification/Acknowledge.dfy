/** internal/service/iterator.go, internal/enrich/item.go and pipeline.go: one
    message carries several records; its offset is committed once, when every
    record has been skipped or taken through the pipeline. */
module Acknowledge {

  /** What one acknowledgement does to a count, and whether it was the last. */
  function CountDown(remaining: nat): (nat, bool) {
    if remaining == 0 then (0, false) else (remaining - 1, remaining == 1)
  }

  /** A message's acknowledgements still outstanding. The commit callback is
      represented by how often it has run. */
  class Acker {
    var remaining: nat
    var commits: nat

    constructor (count: nat)
      ensures remaining == count
      ensures commits == if count == 0 then 1 else 0
    {
      remaining := count;
      commits := if count == 0 then 1 else 0;
    }

    method Done()
      modifies this
      ensures remaining == CountDown(old(remaining)).0
      ensures remaining == if old(remaining) > 0 then old(remaining) - 1 else 0
      ensures commits == old(commits) + if CountDown(old(remaining)).1 then 1 else 0
      ensures commits == old(commits) + if old(remaining) == 1 then 1 else 0
    {
      if remaining == 0 {
        return;
      }
      remaining := remaining - 1;
      var last := remaining == 0;
      if last {
        commits := commits + 1;
      }
    }
  }

  /** A record on its way through the pipeline, with the callback it owes. */
  class Item {
    var onDone: Acker?
    var stepsRun: nat

    constructor (onDone: Acker?)
      ensures this.onDone == onDone && stepsRun == 0
    {
      this.onDone := onDone;
      stepsRun := 0;
    }

    /** Calls back the first time only. */
    method Done()
      modifies this, onDone
      ensures onDone == null && stepsRun == old(stepsRun)
      ensures var acker := old(onDone);
              acker != null ==>
                && acker.remaining == CountDown(old(acker.remaining)).0
                && acker.commits == old(acker.commits) + if CountDown(old(acker.remaining)).1 then 1 else 0
    {
      var callback := onDone;
      onDone := null;
      if callback != null {
        callback.Done();
      }
    }
  }

  function Sum(steps: seq<nat>): nat {
    if steps == [] then 0 else Sum(steps[..|steps| - 1]) + steps[|steps| - 1]
  }

  /** Every stage in turn, every step of it, then the completion signal. */
  method ProcessItem(item: Item, stages: seq<nat>)
    modifies item, item.onDone
    ensures item.onDone == null
    ensures item.stepsRun == old(item.stepsRun) + Sum(stages)
    ensures var acker := old(item.onDone);
            acker != null ==>
              && acker.remaining == CountDown(old(acker.remaining)).0
              && acker.commits == old(acker.commits) + if CountDown(old(acker.remaining)).1 then 1 else 0
  {
    var s := 0;
    while s < |stages|
      invariant 0 <= s <= |stages|
      invariant item.onDone == old(item.onDone)
      invariant item.onDone != null ==> unchanged(item.onDone)
      invariant item.stepsRun == old(item.stepsRun) + Sum(stages[..s])
    {
      assert stages[..s + 1][..s] == stages[..s];
      item.stepsRun := item.stepsRun + stages[s];
      s := s + 1;
    }
    assert stages[..s] == stages;
    item.Done();
  }

  // ------------------------------------- one message, under every interleaving

  /** Where a record stands: not reached yet, skipped, running a stage with some
      of its steps unfinished, its callback taken but not yet counted, or counted.
      done is the number of steps that have finished. */
  datatype Record =
    | Waiting
    | Skipped
    | Running(stage: nat, left: nat, done: nat)
    | Calling(done: nat)
    | Counted(done: nat)

  /** A message in flight. owed is set between the last count and its commit. */
  datatype Message = Message(stages: seq<nat>, records: seq<Record>, remaining: nat, owed: bool, commits: nat)

  function Received(stages: seq<nat>, n: nat): Message
    requires n > 0
  {
    Message(stages, seq(n, _ => Waiting), n, false, 0)
  }

  datatype Event =
    | Skip(k: nat)          // bad key or failed load
    | Emit(k: nat)          // handed to the pipeline
    | FinishStep(k: nat)    // a step of the current stage returns
    | PassBarrier(k: nat)   // all steps of the stage have returned
    | TakeCallback(k: nat)  // the item's completion signal, first call
    | SignalAgain(k: nat)   // any further call of it
    | Count(k: nat)         // the callback reaches the acker
    | Commit                // the last count runs the commit

  function StartStage(m: Message, stage: nat, done: nat): Record {
    Running(stage, if stage < |m.stages| then m.stages[stage] else 0, done)
  }

  ghost predicate Enabled(m: Message, e: Event) {
    match e
    case Commit => m.owed
    case _ =>
      && e.k < |m.records|
      && match (e, m.records[e.k])
         case (Skip(_), Waiting) => true
         case (Emit(_), Waiting) => true
         case (FinishStep(_), Running(stage, left, _)) => left > 0
         case (PassBarrier(_), Running(stage, left, _)) => left == 0 && stage < |m.stages|
         case (TakeCallback(_), Running(stage, _, _)) => stage >= |m.stages|
         case (SignalAgain(_), Calling(_)) => true
         case (SignalAgain(_), Counted(_)) => true
         case (Count(_), Calling(_)) => true
         case (_, _) => false
  }

  function Acknowledged(m: Message, k: nat, r: Record): Message
    requires k < |m.records|
  {
    var (remaining, last) := CountDown(m.remaining);
    m.(records := m.records[k := r], remaining := remaining, owed := m.owed || last)
  }

  ghost function Step(m: Message, e: Event): Message
    requires Enabled(m, e)
  {
    match e
    case Commit => m.(owed := false, commits := m.commits + 1)
    case Skip(k) => Acknowledged(m, k, Skipped)
    case Emit(k) => m.(records := m.records[k := StartStage(m, 0, 0)])
    case FinishStep(k) =>
      var r := m.records[k];
      m.(records := m.records[k := Running(r.stage, r.left - 1, r.done + 1)])
    case PassBarrier(k) =>
      m.(records := m.records[k := StartStage(m, m.records[k].stage + 1, m.records[k].done)])
    case TakeCallback(k) => m.(records := m.records[k := Calling(m.records[k].done)])
    case SignalAgain(k) => m
    case Count(k) => Acknowledged(m, k, Counted(m.records[k].done))
  }

  ghost predicate Possible(m: Message, run: seq<Event>)
    decreases |run|
  {
    run == [] || (Enabled(m, run[0]) && Possible(Step(m, run[0]), run[1..]))
  }

  ghost function After(m: Message, run: seq<Event>): Message
    requires Possible(m, run)
    decreases |run|
  {
    if run == [] then m else After(Step(m, run[0]), run[1..])
  }

  /** Skipped, or through every step of every stage and counted. */
  predicate Settled(m: Message, r: Record) {
    r.Skipped? || (r.Counted? && r.done == Sum(m.stages))
  }

  function Open(records: seq<Record>): nat {
    if records == [] then 0
    else Open(records[..|records| - 1])
         + if records[|records| - 1].Skipped? || records[|records| - 1].Counted? then 0 else 1
  }

  /** No step of a later stage has run: what has finished is all of the stages
      before, and the finished part of this one. */
  ghost predicate OnSchedule(m: Message, r: Record) {
    match r
    case Running(stage, left, done) =>
      if stage < |m.stages| then left <= m.stages[stage] && done + left == Sum(m.stages[..stage + 1])
      else left == 0 && done == Sum(m.stages)
    case Calling(done) => done == Sum(m.stages)
    case Counted(done) => done == Sum(m.stages)
    case _ => true
  }

  ghost predicate Inv(m: Message) {
    && |m.records| > 0
    && m.remaining == Open(m.records)
    && m.commits + (if m.owed then 1 else 0) == (if m.remaining == 0 then 1 else 0)
    && forall k :: 0 <= k < |m.records| ==> OnSchedule(m, m.records[k])
  }

  lemma {:induction false} OpenAfterUpdate(records: seq<Record>, k: nat, r: Record)
    requires k < |records|
    ensures Open(records[k := r]) == Open(records) - Open([records[k]]) + Open([r])
    decreases |records|
  {
    var n := |records| - 1;
    assert [records[k]][..0] == [] && [r][..0] == [];
    if k == n {
      assert records[k := r][..n] == records[..n];
    } else {
      assert records[k := r][..n] == records[..n][k := r];
      OpenAfterUpdate(records[..n], k, r);
    }
  }

  lemma {:induction false} OpenMeansUnsettled(records: seq<Record>)
    ensures Open(records) == 0 <==> forall k :: 0 <= k < |records| ==> records[k].Skipped? || records[k].Counted?
    decreases |records|
  {
    if records != [] {
      var n := |records| - 1;
      OpenMeansUnsettled(records[..n]);
      assert forall k :: 0 <= k < n ==> records[..n][k] == records[k];
    }
  }

  lemma {:induction false} ReceivedIsOpen(n: nat)
    ensures Open(seq(n, _ => Waiting)) == n
  {
    if n > 0 {
      ReceivedIsOpen(n - 1);
      assert seq(n, _ => Waiting)[..n - 1] == seq(n - 1, _ => Waiting);
    }
  }

  lemma StageStartsOnSchedule(m: Message, stage: nat, done: nat)
    requires done == Sum(if stage < |m.stages| then m.stages[..stage] else m.stages)
    ensures OnSchedule(m, StartStage(m, stage, done))
  {
    if stage < |m.stages| {
      assert m.stages[..stage + 1][..stage] == m.stages[..stage];
    }
  }

  predicate IsOpen(r: Record) {
    !r.Skipped? && !r.Counted?
  }

  /** Replacing one record keeps the invariant when the counter moves with it. */
  lemma ReplacementKeepsInv(m: Message, m': Message, k: nat)
    requires Inv(m) && k < |m.records| && |m'.records| == |m.records| && m'.stages == m.stages
    requires m'.records == m.records[k := m'.records[k]]
    requires OnSchedule(m, m'.records[k])
    requires m'.remaining == m.remaining - (if IsOpen(m.records[k]) then 1 else 0) + (if IsOpen(m'.records[k]) then 1 else 0)
    requires m'.commits == m.commits
    requires m'.owed == (m.owed || (m.remaining > 0 && m'.remaining == 0))
    requires m.remaining == 0 ==> m'.remaining == 0
    ensures Inv(m')
  {
    OpenAfterUpdate(m.records, k, m'.records[k]);
    assert [m.records[k]][..0] == [] && [m'.records[k]][..0] == [];
  }

  lemma {:induction false} OpenIsPositive(records: seq<Record>, k: nat)
    requires k < |records| && IsOpen(records[k])
    ensures Open(records) > 0
  {
    OpenMeansUnsettled(records);
  }

  lemma MovesStayOnSchedule(m: Message, e: Event)
    requires Inv(m) && Enabled(m, e) && !e.Commit?
    ensures OnSchedule(m, Step(m, e).records[e.k])
  {
    var r := m.records[e.k];
    assert OnSchedule(m, r);
    if e.Emit? {
      assert m.stages[..0] == [];
      StageStartsOnSchedule(m, 0, 0);
    } else if e.PassBarrier? {
      assert r.stage + 1 == |m.stages| ==> m.stages[..r.stage + 1] == m.stages;
      StageStartsOnSchedule(m, r.stage + 1, r.done);
    }
  }

  lemma StepKeepsInv(m: Message, e: Event)
    requires Inv(m) && Enabled(m, e)
    ensures Inv(Step(m, e))
  {
    if !e.Commit? && !e.SignalAgain? {
      OpenIsPositive(m.records, e.k);
      MovesStayOnSchedule(m, e);
      ReplacementKeepsInv(m, Step(m, e), e.k);
    }
  }

  lemma {:induction false} InvHolds(m: Message, run: seq<Event>)
    requires Inv(m) && Possible(m, run)
    ensures Inv(After(m, run))
    decreases |run|
  {
    if run != [] {
      StepKeepsInv(m, run[0]);
      InvHolds(Step(m, run[0]), run[1..]);
    }
  }

  lemma {:induction false} StagesAreFixed(m: Message, run: seq<Event>)
    requires Possible(m, run)
    ensures After(m, run).stages == m.stages && |After(m, run).records| == |m.records|
    decreases |run|
  {
    if run != [] {
      StagesAreFixed(Step(m, run[0]), run[1..]);
    }
  }

  /** Whatever the order of skips, steps and signals, the offset is committed at
      most once, and only with every record skipped or fully processed; and once
      they all are, the commit has run or is the one step still owed. */
  lemma {:induction false} CommitsOnceWhenAllSettled(stages: seq<nat>, n: nat, run: seq<Event>)
    requires n > 0 && Possible(Received(stages, n), run)
    ensures var m := After(Received(stages, n), run);
            && |m.records| == n
            && m.commits <= 1
            && (m.commits == 1 || m.owed <==> forall k :: 0 <= k < n ==> Settled(m, m.records[k]))
  {
    var m0 := Received(stages, n);
    ReceivedIsOpen(n);
    InvHolds(m0, run);
    StagesAreFixed(m0, run);
    var m := After(m0, run);
    OpenMeansUnsettled(m.records);
    assert forall k :: 0 <= k < n ==>
      (Settled(m, m.records[k]) <==> m.records[k].Skipped? || m.records[k].Counted?) by {
      assert forall k :: 0 <= k < n ==> OnSchedule(m, m.records[k]);
    }
  }

  // ----------------------------------------------------- the counter by itself

  /** What is still outstanding after some calls to an acker for n records. */
  function RemainingAfter(n: nat, calls: nat): nat {
    if calls == 0 then n else CountDown(RemainingAfter(n, calls - 1)).0
  }

  /** The counter counts calls: the commit comes with call number n exactly. */
  lemma {:induction false} CommitComesWithTheNthCall(n: nat, calls: nat)
    requires n > 0
    ensures RemainingAfter(n, calls) == if calls >= n then 0 else n - calls
    ensures calls > 0 ==> (CountDown(RemainingAfter(n, calls - 1)).1 <==> calls == n)
  {
    if calls > 0 {
      CommitComesWithTheNthCall(n, calls - 1);
    }
  }

  /** Acknowledging one of two records twice commits the message with the other
      record untouched: the counter alone does not make repeated calls safe. */
  lemma DoubleAcknowledgementCommitsEarly()
    ensures var acks := [0, 0];
            RemainingAfter(2, |acks|) == 0 && CountDown(RemainingAfter(2, 1)).1 && 1 !in acks
  {
  }

  predicate Distinct(acks: seq<nat>) {
    forall i, j :: 0 <= i < j < |acks| ==> acks[i] != acks[j]
  }

  ghost function Below(n: nat): set<nat> {
    if n == 0 then {} else Below(n - 1) + {n - 1}
  }

  lemma {:induction false} BelowHas(n: nat)
    ensures |Below(n)| == n
    ensures forall k: nat :: k in Below(n) <==> k < n
  {
    if n > 0 {
      BelowHas(n - 1);
    }
  }

  ghost function Members(acks: seq<nat>): set<nat> {
    set a | a in acks
  }

  lemma {:induction false} DistinctIffFull(acks: seq<nat>)
    ensures |Members(acks)| <= |acks|
    ensures Distinct(acks) <==> |Members(acks)| == |acks|
    decreases |acks|
  {
    if acks != [] {
      var n := |acks| - 1;
      var less, last := acks[..n], acks[n];
      DistinctIffFull(less);
      assert acks == less + [last];
      assert Members(acks) == Members(less) + {last};
      assert Distinct(acks) <==> Distinct(less) && last !in Members(less);
    }
  }

  /** The n calls that make an acker commit cover all n records exactly when no
      record was acknowledged twice among them, which is what the once-only
      completion signal guarantees. */
  lemma {:induction false} RawAckerSoundIffNoRepeats(n: nat, acks: seq<nat>)
    requires n > 0 && |acks| == n && forall i :: 0 <= i < n ==> acks[i] < n
    ensures RemainingAfter(n, |acks|) == 0
    ensures (forall k: nat :: k < n ==> k in acks) <==> Distinct(acks)
  {
    CommitComesWithTheNthCall(n, n);
    DistinctIffFull(acks);
    BelowHas(n);
    var covered := Members(acks);
    assert forall k :: k in covered <==> k in acks;
    assert covered <= Below(n);
    if Distinct(acks) {
      SameSizeSubset(covered, Below(n));
    }
    if forall k: nat :: k < n ==> k in acks {
      assert covered == Below(n);
    }
  }

  lemma SameSizeSubset(a: set<nat>, b: set<nat>)
    requires a <= b && |a| == |b|
    ensures a == b
  {
    assert b == a + (b - a);
    assert |b| == |a| + |b - a|;
  }
}
