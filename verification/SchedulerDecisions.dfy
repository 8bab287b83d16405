/** What the scheduler answers to a request, stated on the performances it accepted before. */
module SchedulerDecisions {
  import opened Seqs
  import opened Scheduler

  /** The classes, most important first. */
  const ORDER: seq<Priority> := [Operator, PaidInteraction, SystemReaction, Conversation, Commentary, Background]

  /** `a` is strictly more important than `b`. */
  ghost predicate Outranks(a: Priority, b: Priority) {
    exists i, j :: 0 <= i < j < |ORDER| && ORDER[i] == a && ORDER[j] == b
  }

  lemma OutranksExactly(a: Priority, b: Priority)
    ensures Outranks(a, b) <==> Rank(a) < Rank(b)
  {
    assert forall p: Priority :: ORDER[Rank(p)] == p by {
      forall p: Priority ensures ORDER[Rank(p)] == p {
        match p
        case Operator =>
        case PaidInteraction =>
        case SystemReaction =>
        case Conversation =>
        case Commentary =>
        case Background =>
      }
    }
    assert forall i :: 0 <= i < |ORDER| ==> Rank(ORDER[i]) == i;
    if Rank(a) < Rank(b) {
      assert ORDER[Rank(a)] == a && ORDER[Rank(b)] == b;
    }
  }

  // ---- Cooldown ------------------------------------------------------------

  /** An accepted performance of the asset has not been over for the spacing, as planned, at `at`. */
  ghost predicate Resting(spacing: real, st: State, assetId: string, at: real) {
    exists k :: 0 <= k < |st.items| && st.items[k].plan.assetId == assetId && at < st.items[k].plan.End() + spacing
  }

  ghost predicate Known(st: State, assetId: string) {
    exists k :: 0 <= k < |st.items| && st.items[k].plan.assetId == assetId
  }

  /** The cooldown table holds, for the assets accepted so far, the end of one of their performances plus
      the spacing. */
  ghost predicate TableIsPlanned(spacing: real, st: State) {
    forall a :: a in st.cooldowns ==>
      exists k :: 0 <= k < |st.items| && st.items[k].plan.assetId == a
          && st.cooldowns[a] == st.items[k].plan.End() + spacing
  }

  lemma SamePlansKeepTable(spacing: real, st: State, after: State)
    requires TableIsPlanned(spacing, st) && after.cooldowns == st.cooldowns && |after.items| == |st.items|
    requires forall k :: 0 <= k < |st.items| ==> after.items[k].plan == st.items[k].plan
    ensures TableIsPlanned(spacing, after)
  {
    forall a | a in after.cooldowns
      ensures exists k :: && 0 <= k < |after.items| && after.items[k].plan.assetId == a
                          && after.cooldowns[a] == after.items[k].plan.End() + spacing
    {
      var k :| && 0 <= k < |st.items| && st.items[k].plan.assetId == a
               && st.cooldowns[a] == st.items[k].plan.End() + spacing;
      assert after.items[k].plan == st.items[k].plan;
    }
  }

  lemma PlaceKeepsTable(spacing: real, st: State, plan: Plan)
    requires TableIsPlanned(spacing, st)
    ensures TableIsPlanned(spacing, Place(spacing, st, plan))
  {
    var p, after, n := Spaced(spacing, st, plan), Place(spacing, st, plan), |st.items|;
    forall a | a in after.cooldowns
      ensures exists k :: && 0 <= k < |after.items| && after.items[k].plan.assetId == a
                          && after.cooldowns[a] == after.items[k].plan.End() + spacing
    {
      if a == p.assetId {
        assert after.items[n].plan == p;
      } else {
        var k :| && 0 <= k < n && st.items[k].plan.assetId == a
                 && st.cooldowns[a] == st.items[k].plan.End() + spacing;
        assert after.items[k] == st.items[k];
      }
    }
  }

  lemma StepKeepsTable(spacing: real, st: State, op: Op)
    requires |st.items| == |st.stops| && TableIsPlanned(spacing, st)
    ensures TableIsPlanned(spacing, Step(spacing, st, op))
  {
    hide TableIsPlanned, Place;
    if op.Request? {
      var swept := st.(items := Map(st.items, ExpireAt(op.plan.startAt)));
      SamePlansKeepTable(spacing, st, swept);
      var k := FirstPlaying(swept.items);
      PlaceKeepsTable(spacing, swept, op.plan);
      if k < |swept.items| {
        SamePlansKeepTable(spacing, swept, CancelAt(swept, k, op.plan.startAt));
        PlaceKeepsTable(spacing, CancelAt(swept, k, op.plan.startAt), op.plan);
      }
    } else {
      var k := FirstPlaying(st.items);
      if k < |st.items| {
        SamePlansKeepTable(spacing, st, CancelAt(st, k, op.at));
      }
    }
  }

  lemma {:induction false} RunKeepsTable(spacing: real, ops: seq<Op>)
    ensures TableIsPlanned(spacing, Run(spacing, ops))
  {
    if ops != [] {
      RunKeepsTable(spacing, Front(ops));
      StepKeepsTable(spacing, Run(spacing, Front(ops)), Last(ops));
    }
  }

  /** Over every run a request is too early for its asset if and only if one of the asset's accepted
      performances has not been over for the spacing; an asset never played only has to start at 0. */
  lemma CoolingExactly(spacing: real, ops: seq<Op>, assetId: string, at: real)
    requires spacing >= 0.0 && forall i :: 0 <= i < |ops| && ops[i].Request? ==> ops[i].plan.duration >= 0.0
    ensures var st := Run(spacing, ops);
            at < CooldownUntil(st, assetId)
            <==> Resting(spacing, st, assetId, at) || (!Known(st, assetId) && at < 0.0)
  {
    var st := Run(spacing, ops);
    RunKeepsCooled(spacing, ops);
    RunKeepsTable(spacing, ops);
    hide Run;
    if assetId in st.cooldowns {
      var k :| && 0 <= k < |st.items| && st.items[k].plan.assetId == assetId
               && st.cooldowns[assetId] == st.items[k].plan.End() + spacing;
    }
  }

  // ---- The answer ----------------------------------------------------------

  /** Item `k` is the first still playing at `at`. */
  ghost predicate InTheWay(st: State, k: nat, at: real) {
    && k < |st.items| && IsPlaying(st.items[k]) && st.items[k].plan.End() > at
    && forall i :: 0 <= i < k && IsPlaying(st.items[i]) ==> st.items[i].plan.End() <= at
  }

  lemma FirstIsInTheWay(st: State, at: real)
    ensures var k := FirstPlaying(Map(st.items, ExpireAt(at)));
            && (k < |st.items| ==> InTheWay(st, k, at))
            && (k == |st.items| ==> forall i :: 0 <= i < k && IsPlaying(st.items[i]) ==> st.items[i].plan.End() <= at)
  {
    var swept := Map(st.items, ExpireAt(at));
    assert forall i :: 0 <= i < |swept| ==> (swept[i].status != Playing <==>
                                             !(IsPlaying(st.items[i]) && st.items[i].plan.End() > at));
  }

  /** The start the answer gives: as asked for an operator; otherwise as asked, but no earlier than the
      spacing after the finish, which is now when the request cuts a performance short. */
  function StartFor(spacing: real, st: State, plan: Plan, cuts: bool): real {
    if plan.priority == Operator || (!cuts && st.lastFinishAt.None?) then plan.startAt
    else
      var earliest := (if cuts then plan.startAt else st.lastFinishAt.value) + spacing;
      if earliest > plan.startAt then earliest else plan.startAt
  }

  /** The answer to a request after any run, exactly: refused while its asset rests, refused while a more
      important performance is in the way, and otherwise accepted with the next generation, at the earliest
      start the spacing allows. */
  lemma AnsweredExactly(spacing: real, ops: seq<Op>, plan: Plan, k: nat)
    requires spacing >= 0.0 && forall i :: 0 <= i < |ops| && ops[i].Request? ==> ops[i].plan.duration >= 0.0
    requires k <= |Run(spacing, ops).items|
    requires forall i :: 0 <= i < |Run(spacing, ops).items| && InTheWay(Run(spacing, ops), i, plan.startAt) ==> i == k
    requires k < |Run(spacing, ops).items| ==> InTheWay(Run(spacing, ops), k, plan.startAt)
    ensures var st := Run(spacing, ops);
            var answer := ScheduleStep(spacing, st, plan).1;
            var blocked := k < |st.items|;
            if Resting(spacing, st, plan.assetId, plan.startAt) || (!Known(st, plan.assetId) && plan.startAt < 0.0)
            then answer == Err(Cooldown)
            else if blocked && Outranks(st.items[k].plan.priority, plan.priority) then answer == Err(LowerPriority)
            else answer == Ok(Item(plan.(startAt := StartFor(spacing, st, plan, blocked
                                                             && st.items[k].plan.interruptible)),
                                   st.generation + 1, Playing))
  {
    var st := Run(spacing, ops);
    CoolingExactly(spacing, ops, plan.assetId, plan.startAt);
    FirstIsInTheWay(st, plan.startAt);
    hide Run;
    if k < |st.items| {
      OutranksExactly(st.items[k].plan.priority, plan.priority);
    }
    AnswerFor(spacing, st, plan, k);
  }

  lemma AnswerFor(spacing: real, st: State, plan: Plan, k: nat)
    requires spacing >= 0.0 && |st.items| == |st.stops| && k <= |st.items|
    requires FirstPlaying(Map(st.items, ExpireAt(plan.startAt))) == k
    ensures var answer := ScheduleStep(spacing, st, plan).1;
            if plan.startAt < CooldownUntil(st, plan.assetId) then answer == Err(Cooldown)
            else if k < |st.items| && Rank(plan.priority) > Rank(st.items[k].plan.priority)
                then answer == Err(LowerPriority)
            else answer == Ok(Item(plan.(startAt := StartFor(spacing, st, plan, k < |st.items|
                                                             && st.items[k].plan.interruptible)),
                                   st.generation + 1, Playing))
  {
    var swept := st.(items := Map(st.items, ExpireAt(plan.startAt)));
    if k < |st.items| {
      assert swept.items[k].plan == st.items[k].plan;
    }
    hide CooldownUntil, Rank, FirstPlaying;
  }

  /** There is at most one item in the way to name. */
  lemma OneInTheWay(st: State, at: real, i: nat, k: nat)
    requires InTheWay(st, i, at) && InTheWay(st, k, at)
    ensures i == k
  {
  }
}
