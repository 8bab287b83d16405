/** The performance scheduler: one timeline, priorities, interruption, cooldowns and spacing. */
module Scheduler {
  import opened Seqs

  datatype Priority = Operator | PaidInteraction | SystemReaction | Conversation | Commentary | Background

  function Rank(p: Priority): nat {
    match p
    case Operator => 0
    case PaidInteraction => 1
    case SystemReaction => 2
    case Conversation => 3
    case Commentary => 4
    case Background => 5
  }

  datatype Plan = Plan(eventId: string, assetId: string, priority: Priority, interruptible: bool,
                       interruptPointsMs: seq<real>, startAt: real, duration: real)
  {
    function End(): real { startAt + duration }
  }

  datatype Status = Queued | Playing | Completed | Cancelled

  datatype Item = Item(plan: Plan, generation: nat, status: Status)

  datatype Rejection = Cooldown | LowerPriority

  /** `stops` is the model's own record, one per item: its planned end, or the time it was cut short. */
  datatype State = State(items: seq<Item>, stops: seq<real>, cooldowns: map<string, real>,
                         lastFinishAt: Option<real>, generation: nat)

  const INITIAL: State := State([], [], map[], None, 0)

  // ---- One step on values --------------------------------------------------

  predicate IsPlaying(item: Item) { item.status == Playing }

  function ExpireAt(at: real): Item -> Item {
    (item: Item) => if item.status == Playing && item.plan.End() <= at then item.(status := Completed) else item
  }

  /** Index of the first playing item, or the length. */
  function FirstPlaying(items: seq<Item>): (k: nat)
    ensures k <= |items| && (k < |items| ==> items[k].status == Playing)
    ensures forall i :: 0 <= i < k ==> items[i].status != Playing
  {
    if items == [] || items[0].status == Playing then 0 else 1 + FirstPlaying(items[1..])
  }

  function CancelAt(st: State, k: nat, at: real): State
    requires k < |st.items| == |st.stops|
  {
    st.(items := st.items[k := st.items[k].(status := Cancelled)],
        stops := st.stops[k := if at < st.stops[k] then at else st.stops[k]],
        lastFinishAt := Some(at))
  }

  function CooldownUntil(st: State, assetId: string): real {
    if assetId in st.cooldowns then st.cooldowns[assetId] else 0.0
  }

  /** The start the spacing rule leaves. */
  function Spaced(spacing: real, st: State, plan: Plan): Plan {
    if plan.priority != Operator && st.lastFinishAt.Some? && plan.startAt - st.lastFinishAt.value < spacing
    then plan.(startAt := if plan.startAt < st.lastFinishAt.value + spacing
                          then st.lastFinishAt.value + spacing else plan.startAt)
    else plan
  }

  function Place(spacing: real, st: State, plan: Plan): State {
    var p := Spaced(spacing, st, plan);
    State(st.items + [Item(p, st.generation + 1, Playing)], st.stops + [p.End()],
          st.cooldowns[p.assetId := p.End() + spacing], Some(p.End()), st.generation + 1)
  }

  /** What a request does: complete what has ended, check the cooldown, arbitrate, space, place. */
  function ScheduleStep(spacing: real, st: State, plan: Plan): (State, Result<Item, Rejection>)
    requires |st.items| == |st.stops|
  {
    var swept := st.(items := Map(st.items, ExpireAt(plan.startAt)));
    var k := FirstPlaying(swept.items);
    if plan.startAt < CooldownUntil(st, plan.assetId) then (swept, Err(Cooldown))
    else if k < |swept.items| && Rank(plan.priority) > Rank(swept.items[k].plan.priority)
    then (swept, Err(LowerPriority))
    else
      var cleared := if k < |swept.items| && swept.items[k].plan.interruptible
                     then CancelAt(swept, k, plan.startAt) else swept;
      var placed := Place(spacing, cleared, plan);
      (placed, Ok(Last(placed.items)))
  }

  function StopStep(st: State, at: real): State
    requires |st.items| == |st.stops|
  {
    var k := FirstPlaying(st.items);
    if k < |st.items| then CancelAt(st, k, at) else st
  }

  datatype Op = Request(plan: Plan) | Stop(at: real)

  function TimeOf(op: Op): real { if op.Request? then op.plan.startAt else op.at }

  function Step(spacing: real, st: State, op: Op): (r: State)
    requires |st.items| == |st.stops|
    ensures |r.items| == |r.stops|
  {
    match op
    case Request(plan) => ScheduleStep(spacing, st, plan).0
    case Stop(at) => StopStep(st, at)
  }

  function Run(spacing: real, ops: seq<Op>): (r: State)
    ensures |r.items| == |r.stops|
  {
    if ops == [] then INITIAL else Step(spacing, Run(spacing, Front(ops)), Last(ops))
  }

  // ---- One thing at a time, spaced -----------------------------------------

  function Gap(spacing: real, plan: Plan): real { if plan.priority == Operator then 0.0 else spacing }

  ghost predicate Separated(spacing: real, slack: real, items: seq<Item>, stops: seq<real>)
    requires |items| == |stops|
  {
    forall i, j :: 0 <= i < j < |items| ==> stops[i] + Gap(spacing, items[j].plan) <= items[j].plan.startAt + slack
  }

  /** At most one item plays, and every item starts, up to `slack`, its gap after each earlier one
      stopped. The finish time the spacing rule reads is, up to `slack`, no earlier than any stop. */
  ghost predicate Orderly(spacing: real, slack: real, st: State) {
    && |st.items| == |st.stops| == st.generation
    && (forall k :: 0 <= k < |st.items| ==>
          var item := st.items[k];
          && item.generation == k + 1 && item.plan.duration >= 0.0 && item.plan.interruptible
          && (item.status == Playing ==> k == |st.items| - 1)
          && (item.status != Cancelled ==> st.stops[k] == item.plan.End())
          && st.stops[k] <= item.plan.End())
    && (st.items != [] ==>
          st.lastFinishAt.Some? && forall k :: 0 <= k < |st.stops| ==> st.stops[k] <= st.lastFinishAt.value + slack)
    && (st.items != [] && Last(st.items).status == Playing ==> st.lastFinishAt.value == Last(st.items).plan.End())
    && Separated(spacing, slack, st.items, st.stops)
  }

  /** A request or a stop that puts something aside, or an operator request, which is never spaced. */
  predicate Displaces(st: State, op: Op) {
    match op
    case Stop(_) => exists k :: 0 <= k < |st.items| && IsPlaying(st.items[k])
    case Request(plan) =>
      && plan.startAt >= CooldownUntil(st, plan.assetId)
      && (plan.priority == Operator
          || exists k :: && 0 <= k < |st.items| && IsPlaying(st.items[k]) && st.items[k].plan.End() > plan.startAt
                         && Rank(plan.priority) <= Rank(st.items[k].plan.priority))
  }

  /** It does not reach back, by more than `slack`, behind the recorded stop of an item already over. */
  predicate Fits(slack: real, st: State, op: Op)
    requires |st.items| == |st.stops|
  {
    Displaces(st, op) ==>
      forall k :: 0 <= k < |st.items| && !IsPlaying(st.items[k]) ==> st.stops[k] <= TimeOf(op) + slack
  }

  predicate Plain(op: Op) { op.Request? ==> op.plan.duration >= 0.0 && op.plan.interruptible }

  lemma SweepKeepsOrder(spacing: real, slack: real, st: State, at: real)
    requires Orderly(spacing, slack, st)
    ensures Orderly(spacing, slack, st.(items := Map(st.items, ExpireAt(at))))
  {
    var items := Map(st.items, ExpireAt(at));
    forall i, j | 0 <= i < j < |items|
      ensures st.stops[i] + Gap(spacing, items[j].plan) <= items[j].plan.startAt + slack
    {
      assert items[j].plan == st.items[j].plan;
    }
  }

  /** Every stop but the last item's is no later than `at`, up to `slack`. */
  ghost predicate OverBy(slack: real, stops: seq<real>, n: nat, at: real) {
    forall i :: 0 <= i < n && i < |stops| ==> stops[i] <= at + slack
  }

  lemma CancelExactly(spacing: real, slack: real, st: State, k: nat, at: real)
    requires slack >= 0.0 && Orderly(spacing, slack, st) && k < |st.items| && st.items[k].status == Playing
    ensures Orderly(spacing, slack, CancelAt(st, k, at)) <==> OverBy(slack, st.stops, k, at)
    ensures forall i :: 0 <= i < |st.items| ==> CancelAt(st, k, at).items[i].status != Playing
  {
    var after := CancelAt(st, k, at);
    forall i, j | 0 <= i < j < |after.items|
      ensures after.stops[i] + Gap(spacing, after.items[j].plan) <= after.items[j].plan.startAt + slack
    {
      assert after.stops[i] <= st.stops[i] && after.items[j].plan == st.items[j].plan;
    }
    if Orderly(spacing, slack, after) {
      forall i | 0 <= i < k ensures st.stops[i] <= at + slack {
        assert after.stops[i] == st.stops[i];
      }
    }
  }

  /** Where nothing plays, a new item keeps the order exactly when it is spaced by the rule, or every
      item before it was over when it starts. */
  lemma PlaceExactly(spacing: real, slack: real, st: State, plan: Plan)
    requires spacing >= 0.0 && slack >= 0.0 && Orderly(spacing, slack, st) && Plain(Request(plan))
    requires forall i :: 0 <= i < |st.items| ==> st.items[i].status != Playing
    ensures Orderly(spacing, slack, Place(spacing, st, plan))
            <==> (plan.priority == Operator ==> OverBy(slack, st.stops, |st.stops|, plan.startAt))
  {
    var p := Spaced(spacing, st, plan);
    var after := Place(spacing, st, plan);
    var n := |st.items|;
    if plan.priority == Operator {
      if Orderly(spacing, slack, after) {
        forall i | 0 <= i < n ensures st.stops[i] <= plan.startAt + slack {
          assert after.stops[i] + Gap(spacing, after.items[n].plan) <= after.items[n].plan.startAt + slack;
        }
      }
    } else {
      assert forall i :: 0 <= i < n ==> st.stops[i] <= st.lastFinishAt.value + slack;
    }
    if plan.priority == Operator ==> OverBy(slack, st.stops, n, plan.startAt) {
      forall i | 0 <= i < n ensures st.stops[i] + Gap(spacing, p) <= p.startAt + slack {}
      forall k | 0 <= k < |after.stops| ensures after.stops[k] <= p.End() + slack {
        if k < n {
          assert st.stops[k] + Gap(spacing, p) <= p.startAt + slack;
        }
      }
    }
  }

  /** Cutting the playing item short for a new one: the order is kept exactly when the items before it
      were over by then. */
  lemma InterruptExactly(spacing: real, slack: real, st: State, k: nat, plan: Plan)
    requires spacing >= 0.0 && slack >= 0.0 && Orderly(spacing, slack, st) && Plain(Request(plan))
    requires k < |st.items| && st.items[k].status == Playing && st.items[k].plan.End() > plan.startAt
    ensures Orderly(spacing, slack, Place(spacing, CancelAt(st, k, plan.startAt), plan))
            <==> OverBy(slack, st.stops, k, plan.startAt)
  {
    var at := plan.startAt;
    var cut := CancelAt(st, k, at);
    CancelExactly(spacing, slack, st, k, at);
    if OverBy(slack, st.stops, k, at) {
      assert OverBy(slack, cut.stops, |cut.stops|, at);
      PlaceExactly(spacing, slack, cut, plan);
    } else {
      var i :| 0 <= i < k && st.stops[i] > at + slack;
      var after := Place(spacing, cut, plan);
      var n := |st.items|;
      assert after.stops[i] == st.stops[i] && after.items[n].plan == Spaced(spacing, cut, plan);
      assert after.stops[i] + Gap(spacing, after.items[n].plan) > after.items[n].plan.startAt + slack;
    }
  }

  lemma RequestSurvivesExactlyWhen(spacing: real, slack: real, st: State, plan: Plan)
    requires spacing >= 0.0 && slack >= 0.0 && Orderly(spacing, slack, st) && Plain(Request(plan))
    ensures Orderly(spacing, slack, ScheduleStep(spacing, st, plan).0) <==> Fits(slack, st, Request(plan))
  {
    hide Orderly, Place, CancelAt;
    var at := plan.startAt;
    var swept := st.(items := Map(st.items, ExpireAt(at)));
    var k := FirstPlaying(swept.items);
    SweepKeepsOrder(spacing, slack, st, at);
    OnlyLastPlays(spacing, slack, st);
    SweptStops(spacing, slack, st, at);
    if at < CooldownUntil(st, plan.assetId) {
      assert !Displaces(st, Request(plan));
    } else if k < |swept.items| {
      assert IsPlaying(st.items[k]) && st.items[k].plan.End() > at;
      assert Displaces(st, Request(plan)) <==> Rank(plan.priority) <= Rank(st.items[k].plan.priority);
      InterruptExactly(spacing, slack, swept, k, plan);
    } else {
      assert Displaces(st, Request(plan)) <==> plan.priority == Operator by {
        forall i | 0 <= i < |st.items| && IsPlaying(st.items[i]) ensures st.items[i].plan.End() <= at {
          assert swept.items[i].status != Playing;
        }
      }
      PlaceExactly(spacing, slack, swept, plan);
    }
  }

  lemma OnlyLastPlays(spacing: real, slack: real, st: State)
    requires Orderly(spacing, slack, st)
    ensures |st.items| == |st.stops|
    ensures forall i :: 0 <= i < |st.items| && IsPlaying(st.items[i]) ==> i == |st.items| - 1
    ensures forall i :: 0 <= i < |st.items| ==> st.items[i].plan.interruptible
  {
  }

  lemma StopSurvivesExactlyWhen(spacing: real, slack: real, st: State, at: real)
    requires slack >= 0.0 && Orderly(spacing, slack, st)
    ensures Orderly(spacing, slack, StopStep(st, at)) <==> Fits(slack, st, Stop(at))
  {
    hide Orderly, CancelAt;
    OnlyLastPlays(spacing, slack, st);
    var k := FirstPlaying(st.items);
    if k < |st.items| {
      assert IsPlaying(st.items[k]);
      CancelExactly(spacing, slack, st, k, at);
    }
  }

  /** One step, exactly: the order survives a request or a stop if and only if it does not reach back
      behind the stop of an item already over. */
  lemma StepSurvivesExactlyWhen(spacing: real, slack: real, st: State, op: Op)
    requires spacing >= 0.0 && slack >= 0.0 && Orderly(spacing, slack, st) && Plain(op)
    ensures Orderly(spacing, slack, Step(spacing, st, op)) <==> Fits(slack, st, op)
  {
    if op.Request? {
      RequestSurvivesExactlyWhen(spacing, slack, st, op.plan);
    } else {
      StopSurvivesExactlyWhen(spacing, slack, st, op.at);
    }
  }

  /** The sweep completes only items that are over at `at`. */
  lemma SweptStops(spacing: real, slack: real, st: State, at: real)
    requires slack >= 0.0 && Orderly(spacing, slack, st)
    ensures var n := FirstPlaying(Map(st.items, ExpireAt(at)));
            OverBy(slack, st.stops, n, at)
            <==> forall k :: 0 <= k < |st.items| && !IsPlaying(st.items[k]) ==> st.stops[k] <= at + slack
  {
    var items := Map(st.items, ExpireAt(at));
    var n := FirstPlaying(items);
    assert n >= |items| - 1;
    if forall k :: 0 <= k < |st.items| && !IsPlaying(st.items[k]) ==> st.stops[k] <= at + slack {
      forall i | 0 <= i < n ensures st.stops[i] <= at + slack {
        assert items[i].status != Playing;
      }
    }
  }

  /** In order after every operation of the run. */
  ghost predicate OrderlyThroughout(spacing: real, slack: real, ops: seq<Op>) {
    Orderly(spacing, slack, Run(spacing, ops)) && (ops != [] ==> OrderlyThroughout(spacing, slack, Front(ops)))
  }

  /** Every operation of the run fits where it comes. */
  ghost predicate FitsThroughout(spacing: real, slack: real, ops: seq<Op>) {
    ops != [] ==> FitsThroughout(spacing, slack, Front(ops)) && Fits(slack, Run(spacing, Front(ops)), Last(ops))
  }

  /** A whole run, exactly: it is in order throughout if and only if every one of its requests and
      stops fits where it comes. */
  lemma {:induction false} RunSurvivesExactlyWhen(spacing: real, slack: real, ops: seq<Op>)
    requires spacing >= 0.0 && slack >= 0.0 && forall i :: 0 <= i < |ops| ==> Plain(ops[i])
    ensures OrderlyThroughout(spacing, slack, ops) <==> FitsThroughout(spacing, slack, ops)
  {
    hide Orderly, Fits, Step;
    if ops == [] {
      EmptyIsOrderly(spacing, slack);
    } else {
      RunSurvivesExactlyWhen(spacing, slack, Front(ops));
      if OrderlyThroughout(spacing, slack, Front(ops)) {
        StepSurvivesExactlyWhen(spacing, slack, Run(spacing, Front(ops)), Last(ops));
      }
    }
  }

  lemma EmptyIsOrderly(spacing: real, slack: real)
    ensures Orderly(spacing, slack, INITIAL)
  {
  }

  /** What a stop that reaches back does to its successor: a request in the time it gained is placed
      too close to the item that was already over. */
  lemma LateStopIsFelt(spacing: real, st: State, at: real, plan: Plan, k: nat)
    requires spacing >= 0.0 && Orderly(spacing, 0.0, st) && Displaces(st, Stop(at))
    requires k < |st.items| && !IsPlaying(st.items[k]) && at < st.stops[k]
    requires Plain(Request(plan)) && plan.priority != Operator && plan.startAt >= CooldownUntil(st, plan.assetId)
    requires plan.startAt < st.stops[k] + spacing
    ensures var after := Step(spacing, Step(spacing, st, Stop(at)), Request(plan));
            |after.items| == |st.items| + 1 && after.stops[k] + spacing > Last(after.items).plan.startAt
  {
    var n := FirstPlaying(st.items);
    var stopped := CancelAt(st, n, at);
    CancelExactly(0.0 + spacing, 0.0, st, n, at);
    var swept := stopped.(items := Map(stopped.items, ExpireAt(plan.startAt)));
    assert forall i :: 0 <= i < |swept.items| ==> swept.items[i].status != Playing;
    assert swept.stops[k] == st.stops[k] && swept.lastFinishAt == Some(at);
  }

  // ---- Runs whose start times are nearly in order --------------------------

  /** No operation is timed more than `slack` behind an earlier one. */
  ghost predicate NearlyInOrder(slack: real, ops: seq<Op>) {
    forall i, j :: 0 <= i < j < |ops| ==> TimeOf(ops[i]) <= TimeOf(ops[j]) + slack
  }

  /** The caller's runs: events arrive in order, and each is timed at its arrival plus a delay of at
      most `maxDelay`, a stop without one. */
  ghost predicate Delayed(maxDelay: real, arrivals: seq<real>, ops: seq<Op>) {
    && |arrivals| == |ops|
    && (forall i, j :: 0 <= i < j < |ops| ==> arrivals[i] <= arrivals[j])
    && (forall i :: 0 <= i < |ops| ==>
          if ops[i].Stop? then ops[i].at == arrivals[i]
          else arrivals[i] <= ops[i].plan.startAt <= arrivals[i] + maxDelay)
  }

  lemma DelaysKeepNearlyInOrder(maxDelay: real, arrivals: seq<real>, ops: seq<Op>)
    requires maxDelay >= 0.0 && Delayed(maxDelay, arrivals, ops)
    ensures NearlyInOrder(maxDelay, ops)
  {
  }

  /** Nothing that is over stopped after `top`. */
  ghost predicate OverBefore(st: State, top: real) {
    |st.items| == |st.stops| && forall k :: 0 <= k < |st.items| && !IsPlaying(st.items[k]) ==> st.stops[k] <= top
  }

  lemma StepKeepsOverBefore(spacing: real, slack: real, st: State, top: real, op: Op)
    requires Orderly(spacing, slack, st) && OverBefore(st, top) && Plain(op)
    ensures OverBefore(Step(spacing, st, op), if top < TimeOf(op) then TimeOf(op) else top)
  {
    hide Orderly;
    OnlyLastPlays(spacing, slack, st);
    var at, later := TimeOf(op), if top < TimeOf(op) then TimeOf(op) else top;
    if op.Request? {
      var swept := st.(items := Map(st.items, ExpireAt(at)));
      assert OverBefore(swept, later) by { SweepKeepsOverBefore(spacing, slack, st, top, at); }
      var k := FirstPlaying(swept.items);
      if k < |swept.items| {
        CancelKeepsOverBefore(swept, later, k, at);
        PlaceKeepsOverBefore(spacing, CancelAt(swept, k, at), later, op.plan);
      } else {
        PlaceKeepsOverBefore(spacing, swept, later, op.plan);
      }
    } else {
      var k := FirstPlaying(st.items);
      if k < |st.items| {
        CancelKeepsOverBefore(st, later, k, at);
      }
    }
  }

  lemma SweepKeepsOverBefore(spacing: real, slack: real, st: State, top: real, at: real)
    requires Orderly(spacing, slack, st) && OverBefore(st, top)
    ensures OverBefore(st.(items := Map(st.items, ExpireAt(at))), if top < at then at else top)
  {
  }

  lemma CancelKeepsOverBefore(st: State, top: real, k: nat, at: real)
    requires OverBefore(st, top) && k < |st.items| && at <= top
    ensures OverBefore(CancelAt(st, k, at), top)
  {
  }

  lemma PlaceKeepsOverBefore(spacing: real, st: State, top: real, plan: Plan)
    requires OverBefore(st, top)
    ensures OverBefore(Place(spacing, st, plan), top)
  {
  }

  lemma {:induction false} RunKeepsOrder(spacing: real, slack: real, ops: seq<Op>, top: real)
    requires spacing >= 0.0 && slack >= 0.0 && NearlyInOrder(slack, ops)
    requires forall i :: 0 <= i < |ops| ==> Plain(ops[i]) && TimeOf(ops[i]) <= top
    requires ops != [] ==> exists i :: 0 <= i < |ops| && TimeOf(ops[i]) == top
    ensures Orderly(spacing, slack, Run(spacing, ops)) && OverBefore(Run(spacing, ops), top)
  {
    if ops != [] {
      var before, op := Front(ops), Last(ops);
      if before != [] {
        var m := Latest(before);
        RunKeepsOrder(spacing, slack, before, TimeOf(before[m]));
        StepSurvivesExactlyWhen(spacing, slack, Run(spacing, before), op);
        StepKeepsOverBefore(spacing, slack, Run(spacing, before), TimeOf(before[m]), op);
      } else {
        StepSurvivesExactlyWhen(spacing, slack, INITIAL, op);
        StepKeepsOverBefore(spacing, slack, INITIAL, top, op);
      }
    }
  }

  lemma {:induction false} Latest(ops: seq<Op>) returns (m: nat)
    requires ops != []
    ensures m < |ops| && forall i :: 0 <= i < |ops| ==> TimeOf(ops[i]) <= TimeOf(ops[m])
  {
    m := 0;
    if |ops| > 1 {
      m := Latest(Front(ops));
      if TimeOf(ops[m]) < TimeOf(Last(ops)) {
        m := |ops| - 1;
      }
    }
  }

  /** With interruptible plans whose times go back by no more than `slack`, at every moment at most one
      item is playing, and each item starts its gap after every earlier one stopped, less at most
      `slack`. With times in order the gap is kept in full. */
  lemma OnePerformanceAtATime(spacing: real, slack: real, ops: seq<Op>, i: nat, j: nat)
    requires spacing >= 0.0 && slack >= 0.0 && NearlyInOrder(slack, ops)
    requires forall k :: 0 <= k < |ops| ==> Plain(ops[k])
    requires i < j < |Run(spacing, ops).items|
    ensures var st := Run(spacing, ops);
            && !(st.items[i].status == Playing && st.items[j].status == Playing)
            && st.stops[i] + Gap(spacing, st.items[j].plan) <= st.items[j].plan.startAt + slack
            && st.items[i].generation < st.items[j].generation
  {
    if ops != [] {
      var m := Latest(ops);
      RunKeepsOrder(spacing, slack, ops, TimeOf(ops[m]));
    }
  }

  /** The caller's runs, delays and all: performances other than the operator's never overlap as long
      as the spacing is at least the longest delay, and lose at most that delay of their spacing. */
  lemma DelayedRunsStayDisjoint(spacing: real, maxDelay: real, arrivals: seq<real>, ops: seq<Op>, i: nat, j: nat)
    requires 0.0 <= maxDelay <= spacing && Delayed(maxDelay, arrivals, ops)
    requires forall k :: 0 <= k < |ops| ==> Plain(ops[k]) && (ops[k].Request? ==> ops[k].plan.priority != Operator)
    requires i < j < |Run(spacing, ops).items|
    ensures var st := Run(spacing, ops);
            && !(st.items[i].status == Playing && st.items[j].status == Playing)
            && st.stops[i] + (spacing - maxDelay) <= st.items[j].plan.startAt
            && st.stops[i] <= st.items[j].plan.startAt
  {
    DelaysKeepNearlyInOrder(maxDelay, arrivals, ops);
    OnePerformanceAtATime(spacing, maxDelay, ops, i, j);
    NoOperators(spacing, ops);
  }

  lemma {:induction false} NoOperators(spacing: real, ops: seq<Op>)
    requires forall k :: 0 <= k < |ops| && ops[k].Request? ==> ops[k].plan.priority != Operator
    ensures forall k :: 0 <= k < |Run(spacing, ops).items| ==> Run(spacing, ops).items[k].plan.priority != Operator
  {
    if ops != [] {
      NoOperators(spacing, Front(ops));
    }
  }

  /** That loss is real: an interruption delayed past the stop that follows it leaves the next start the
      spacing after the stop, so its gap to the interrupted performance is short by as much as the stop
      came early, and the two overlap exactly when that is more than the spacing. */
  lemma DelayCostsItsSpacing(spacing: real, delay: real, a: Plan, b: Plan, c: Plan, arrival: real, stop: real,
                             ops: seq<Op>)
    requires spacing >= 0.0 && delay >= 0.0 && a.assetId != b.assetId && b.assetId != c.assetId
             && c.assetId != a.assetId
    requires a.priority == b.priority == c.priority == Conversation && a.interruptible && b.interruptible
             && c.interruptible
    requires 0.0 == a.startAt < arrival <= stop < b.startAt == arrival + delay < a.End()
    requires stop <= c.startAt <= stop + spacing && b.duration >= 0.0 && c.duration >= 0.0
    requires ops == [Request(a), Request(b), Stop(stop), Request(c)]
    ensures Delayed(delay, [0.0, arrival, stop, c.startAt], ops)
    ensures var st := Run(spacing, ops);
            && |st.items| == 3
            && st.items[2].plan.startAt - st.stops[0] == spacing - (b.startAt - stop)
            && (st.items[2].plan.startAt < st.stops[0] <==> spacing < b.startAt - stop)
  {
    hide Step;
    var b' := b.(startAt := b.startAt + spacing);
    RunOfTwo(spacing, Request(a), Request(b));
    RunSnoc(spacing, [Request(a), Request(b)], Stop(stop));
    RunSnoc(spacing, [Request(a), Request(b), Stop(stop)], Request(c));
    assert ops == [Request(a), Request(b)] + [Stop(stop)] + [Request(c)];
    Interrupted(spacing, a, b, b');
    StoppedBehind(spacing, Run(spacing, [Request(a), Request(b)]), Item(a, 1, Cancelled), Item(b', 2, Playing),
                  stop, c);
  }

  /** The concrete run: 450 of the spacing of 1500 are lost, and at a spacing of 100 two performances overlap. */
  lemma DelayedRun(spacing: real, a: Plan, b: Plan, c: Plan)
    requires a == Plan("e1", "a", Conversation, true, [], 0.0, 5000.0)
    requires b == Plan("e2", "b", Conversation, true, [], 600.0, 1000.0)
    requires c == Plan("e4", "c", Conversation, true, [], 160.0, 1000.0)
    requires spacing == 1500.0 || spacing == 100.0
    ensures var st := Run(spacing, [Request(a), Request(b), Stop(150.0), Request(c)]);
            && |st.items| == 3
            && st.items[2].plan.startAt - st.stops[0] == (if spacing == 1500.0 then 1050.0 else -350.0)
  {
    assert a.assetId[0] == 'a' && b.assetId[0] == 'b' && c.assetId[0] == 'c';
    DelayCostsItsSpacing(spacing, 500.0, a, b, c, 100.0, 150.0, [Request(a), Request(b), Stop(150.0), Request(c)]);
  }

  lemma RunSnoc(spacing: real, ops: seq<Op>, op: Op)
    ensures Run(spacing, ops + [op]) == Step(spacing, Run(spacing, ops), op)
  {
    assert Front(ops + [op]) == ops;
  }

  lemma RunOfTwo(spacing: real, a: Op, b: Op)
    ensures Run(spacing, [a, b]) == Step(spacing, Step(spacing, INITIAL, a), b)
  {
    hide Step;
    RunSnoc(spacing, [], a);
    RunSnoc(spacing, [a], b);
    assert [] + [a] == [a] && [a] + [b] == [a, b];
  }

  lemma FirstRequest(spacing: real, a: Plan)
    requires a.startAt >= 0.0
    ensures Step(spacing, INITIAL, Request(a))
            == State([Item(a, 1, Playing)], [a.End()], map[a.assetId := a.End() + spacing], Some(a.End()), 1)
  {
  }

  /** An interruptible performance gives way to one of its own rank. */
  lemma GivesWay(spacing: real, st: State, item: Item, b: Plan)
    requires st.items == [item] && |st.stops| == 1 && item.status == Playing && item.plan.interruptible
    requires b.startAt < item.plan.End() && b.priority == item.plan.priority
             && b.startAt >= CooldownUntil(st, b.assetId)
    ensures Step(spacing, st, Request(b)) == Place(spacing, CancelAt(st, 0, b.startAt), b)
  {
    hide Place, CancelAt, CooldownUntil;
    assert Map(st.items, ExpireAt(b.startAt)) == st.items;
  }

  lemma Interrupted(spacing: real, a: Plan, b: Plan, b': Plan)
    requires spacing >= 0.0 && a.assetId != b.assetId && a.priority == b.priority == Conversation && a.interruptible
    requires a.startAt == 0.0 < b.startAt < a.End() && b' == b.(startAt := b.startAt + spacing)
    ensures Step(spacing, Step(spacing, INITIAL, Request(a)), Request(b))
            == State([Item(a, 1, Cancelled), Item(b', 2, Playing)], [b.startAt, b'.End()],
                     map[a.assetId := a.End() + spacing, b.assetId := b'.End() + spacing], Some(b'.End()), 2)
  {
    hide Step;
    var s1 := Step(spacing, INITIAL, Request(a));
    FirstRequest(spacing, a);
    GivesWay(spacing, s1, Item(a, 1, Playing), b);
    var cut := CancelAt(s1, 0, b.startAt);
    assert cut.items == [Item(a, 1, Cancelled)] && cut.stops == [b.startAt] && cut.lastFinishAt == Some(b.startAt);
    assert Spaced(spacing, cut, b) == b';
  }

  lemma StoppedBehind(spacing: real, st: State, first: Item, second: Item, at: real, c: Plan)
    requires spacing >= 0.0 && st.items == [first, second] && |st.stops| == 2
    requires first.status == Cancelled && second.status == Playing
    requires c.assetId !in st.cooldowns && 0.0 <= at <= c.startAt <= at + spacing && c.priority != Operator
    ensures var after := Step(spacing, Step(spacing, st, Stop(at)), Request(c));
            && |after.items| == 3 && after.items[2].plan.startAt == at + spacing && after.stops[0] == st.stops[0]
  {
    var stopped := Step(spacing, st, Stop(at));
    assert FirstPlaying(st.items) == 1 by { assert st.items[1..][0] == second; }
    assert stopped == CancelAt(st, 1, at);
    var swept := stopped.(items := Map(stopped.items, ExpireAt(c.startAt)));
    assert FirstPlaying(swept.items) == 2 by { assert swept.items[0].status == swept.items[1].status == Cancelled; }
  }

  /** A concrete overlap: an operator's request is played over an uninterruptible performance. */
  lemma UninterruptibleRunOverlaps(spacing: real, a: Plan, b: Plan)
    requires spacing >= 0.0 && a.assetId != b.assetId && !a.interruptible && b.priority == Operator
    requires 0.0 <= a.startAt < b.startAt < a.End()
    ensures var st := Run(spacing, [Request(a), Request(b)]);
            && |st.items| == 2 && IsPlaying(st.items[0]) && IsPlaying(st.items[1])
            && st.items[0].plan.startAt < st.items[1].plan.startAt < st.stops[0] == st.items[0].plan.End()
  {
    RunOfTwo(spacing, Request(a), Request(b));
    var s1 := Step(spacing, INITIAL, Request(a));
    FirstRequest(spacing, a);
    assert Map(s1.items, ExpireAt(b.startAt)) == s1.items;
  }

  /** Without the interruptible rule it can fail: from a state with at most one playing item, a
      request makes two play exactly when an uninterruptible item is still playing and the request
      is not in cooldown and ranks at least as high. */
  lemma OverlapExactlyWhenUninterruptible(spacing: real, st: State, plan: Plan)
    requires |st.items| == |st.stops|
    requires forall i, j :: 0 <= i < j < |st.items| ==> !(IsPlaying(st.items[i]) && IsPlaying(st.items[j]))
    ensures var after := ScheduleStep(spacing, st, plan).0;
            (exists i, j :: 0 <= i < j < |after.items| && IsPlaying(after.items[i]) && IsPlaying(after.items[j]))
            <==> exists k :: && 0 <= k < |st.items| && IsPlaying(st.items[k]) && st.items[k].plan.End() > plan.startAt
                             && !st.items[k].plan.interruptible
                             && Rank(plan.priority) <= Rank(st.items[k].plan.priority)
                             && plan.startAt >= CooldownUntil(st, plan.assetId)
  {
    var items := Map(st.items, ExpireAt(plan.startAt));
    var k := FirstPlaying(items);
    var after := ScheduleStep(spacing, st, plan).0;
    forall i | 0 <= i < |items|
      ensures IsPlaying(items[i]) <==> IsPlaying(st.items[i]) && st.items[i].plan.End() > plan.startAt
    {
    }
    if k < |items| {
      forall i | k < i < |items| ensures !IsPlaying(items[i]) {
        assert !(IsPlaying(st.items[k]) && IsPlaying(st.items[i]));
      }
      if |after.items| == |items| + 1 && !items[k].plan.interruptible {
        assert IsPlaying(after.items[k]) && IsPlaying(after.items[|items|]);
      }
    }
  }

  // ---- Cooldowns -----------------------------------------------------------

  /** The cooldown table covers every item, and items of one asset keep their distance. */
  ghost predicate Cooled(spacing: real, st: State) {
    && |st.items| == |st.stops|
    && (forall k :: 0 <= k < |st.items| ==>
          var p := st.items[k].plan;
          p.duration >= 0.0 && p.assetId in st.cooldowns && p.End() + spacing <= st.cooldowns[p.assetId])
    && (forall i, j :: 0 <= i < j < |st.items| && st.items[i].plan.assetId == st.items[j].plan.assetId
          ==> st.items[i].plan.End() + spacing <= st.items[j].plan.startAt)
  }

  lemma SamePlansStayCooled(spacing: real, st: State, after: State)
    requires Cooled(spacing, st) && after.cooldowns == st.cooldowns && |after.stops| == |after.items| == |st.items|
    requires forall k :: 0 <= k < |st.items| ==> after.items[k].plan == st.items[k].plan
    ensures Cooled(spacing, after)
  {
  }

  lemma PlaceKeepsCooled(spacing: real, st: State, plan: Plan)
    requires spacing >= 0.0 && Cooled(spacing, st) && plan.duration >= 0.0
    requires plan.startAt >= CooldownUntil(st, plan.assetId)
    ensures Cooled(spacing, Place(spacing, st, plan))
  {
    var p := Spaced(spacing, st, plan);
    assert p.startAt >= plan.startAt;
  }

  lemma StepKeepsCooled(spacing: real, st: State, op: Op)
    requires spacing >= 0.0 && Cooled(spacing, st) && (op.Request? ==> op.plan.duration >= 0.0)
    ensures Cooled(spacing, Step(spacing, st, op))
  {
    if op.Request? {
      var plan := op.plan;
      var swept := st.(items := Map(st.items, ExpireAt(plan.startAt)));
      SamePlansStayCooled(spacing, st, swept);
      if plan.startAt >= CooldownUntil(st, plan.assetId) {
        var k := FirstPlaying(swept.items);
        PlaceKeepsCooled(spacing, swept, plan);
        if k < |swept.items| {
          SamePlansStayCooled(spacing, swept, CancelAt(swept, k, plan.startAt));
          PlaceKeepsCooled(spacing, CancelAt(swept, k, plan.startAt), plan);
        }
      }
    } else {
      var k := FirstPlaying(st.items);
      if k < |st.items| {
        SamePlansStayCooled(spacing, st, CancelAt(st, k, op.at));
      }
    }
  }

  lemma {:induction false} RunKeepsCooled(spacing: real, ops: seq<Op>)
    requires spacing >= 0.0 && forall i :: 0 <= i < |ops| && ops[i].Request? ==> ops[i].plan.duration >= 0.0
    ensures Cooled(spacing, Run(spacing, ops))
  {
    if ops != [] {
      RunKeepsCooled(spacing, Front(ops));
      StepKeepsCooled(spacing, Run(spacing, Front(ops)), Last(ops));
    }
  }

  /** In any run, whatever the clock and the plans, two accepted performances of one asset are
      separated: the later starts no earlier than the earlier one's planned end plus the spacing. */
  lemma AssetsRespectTheirCooldown(spacing: real, ops: seq<Op>, i: nat, j: nat)
    requires spacing >= 0.0 && forall k :: 0 <= k < |ops| && ops[k].Request? ==> ops[k].plan.duration >= 0.0
    requires i < j < |Run(spacing, ops).items|
    requires Run(spacing, ops).items[i].plan.assetId == Run(spacing, ops).items[j].plan.assetId
    ensures Run(spacing, ops).items[i].plan.End() + spacing <= Run(spacing, ops).items[j].plan.startAt
  {
    RunKeepsCooled(spacing, ops);
  }

  // ---- The object ----------------------------------------------------------

  class PerformanceScheduler {
    const spacing: real
    var items: seq<Item>
    var cooldowns: map<string, real>
    var lastFinishAt: Option<real>
    var generation: nat
    var lastRejection: Option<Rejection>
    ghost var stops: seq<real>

    ghost function Value(): State
      reads this
    {
      State(items, stops, cooldowns, lastFinishAt, generation)
    }

    ghost predicate Valid()
      reads this
    {
      |items| == |stops|
    }

    constructor (spacing: real)
      ensures Valid() && this.spacing == spacing && Value() == INITIAL
    {
      this.spacing := spacing;
      items, cooldowns, lastFinishAt, generation, lastRejection := [], map[], None, 0, None;
      stops := [];
    }

    method CompleteExpired(at: real)
      modifies this`items
      ensures items == Map(old(items), ExpireAt(at))
    {
      for i := 0 to |items|
        invariant |items| == |old(items)|
        invariant forall k :: 0 <= k < |items| ==>
                    items[k] == if k < i then ExpireAt(at)(old(items)[k]) else old(items)[k]
      {
        var item := items[i];
        if item.status == Playing && item.plan.startAt + item.plan.duration <= at {
          items := items[i := item.(status := Completed)];
        }
      }
    }

    method Cancel(k: nat, at: real)
      requires Valid() && k < |items|
      modifies this`items, this`lastFinishAt, this`stops
      ensures Valid() && Value() == CancelAt(old(Value()), k, at)
    {
      items := items[k := items[k].(status := Cancelled)];
      stops := stops[k := if at < stops[k] then at else stops[k]];
      lastFinishAt := Some(at);
    }

    method Schedule(plan: Plan) returns (r: Option<Item>)
      requires Valid()
      modifies this
      ensures Valid()
      ensures var (after, outcome) := ScheduleStep(spacing, old(Value()), plan);
              && Value() == after
              && r == (if outcome.Ok? then Some(outcome.value) else None)
              && lastRejection == (if outcome.Ok? then None else Some(outcome.error))
    {
      lastRejection := None;
      CompleteExpired(plan.startAt);
      var cooldownUntil := if plan.assetId in cooldowns then cooldowns[plan.assetId] else 0.0;
      if plan.startAt < cooldownUntil {
        lastRejection := Some(Cooldown);
        return None;
      }
      var playing := FirstPlaying(items);
      if playing < |items| {
        var current := items[playing];
        if Rank(plan.priority) > Rank(current.plan.priority) {
          lastRejection := Some(LowerPriority);
          return None;
        }
        if current.plan.interruptible && Rank(plan.priority) <= Rank(current.plan.priority) {
          Cancel(playing, plan.startAt);
        }
      }
      var item := PlaceItem(plan);
      r := Some(item);
    }

    /** Apply the spacing rule, then start the item and set its cooldown. */
    method PlaceItem(plan: Plan) returns (item: Item)
      requires Valid()
      modifies this`items, this`stops, this`cooldowns, this`lastFinishAt, this`generation
      ensures Valid() && Value() == Place(spacing, old(Value()), plan) && item == Last(items)
    {
      var placed := plan;
      if plan.priority != Operator && lastFinishAt.Some? && plan.startAt - lastFinishAt.value < spacing {
        var earliest := lastFinishAt.value + spacing;
        placed := plan.(startAt := if plan.startAt < earliest then earliest else plan.startAt);
      }
      generation := generation + 1;
      item := Item(placed, generation, Playing);
      items := items + [item];
      stops := stops + [placed.End()];
      lastFinishAt := Some(placed.startAt + placed.duration);
      cooldowns := cooldowns[placed.assetId := placed.startAt + placed.duration + spacing];
    }

    method StopCurrent(at: real) returns (r: Option<Item>)
      requires Valid()
      modifies this
      ensures Valid() && Value() == StopStep(old(Value()), at)
      ensures var k := FirstPlaying(old(items));
              r == if k < |old(items)| then Some(old(items)[k].(status := Cancelled)) else None
    {
      var playing := FirstPlaying(items);
      if playing == |items| {
        return None;
      }
      Cancel(playing, at);
      r := Some(items[playing]);
    }
  }
}
