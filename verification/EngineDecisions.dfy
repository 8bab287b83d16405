/** What the engine's counts, windows and verdicts amount to over a run, stated on the run's operations. */
module EngineDecisions {
  import opened Seqs
  import opened Words
  import opened AdaptationEngine

  // ---- Counting a run ------------------------------------------------------

  function UsesOf(ops: seq<Op>, id: string): nat {
    if ops == [] then 0
    else UsesOf(Front(ops), id) + (if Last(ops).RecordUse? && Last(ops).asset.id == id then 1 else 0)
  }

  function LabelsOf(ops: seq<Op>, id: string, positive: bool): nat {
    if ops == [] then 0
    else
      LabelsOf(Front(ops), id, positive)
      + (if Last(ops).RecordQuality? && Last(ops).id == id && Last(ops).positive == positive then 1 else 0)
  }

  /** The assets a run touches. */
  function Touched(ops: seq<Op>): set<string> {
    if ops == [] then {}
    else Touched(Front(ops)) + TouchedBy(Last(ops))
  }

  /** What a run leaves counted, in a word each. */
  function CountedOver(ops: seq<Op>, id: string): Feedback {
    Feedback(Min(UsesOf(ops, id), U64_MAX), Min(LabelsOf(ops, id, true), U64_MAX),
             Min(LabelsOf(ops, id, false), U64_MAX))
  }

  /** Nothing is forgotten: the assets touched fit the bound, and no invalidation was carried out. */
  ghost predicate NothingForgotten(c: Config, ops: seq<Op>) {
    && |Touched(ops)| <= c.retention.maxFeedback
    && forall i :: 0 <= i < |ops| && ops[i].Apply? ==> !ops[i].stored
  }

  lemma RoomForOne(keys: set<string>, known: set<string>, id: string)
    requires keys <= known && id !in keys
    ensures |keys| < |known + {id}|
  {
    SubsetSize(keys + {id}, known + {id});
    assert |keys + {id}| == |keys| + 1;
  }

  /** A touch that does not have to make room adds the asset, and disturbs nothing else. */
  lemma NoEviction(c: Config, e: Engine, id: string, known: set<string>)
    requires Inv(c, e) && e.feedback.Keys <= known && |known + {id}| <= c.retention.maxFeedback
    ensures var after := EnsureFeedback(c, e, id);
            && after.feedback == e.feedback[id := FeedbackOf(e, id)]
            && after.feedback.Keys == e.feedback.Keys + {id}
            && after.recent == e.recent
  {
    InvFacts(c, e);
    if id !in e.feedback {
      RoomForOne(e.feedback.Keys, known, id);
    }
    hide Inv, Evicted;
    assert |e.feedback| == |e.feedback.Keys|;
    TouchedInPlace(c, e, id);
  }

  lemma TouchedInPlace(c: Config, e: Engine, id: string)
    requires e.feedback.Keys == e.feedbackTouch.Keys && c.retention.maxFeedback > 0
    requires id in e.feedback || |e.feedback| < c.retention.maxFeedback
    ensures var after := EnsureFeedback(c, e, id);
            && after.feedback == e.feedback[id := FeedbackOf(e, id)]
            && after.feedback.Keys == e.feedback.Keys + {id}
            && after.recent == e.recent
  {
    hide Evicted, FeedbackOf;
    KeysOfUpdate(e.feedback, id, FeedbackOf(e, id));
    assert FeedbackOf(e.(nextTouch := SatAdd(e.nextTouch, 1)), id) == FeedbackOf(e, id) by {
      SameFeedback(e, id);
    }
  }

  lemma KeysOfUpdate<V>(m: map<string, V>, id: string, v: V)
    ensures m[id := v].Keys == m.Keys + {id}
  {
  }

  lemma SameFeedback(e: Engine, id: string)
    ensures FeedbackOf(e.(nextTouch := SatAdd(e.nextTouch, 1)), id) == FeedbackOf(e, id)
  {
  }

  /** What one operation does to the counts when nothing is forgotten. */
  predicate CountsAs(e: Engine, after: Engine, op: Op) {
    match op
    case RecordUse(a) => after.feedback == e.feedback[a.id := Counted(FeedbackOf(e, a.id))]
    case RecordQuality(id, positive) => after.feedback == e.feedback[id := Labelled(FeedbackOf(e, id), positive)]
    case Apply(_, _) => after.feedback == e.feedback
  }

  /** One operation, counted, while nothing has to be forgotten. */
  lemma StepCounts(c: Config, e: Engine, op: Op, known: set<string>)
    requires Inv(c, e) && e.feedback.Keys <= known
    requires RoomFor(c, op, known)
    ensures CountsAs(e, Step(c, e, op), op)
  {
    match op {
      case RecordUse(a) => UseCounts(c, e, a, known);
      case RecordQuality(id, positive) => LabelCounts(c, e, id, positive, known);
      case Apply(_, _) =>
    }
  }

  /** A use in two steps: what the asset's feedback becomes, and what its group then notes. */
  lemma UseInSteps(c: Config, e: Engine, a: Asset) returns (used: Engine)
    requires Inv(c, e)
    ensures Inv(c, used) && a.id in EnsureFeedback(c, e, a.id).feedback
    ensures var touched := EnsureFeedback(c, e, a.id);
            && used.feedback == touched.feedback[a.id := Counted(touched.feedback[a.id])]
            && used.recent == touched.recent
    ensures var grouped := EnsureGroup(c, used, GroupOf(a));
            && grouped.feedback == used.feedback && GroupOf(a) in grouped.recent
            && UseStep(c, e, a).feedback == used.feedback
            && UseStep(c, e, a).recent
               == grouped.recent[GroupOf(a) := Window(grouped.recent[GroupOf(a)] + [a.id], c.policy.window)]
  {
    EnsureFeedbackFeedsGroup(c, e, a);
    var touched := EnsureFeedback(c, e, a.id);
    used := WithFeedback(touched, a.id, Counted(touched.feedback[a.id]));
    InvFacts(c, used);
    EnsureGroupFields(c, used, GroupOf(a));
    GroupIsKept(c, used, GroupOf(a));
    hide Inv, EnsureFeedback, EnsureGroup, Window;
  }

  lemma UseCounts(c: Config, e: Engine, a: Asset, known: set<string>)
    requires Inv(c, e) && e.feedback.Keys <= known && |known + {a.id}| <= c.retention.maxFeedback
    ensures UseStep(c, e, a).feedback == e.feedback[a.id := Counted(FeedbackOf(e, a.id))]
  {
    hide Inv, EnsureFeedback, EnsureGroup, UseStep, FeedbackOf, Counted;
    NoEviction(c, e, a.id, known);
    var used := UseInSteps(c, e, a);
  }

  lemma LabelCounts(c: Config, e: Engine, id: string, positive: bool, known: set<string>)
    requires Inv(c, e) && e.feedback.Keys <= known && |known + {id}| <= c.retention.maxFeedback
    ensures QualityStep(c, e, id, positive).feedback == e.feedback[id := Labelled(FeedbackOf(e, id), positive)]
  {
    NoEviction(c, e, id, known);
    hide Inv, EnsureFeedback;
  }

  /** Over a run that forgets nothing, an asset's feedback is the count of its uses and of its labels of
      each kind. */
  lemma {:induction false} FeedbackCountsTheRun(c: Config, ops: seq<Op>, id: string)
    requires ValidConfig(c) && NothingForgotten(c, ops)
    ensures Run(c, ops).feedback.Keys <= Touched(ops)
    ensures FeedbackOf(Run(c, ops), id) == CountedOver(ops, id)
  {
    if ops != [] {
      NothingForgottenBefore(c, ops);
      FeedbackCountsTheRun(c, Front(ops), id);
      hide Run, NothingForgotten, CountedOver;
      CountStep(c, ops, id);
    } else {
      assert Run(c, ops) == INITIAL;
    }
  }

  lemma NothingForgottenBefore(c: Config, ops: seq<Op>)
    requires ops != [] && NothingForgotten(c, ops)
    ensures NothingForgotten(c, Front(ops))
  {
    SubsetSize(Touched(Front(ops)), Touched(ops));
  }

  lemma CountStep(c: Config, ops: seq<Op>, id: string)
    requires ValidConfig(c) && ops != [] && NothingForgotten(c, ops)
    requires Run(c, Front(ops)).feedback.Keys <= Touched(Front(ops))
    requires FeedbackOf(Run(c, Front(ops)), id) == CountedOver(Front(ops), id)
    ensures Run(c, ops).feedback.Keys <= Touched(ops)
    ensures FeedbackOf(Run(c, ops), id) == CountedOver(ops, id)
  {
    var before, op := Front(ops), Last(ops);
    var e := Run(c, before);
    RunStep(c, ops);
    TouchedStep(ops);
    RoomInRun(c, ops);
    assert ops == before + [op];
    hide Run, Inv, Step, NothingForgotten, CountedOver, Touched, FeedbackOf, CountsAs, AfterOne, TouchedBy, RoomFor;
    StepCounts(c, e, op, Touched(before));
    CountOne(e, op, id, before);
    FeedbackAfter(e, Run(c, ops), op, id);
    KeysAfter(e, Run(c, ops), op);
  }

  /** An asset's counts after one more operation. */
  function AfterOne(f: Feedback, op: Op, id: string): Feedback {
    match op
    case RecordUse(a) => if a.id == id then Counted(f) else f
    case RecordQuality(x, positive) => if x == id then Labelled(f, positive) else f
    case Apply(_, _) => f
  }

  function TouchedBy(op: Op): set<string> {
    match op case RecordUse(a) => {a.id} case RecordQuality(id, _) => {id} case Apply(_, _) => {}
  }

  lemma RunStep(c: Config, ops: seq<Op>)
    requires ValidConfig(c) && ops != []
    ensures Inv(c, Run(c, Front(ops))) && Run(c, ops) == Step(c, Run(c, Front(ops)), Last(ops))
  {
  }

  /** There is room for the last operation of a run that forgets nothing. */
  predicate RoomFor(c: Config, op: Op, known: set<string>) {
    match op
    case RecordUse(a) => |known + {a.id}| <= c.retention.maxFeedback
    case RecordQuality(id, _) => |known + {id}| <= c.retention.maxFeedback
    case Apply(_, stored) => !stored
  }

  lemma RoomInRun(c: Config, ops: seq<Op>)
    requires ops != [] && NothingForgotten(c, ops)
    ensures RoomFor(c, Last(ops), Touched(Front(ops)))
  {
  }

  lemma TouchedStep(ops: seq<Op>)
    requires ops != []
    ensures Touched(ops) == Touched(Front(ops)) + TouchedBy(Last(ops))
  {
  }

  lemma FeedbackAfter(e: Engine, after: Engine, op: Op, id: string)
    requires CountsAs(e, after, op)
    ensures FeedbackOf(after, id) == AfterOne(FeedbackOf(e, id), op, id)
  {
  }

  lemma KeysAfter(e: Engine, after: Engine, op: Op)
    requires CountsAs(e, after, op)
    ensures after.feedback.Keys <= e.feedback.Keys + TouchedBy(op)
  {
  }

  lemma CountOne(e: Engine, op: Op, id: string, before: seq<Op>)
    requires FeedbackOf(e, id) == CountedOver(before, id)
    ensures CountedOver(before + [op], id) == AfterOne(FeedbackOf(e, id), op, id)
  {
    assert Front(before + [op]) == before;
  }

  // ---- Verdicts ------------------------------------------------------------

  /** The verdict on an asset, in its counts: enough negative labels invalidate; otherwise enough uses and
      labels of which a sufficient part is positive promote; otherwise it is kept. */
  predicate VerdictIs(p: Policy, f: Feedback, kind: Kind) {
    var labels := Min(f.positive + f.negative, U64_MAX);
    match kind
    case Invalidate => f.negative >= p.invalidateAfter
    case Promote =>
      && f.negative < p.invalidateAfter && f.uses >= p.minUses && labels >= p.minLabels
      && f.positive as real >= p.minRatio * labels as real
    case KeepHot =>
      && f.negative < p.invalidateAfter
      && (f.uses < p.minUses || labels < p.minLabels || (f.positive as real) < p.minRatio * labels as real)
  }

  lemma RatioAsProduct(a: nat, b: nat, r: real)
    requires b > 0
    ensures a as real / b as real >= r <==> a as real >= r * b as real
  {
    assert a as real == (a as real / b as real) * b as real;
    var q := a as real / b as real;
    if q >= r {
      assert (q - r) * b as real >= 0.0;
    } else {
      assert (r - q) * b as real > 0.0;
    }
  }

  lemma VerdictExactly(p: Policy, f: Feedback, kind: Kind)
    requires p.minLabels > 0
    ensures KindFor(p, f) == kind <==> VerdictIs(p, f, kind)
  {
    var labels := SatAdd(f.positive, f.negative);
    if labels > 0 {
      RatioAsProduct(f.positive, labels, p.minRatio);
    }
  }

  /** Over a run that forgets nothing, evaluating an asset decides by how often the run used and labelled it. */
  lemma RunVerdictExactly(c: Config, ops: seq<Op>, a: Asset, kind: Kind)
    requires ValidConfig(c) && NothingForgotten(c, ops) && a.promotable
    ensures Last(Decided(c, Run(c, ops), a).decisions).kind == kind
            <==> VerdictIs(c.policy, CountedOver(ops, a.id), kind)
  {
    FeedbackCountsTheRun(c, ops, a.id);
    VerdictExactly(c.policy, CountedOver(ops, a.id), kind);
    hide Run, KindFor, VerdictIs;
  }

  // ---- Recent groups -------------------------------------------------------

  /** A use notes the asset as the latest of its group, after what the group remembered of other kept assets,
      and keeps the latest `window`. */
  lemma UseIsNotedInItsGroup(c: Config, e: Engine, a: Asset, known: set<string>)
    requires Inv(c, e) && e.feedback.Keys <= known && |known + {a.id}| <= c.retention.maxFeedback
    ensures var group := if a.variantGroup.Some? then a.variantGroup.value else a.intent;
            var before := if group in e.recent then e.recent[group] else [];
            var after := UseStep(c, e, a).recent;
            && group in after
            && after[group] == (before + [a.id])[Max(0, |before| + 1 - c.policy.window)..]
  {
    hide Inv, UseStep;
    NotedInGroup(c, e, a, known);
  }

  lemma NotedInGroup(c: Config, e: Engine, a: Asset, known: set<string>)
    requires Inv(c, e) && e.feedback.Keys <= known && |known + {a.id}| <= c.retention.maxFeedback
    ensures var after := UseStep(c, e, a).recent;
            GroupOf(a) in after
            && after[GroupOf(a)]
                == Window((if GroupOf(a) in e.recent then e.recent[GroupOf(a)] else []) + [a.id], c.policy.window)
  {
    hide Inv, EnsureFeedback, EnsureGroup, UseStep, FeedbackOf, Counted, Window, GroupOf;
    NoEviction(c, e, a.id, known);
    var used := UseInSteps(c, e, a);
    GroupIsKept(c, used, GroupOf(a));
  }

  lemma GroupIsKept(c: Config, e: Engine, group: string)
    requires Inv(c, e)
    ensures var after := EnsureGroup(c, e, group).recent;
            group in after && after[group] == (if group in e.recent then e.recent[group] else [])
  {
  }

  /** Groups are touched and evicted like assets: a touch moves the group to the back of a list that drops
      its front when full. */
  lemma GroupTouchMovesToBack(c: Config, e: Engine, group: string, lru: seq<string>)
    requires Inv(c, e) && Ordered(e.recentTouch, lru, e.nextTouch)
    ensures Ordered(EnsureGroup(c, e, group).recentTouch, MovedToBack(lru, group, c.retention.maxGroups),
                    e.nextTouch + 1)
  {
    hide Ordered;
    var touch, tick := e.recentTouch, e.nextTouch;
    OrderedSize(touch, lru, tick);
    ListIsMap(touch, lru, tick, group);
    assert |e.recent.Keys| == |touch.Keys|;
    if group in lru {
      RemoveKeepsOrder(touch, lru, tick, group);
      PushKeepsOrder(Without(touch, group), Filter(lru, Other(group)), tick, group);
      OverwriteAfterRemove(touch, group, tick);
    } else if |lru| >= c.retention.maxGroups {
      VictimIsOldest(touch, lru, tick);
      DropOldest(touch, lru, tick);
      PushKeepsOrder(Without(touch, lru[0]), lru[1..], tick, group);
    } else {
      PushKeepsOrder(touch, lru, tick, group);
    }
  }
}
