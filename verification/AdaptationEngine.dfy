/** Asset feedback with bounded retention: maps and touch ticks that behave as a move-to-back list. */
module AdaptationEngine {
  import opened Seqs
  import opened Words

  datatype Policy = Policy(minUses: u64, minLabels: u64, minRatio: real, invalidateAfter: u64, window: nat)

  datatype Retention = Retention(maxFeedback: nat, maxGroups: nat, maxDecisions: nat)

  datatype Config = Config(policy: Policy, retention: Retention)

  predicate ValidConfig(c: Config) {
    && c.policy.minUses > 0 && c.policy.minLabels > 0 && 0.0 <= c.policy.minRatio <= 1.0
    && c.policy.invalidateAfter > 0
    && c.retention.maxFeedback > 0 && c.retention.maxGroups > 0 && c.retention.maxDecisions > 0
  }

  datatype Feedback = Feedback(uses: u64, positive: u64, negative: u64)

  const NO_FEEDBACK: Feedback := Feedback(0, 0, 0)

  /** `promotable`: the asset is valid and generated, as the asset store decides. */
  datatype Asset = Asset(id: string, variantGroup: Option<string>, intent: string, promotable: bool)

  datatype Kind = KeepHot | Promote | Invalidate

  datatype Decision = Decision(sequence: u64, assetId: string, kind: Kind, feedback: Feedback)

  datatype Engine = Engine(
    feedback: map<string, Feedback>, feedbackTouch: map<string, u64>,
    recent: map<string, seq<string>>, recentTouch: map<string, u64>,
    decisions: seq<Decision>, sequence: u64, nextTouch: u64,
    feedbackEvicted: u64, groupsEvicted: u64, decisionsEvicted: u64)

  const INITIAL: Engine := Engine(map[], map[], map[], map[], [], 0, 0, 0, 0, 0)

  // ---- The eviction order --------------------------------------------------

  predicate LexLe(a: string, b: string) {
    a == [] || (b != [] && (a[0] < b[0] || (a[0] == b[0] && LexLe(a[1..], b[1..]))))
  }

  lemma {:induction false} LexTotal(a: string, b: string)
    ensures LexLe(a, b) || LexLe(b, a)
    ensures LexLe(a, b) && LexLe(b, a) ==> a == b
  {
    if a != [] && b != [] && a[0] == b[0] {
      LexTotal(a[1..], b[1..]);
      assert a == [a[0]] + a[1..] && b == [b[0]] + b[1..];
    }
  }

  lemma {:induction false} LexTransitive(a: string, b: string, c: string)
    requires LexLe(a, b) && LexLe(b, c)
    ensures LexLe(a, c)
  {
    if a != [] && a[0] == b[0] == c[0] {
      LexTransitive(a[1..], b[1..], c[1..]);
    }
  }

  /** Least recently touched first; the id decides between equal ticks. */
  predicate EvictedBefore(touch: map<string, u64>, a: string, b: string)
    requires a in touch && b in touch
  {
    touch[a] < touch[b] || (touch[a] == touch[b] && LexLe(a, b))
  }

  predicate IsVictim(touch: map<string, u64>, v: string) {
    v in touch && forall x :: x in touch ==> EvictedBefore(touch, v, x)
  }

  lemma VictimUnique(touch: map<string, u64>, v: string, w: string)
    requires IsVictim(touch, v) && IsVictim(touch, w)
    ensures v == w
  {
    LexTotal(v, w);
  }

  /** The scan for the victim. */
  method FindVictim(touch: map<string, u64>) returns (v: string)
    requires touch != map[]
    ensures IsVictim(touch, v)
  {
    var rest := touch.Keys;
    assert exists k :: k in rest;
    v :| v in rest;
    LexTotal(v, v);
    rest := rest - {v};
    while rest != {}
      invariant rest <= touch.Keys && v in touch
      invariant forall x :: x in touch && x !in rest ==> EvictedBefore(touch, v, x)
      decreases |rest|
    {
      var k :| k in rest;
      LexTotal(v, k);
      if touch[k] < touch[v] || (touch[k] == touch[v] && LexLe(k, v)) {
        forall x | x in touch && x !in rest ensures EvictedBefore(touch, k, x) {
          if touch[k] == touch[v] == touch[x] {
            LexTransitive(k, v, x);
          }
        }
        LexTotal(k, k);
        v := k;
      }
      rest := rest - {k};
    }
  }

  lemma VictimExists(touch: map<string, u64>, keys: set<string>) returns (v: string)
    requires keys != {} && keys <= touch.Keys
    ensures v in keys && forall x :: x in keys ==> EvictedBefore(touch, v, x)
    decreases |keys|
  {
    var k :| k in keys;
    LexTotal(k, k);
    if keys == {k} {
      v := k;
    } else {
      var w := VictimExists(touch, keys - {k});
      LexTotal(k, w);
      v := if EvictedBefore(touch, k, w) then k else w;
      forall x | x in keys ensures EvictedBefore(touch, v, x) {
        if x != k {
          assert x in keys - {k} && EvictedBefore(touch, w, x);
          if v == k && touch[k] == touch[w] == touch[x] {
            LexTransitive(k, w, x);
          }
        }
      }
    }
  }

  lemma SomeVictim(touch: map<string, u64>)
    requires touch.Keys != {}
    ensures exists v :: IsVictim(touch, v)
  {
    var v := VictimExists(touch, touch.Keys);
    assert IsVictim(touch, v);
  }

  /** The entry an eviction removes. */
  ghost function Victim(touch: map<string, u64>): (v: string)
    requires touch.Keys != {}
    ensures IsVictim(touch, v)
  {
    SomeVictim(touch);
    var v :| IsVictim(touch, v);
    v
  }

  // ---- One operation on values ---------------------------------------------

  function Other(id: string): string -> bool { (x: string) => x != id }

  function Without<V>(m: map<string, V>, key: string): map<string, V> { m - {key} }

  /** The groups with `id` taken out; a group left empty is gone. */
  function Purged(recent: map<string, seq<string>>, id: string): map<string, seq<string>> {
    map g | g in recent && Filter(recent[g], Other(id)) != [] :: Filter(recent[g], Other(id))
  }

  function Restricted<V, W>(m: map<string, V>, to_: map<string, W>): map<string, V> {
    map g | g in m && g in to_ :: m[g]
  }

  /** Take an asset out of everything. */
  function Forgotten(e: Engine, id: string): Engine {
    var recent := Purged(e.recent, id);
    e.(feedback := Without(e.feedback, id), feedbackTouch := Without(e.feedbackTouch, id),
       recent := recent, recentTouch := Restricted(e.recentTouch, recent))
  }

  function Evicted(e: Engine, id: string): Engine {
    Forgotten(e, id).(feedbackEvicted := SatAdd(e.feedbackEvicted, 1),
                      groupsEvicted := SatAdd(e.groupsEvicted, SatSub(|e.recent|, |Purged(e.recent, id)|)))
  }

  function FeedbackOf(e: Engine, id: string): Feedback { if id in e.feedback then e.feedback[id] else NO_FEEDBACK }

  /** Touch an asset's feedback, evicting the victim when a new one does not fit. */
  ghost function EnsureFeedback(c: Config, e: Engine, id: string): Engine
    requires e.feedback.Keys == e.feedbackTouch.Keys && c.retention.maxFeedback > 0
  {
    var tick := e.nextTouch;
    var ticked := e.(nextTouch := SatAdd(tick, 1));
    var room := if id !in e.feedback && |e.feedback| >= c.retention.maxFeedback
                then Evicted(ticked, Victim(e.feedbackTouch)) else ticked;
    room.(feedback := room.feedback[id := FeedbackOf(room, id)], feedbackTouch := room.feedbackTouch[id := tick])
  }

  ghost function EnsureGroup(c: Config, e: Engine, group: string): Engine
    requires e.recent.Keys == e.recentTouch.Keys && c.retention.maxGroups > 0
  {
    var tick := e.nextTouch;
    var ticked := e.(nextTouch := SatAdd(tick, 1));
    var room := if group !in e.recent && |e.recent| >= c.retention.maxGroups
                then var v := Victim(e.recentTouch);
                     ticked.(recent := Without(e.recent, v), recentTouch := Without(e.recentTouch, v),
                             groupsEvicted := SatAdd(e.groupsEvicted, 1))
                else ticked;
    room.(recent := room.recent[group := if group in room.recent then room.recent[group] else []],
          recentTouch := room.recentTouch[group := tick])
  }

  function GroupOf(a: Asset): string { if a.variantGroup.Some? then a.variantGroup.value else a.intent }

  /** Keep the newest `n`. */
  function Window(s: seq<string>, n: nat): seq<string> { s[SatSub(|s|, n)..] }

  function Counted(f: Feedback): Feedback { f.(uses := SatAdd(f.uses, 1)) }

  function Labelled(f: Feedback, positive: bool): Feedback {
    if positive then f.(positive := SatAdd(f.positive, 1)) else f.(negative := SatAdd(f.negative, 1))
  }

  function Appended(c: Config, e: Engine, group: string, id: string): Engine
    requires group in e.recent
  {
    e.(recent := e.recent[group := Window(e.recent[group] + [id], c.policy.window)])
  }

  function KindFor(p: Policy, f: Feedback): Kind {
    var labels := SatAdd(f.positive, f.negative);
    if f.negative >= p.invalidateAfter then Invalidate
    else if f.uses >= p.minUses && labels >= p.minLabels
            && labels > 0 && (f.positive as real) / (labels as real) >= p.minRatio then Promote
    else KeepHot
  }

  function Decided(c: Config, e: Engine, a: Asset): Engine {
    var f := FeedbackOf(e, a.id);
    var sequence := SatAdd(e.sequence, 1);
    var all := e.decisions + [Decision(sequence, a.id, KindFor(c.policy, f), f)];
    var removed := SatSub(|all|, c.retention.maxDecisions);
    e.(sequence := sequence, decisions := all[removed..], decisionsEvicted := SatAdd(e.decisionsEvicted, removed))
  }

  datatype Op =
    | RecordUse(asset: Asset)
    | RecordQuality(id: string, positive: bool)
    | Apply(asset: Asset, stored: bool)

  ghost function UseStep(c: Config, e: Engine, a: Asset): Engine
    requires Inv(c, e)
  {
    EnsureFeedbackKeepsInv(c, e, a.id);
    var touched := EnsureFeedback(c, e, a.id);
    var used := WithFeedback(touched, a.id, Counted(touched.feedback[a.id]));
    EnsureGroupKeepsInv(c, used, GroupOf(a));
    Appended(c, EnsureGroup(c, used, GroupOf(a)), GroupOf(a), a.id)
  }

  ghost function QualityStep(c: Config, e: Engine, id: string, positive: bool): Engine
    requires Inv(c, e)
  {
    EnsureFeedbackKeepsInv(c, e, id);
    var touched := EnsureFeedback(c, e, id);
    WithFeedback(touched, id, Labelled(touched.feedback[id], positive))
  }

  function WithFeedback(e: Engine, id: string, f: Feedback): Engine
    requires id in e.feedback
    ensures WithFeedback(e, id, f).feedback.Keys == e.feedback.Keys
  {
    e.(feedback := e.feedback[id := f])
  }

  /** Evaluate; an invalidation the asset store carried out is forgotten. */
  function ApplyStep(c: Config, e: Engine, a: Asset, stored: bool): Engine {
    if !a.promotable then e
    else if KindFor(c.policy, FeedbackOf(e, a.id)) == Invalidate && stored then Forgotten(Decided(c, e, a), a.id)
    else Decided(c, e, a)
  }

  ghost function Step(c: Config, e: Engine, op: Op): Engine
    requires Inv(c, e)
  {
    match op
    case RecordUse(a) => UseStep(c, e, a)
    case RecordQuality(id, positive) => QualityStep(c, e, id, positive)
    case Apply(a, stored) => ApplyStep(c, e, a, stored)
  }

  // ---- The invariant -------------------------------------------------------

  ghost predicate RecentOk(recent: map<string, seq<string>>, known: set<string>, window: nat) {
    forall g :: g in recent ==> |recent[g]| <= window && forall id :: id in recent[g] ==> id in known
  }

  ghost predicate Inv(c: Config, e: Engine) {
    && ValidConfig(c)
    && e.feedback.Keys == e.feedbackTouch.Keys && |e.feedback| <= c.retention.maxFeedback
    && e.recent.Keys == e.recentTouch.Keys && |e.recent| <= c.retention.maxGroups
    && RecentOk(e.recent, e.feedback.Keys, c.policy.window)
    && |e.decisions| <= c.retention.maxDecisions
  }

  lemma PurgedFacts(recent: map<string, seq<string>>, id: string, known: set<string>, window: nat)
    requires RecentOk(recent, known, window)
    ensures RecentOk(Purged(recent, id), known - {id}, window)
    ensures Purged(recent, id).Keys <= recent.Keys
    ensures |Purged(recent, id)| <= |recent|
  {
    var after := Purged(recent, id);
    forall g | g in after ensures |after[g]| <= window && forall x :: x in after[g] ==> x in known - {id} {
      FilterMembers(recent[g], Other(id));
    }
    SubsetSize(after.Keys, recent.Keys);
  }

  lemma SubsetSize<T>(a: set<T>, b: set<T>)
    requires a <= b
    ensures |a| <= |b|
  {
    if a != {} {
      var x :| x in a;
      SubsetSize(a - {x}, b - {x});
    }
  }

  lemma ForgottenKeepsInv(c: Config, e: Engine, id: string)
    requires Inv(c, e)
    ensures Inv(c, Forgotten(e, id))
    ensures Forgotten(e, id).feedback.Keys == e.feedback.Keys - {id}
  {
    PurgedFacts(e.recent, id, e.feedback.Keys, c.policy.window);
    assert Without(e.feedback, id).Keys == e.feedback.Keys - {id};
    assert Without(e.feedbackTouch, id).Keys == e.feedbackTouch.Keys - {id};
    assert Restricted(e.recentTouch, Purged(e.recent, id)).Keys == Purged(e.recent, id).Keys;
    SubsetSize(e.feedback.Keys - {id}, e.feedback.Keys);
  }

  lemma KnownGrows(recent: map<string, seq<string>>, known: set<string>, more: set<string>, window: nat)
    requires RecentOk(recent, known, window) && known <= more
    ensures RecentOk(recent, more, window)
  {
  }

  lemma EnsureFeedbackKeepsInv(c: Config, e: Engine, id: string)
    requires Inv(c, e)
    ensures Inv(c, EnsureFeedback(c, e, id))
    ensures id in EnsureFeedback(c, e, id).feedback
  {
    var ticked := e.(nextTouch := SatAdd(e.nextTouch, 1));
    if id !in e.feedback && |e.feedback| >= c.retention.maxFeedback {
      var v := Victim(e.feedbackTouch);
      ForgottenKeepsInv(c, ticked, v);
      var room := Evicted(ticked, v);
      assert |room.feedback.Keys| == |e.feedback.Keys| - 1;
      InsertFeedback(c, room, id, e.nextTouch);
    } else {
      InsertFeedback(c, ticked, id, e.nextTouch);
    }
  }

  lemma InsertFeedback(c: Config, e: Engine, id: string, tick: u64)
    requires Inv(c, e) && (id in e.feedback || |e.feedback| < c.retention.maxFeedback)
    ensures Inv(c, e.(feedback := e.feedback[id := FeedbackOf(e, id)], feedbackTouch := e.feedbackTouch[id := tick]))
  {
    var after := e.feedback[id := FeedbackOf(e, id)];
    assert after.Keys == e.feedback.Keys + {id};
    assert e.feedbackTouch[id := tick].Keys == e.feedbackTouch.Keys + {id};
    KnownGrows(e.recent, e.feedback.Keys, after.Keys, c.policy.window);
  }

  lemma EnsureGroupKeepsInv(c: Config, e: Engine, group: string)
    requires Inv(c, e)
    ensures Inv(c, EnsureGroup(c, e, group)) && group in EnsureGroup(c, e, group).recent
  {
    var ticked := e.(nextTouch := SatAdd(e.nextTouch, 1));
    if group !in e.recent && |e.recent| >= c.retention.maxGroups {
      var v := Victim(e.recentTouch);
      var room := ticked.(recent := Without(e.recent, v), recentTouch := Without(e.recentTouch, v),
                          groupsEvicted := SatAdd(e.groupsEvicted, 1));
      assert room.recent.Keys == e.recent.Keys - {v} && room.recentTouch.Keys == e.recentTouch.Keys - {v};
      assert |room.recent.Keys| == |e.recent.Keys| - 1;
      InsertGroup(c, room, group, e.nextTouch);
    } else {
      InsertGroup(c, ticked, group, e.nextTouch);
    }
  }

  lemma InsertGroup(c: Config, e: Engine, group: string, tick: u64)
    requires Inv(c, e) && (group in e.recent || |e.recent| < c.retention.maxGroups)
    ensures Inv(c, e.(recent := e.recent[group := if group in e.recent then e.recent[group] else []],
                      recentTouch := e.recentTouch[group := tick]))
  {
    hide RecentOk;
    var recent := e.recent[group := if group in e.recent then e.recent[group] else []];
    AddRow(e.recent, group, e.feedback.Keys, c.policy.window);
    AddKey(e.recent, e.recentTouch, group, if group in e.recent then e.recent[group] else [], tick);
    ReplacedGroups(c, e, recent, e.recentTouch[group := tick]);
  }

  lemma AddKey<V, W>(m: map<string, V>, n: map<string, W>, key: string, v: V, w: W)
    requires m.Keys == n.Keys
    ensures m[key := v].Keys == n[key := w].Keys
    ensures |m[key := v]| == if key in m then |m| else |m| + 1
  {
    assert m[key := v].Keys == m.Keys + {key};
    assert n[key := w].Keys == n.Keys + {key};
    assert |m[key := v]| == |m.Keys + {key}|;
  }

  lemma ReplacedGroups(c: Config, e: Engine, recent: map<string, seq<string>>, recentTouch: map<string, u64>)
    requires Inv(c, e) && recent.Keys == recentTouch.Keys && |recent| <= c.retention.maxGroups
    requires RecentOk(recent, e.feedback.Keys, c.policy.window)
    ensures Inv(c, e.(recent := recent, recentTouch := recentTouch))
  {
  }

  lemma AddRow(recent: map<string, seq<string>>, group: string, known: set<string>, window: nat)
    requires RecentOk(recent, known, window)
    ensures RecentOk(recent[group := if group in recent then recent[group] else []], known, window)
  {
  }

  lemma EnsureGroupFields(c: Config, e: Engine, group: string)
    requires e.recent.Keys == e.recentTouch.Keys && c.retention.maxGroups > 0
    ensures var after := EnsureGroup(c, e, group);
            && after.feedback == e.feedback && after.feedbackTouch == e.feedbackTouch
            && after.decisions == e.decisions && after.sequence == e.sequence
            && after.decisionsEvicted == e.decisionsEvicted && after.nextTouch == SatAdd(e.nextTouch, 1)
  {
  }

  lemma EnsureFeedbackFields(c: Config, e: Engine, id: string)
    requires e.feedback.Keys == e.feedbackTouch.Keys && c.retention.maxFeedback > 0
    ensures var after := EnsureFeedback(c, e, id);
            && after.decisions == e.decisions && after.sequence == e.sequence
            && after.decisionsEvicted == e.decisionsEvicted && after.nextTouch == SatAdd(e.nextTouch, 1)
  {
  }

  lemma UseFields(c: Config, e: Engine, a: Asset)
    requires Inv(c, e)
    ensures var after := UseStep(c, e, a);
            && after.feedbackTouch == EnsureFeedback(c, e, a.id).feedbackTouch
            && after.decisions == e.decisions && after.sequence == e.sequence
            && after.decisionsEvicted == e.decisionsEvicted
            && after.nextTouch == SatAdd(SatAdd(e.nextTouch, 1), 1)
  {
    hide EnsureGroup, EnsureFeedback;
    var touched := EnsureFeedback(c, e, a.id);
    EnsureFeedbackKeepsInv(c, e, a.id);
    EnsureFeedbackFields(c, e, a.id);
    var used := WithFeedback(touched, a.id, Counted(touched.feedback[a.id]));
    EnsureGroupFields(c, used, GroupOf(a));
    EnsureGroupKeepsInv(c, used, GroupOf(a));
  }

  lemma QualityFields(c: Config, e: Engine, id: string, positive: bool)
    requires Inv(c, e)
    ensures var after := QualityStep(c, e, id, positive);
            && after.feedbackTouch == EnsureFeedback(c, e, id).feedbackTouch
            && after.decisions == e.decisions && after.sequence == e.sequence
            && after.decisionsEvicted == e.decisionsEvicted
            && after.nextTouch == SatAdd(e.nextTouch, 1)
  {
    hide EnsureFeedback;
    EnsureFeedbackKeepsInv(c, e, id);
    EnsureFeedbackFields(c, e, id);
  }

  lemma AppendedKeepsInv(c: Config, e: Engine, group: string, id: string)
    requires Inv(c, e) && group in e.recent && id in e.feedback
    ensures Inv(c, Appended(c, e, group, id))
  {
    var after := Appended(c, e, group, id).recent;
    assert after.Keys == e.recent.Keys;
    forall x | x in after[group] ensures x in e.feedback {
      assert x in e.recent[group] + [id];
    }
  }

  /** Every operation keeps the invariant: feedback and its ticks cover the same assets, within the
      bound; groups likewise; and every id in a recent group still has feedback. */
  lemma StepKeepsInv(c: Config, e: Engine, op: Op)
    requires Inv(c, e)
    ensures Inv(c, Step(c, e, op))
  {
    hide EnsureFeedback, EnsureGroup, Forgotten, Appended;
    match op
    case RecordUse(a) =>
      var touched := EnsureFeedback(c, e, a.id);
      EnsureFeedbackKeepsInv(c, e, a.id);
      var used := WithFeedback(touched, a.id, Counted(touched.feedback[a.id]));
      EnsureGroupKeepsInv(c, used, GroupOf(a));
      EnsureGroupFields(c, used, GroupOf(a));
      AppendedKeepsInv(c, EnsureGroup(c, used, GroupOf(a)), GroupOf(a), a.id);
    case RecordQuality(id, positive) =>
      EnsureFeedbackKeepsInv(c, e, id);
    case Apply(a, stored) =>
      if a.promotable {
        ForgottenKeepsInv(c, Decided(c, e, a), a.id);
      }
  }

  // ---- The ticks are a move-to-back list -----------------------------------

  /** Move an id to the back of the list, dropping the front when a new one does not fit. */
  function MovedToBack(lru: seq<string>, id: string, max: nat): seq<string> {
    if id in lru then Filter(lru, Other(id)) + [id]
    else if |lru| >= max && lru != [] then lru[1..] + [id]
    else lru + [id]
  }

  /** The ids stand in the order of their ticks. */
  ghost predicate TickSorted(touch: map<string, u64>, lru: seq<string>) {
    && (forall i :: 0 <= i < |lru| ==> lru[i] in touch)
    && (forall i, j :: 0 <= i < j < |lru| ==> touch[lru[i]] < touch[lru[j]])
  }

  /** All the ids, in the order of their ticks, all of them older than `tick`. */
  ghost predicate Ordered(touch: map<string, u64>, lru: seq<string>, tick: nat) {
    && TickSorted(touch, lru)
    && (forall id :: id in touch ==> id in lru && touch[id] < tick)
  }

  lemma {:induction false} OrderedSize(touch: map<string, u64>, lru: seq<string>, tick: nat)
    requires Ordered(touch, lru, tick)
    ensures |lru| == |touch|
  {
    if lru == [] {
      assert touch.Keys == {};
    } else {
      DropOldest(touch, lru, tick);
      OrderedSize(Without(touch, lru[0]), lru[1..], tick);
      assert Without(touch, lru[0]).Keys == touch.Keys - {lru[0]};
      assert |touch.Keys| == |Without(touch, lru[0]).Keys| + 1;
    }
  }

  lemma DropOldest(touch: map<string, u64>, lru: seq<string>, tick: nat)
    requires Ordered(touch, lru, tick) && lru != []
    ensures Ordered(Without(touch, lru[0]), lru[1..], tick)
  {
    var rest, after := lru[1..], Without(touch, lru[0]);
    forall i | 0 <= i < |rest| ensures rest[i] in after && after[rest[i]] == touch[rest[i]] {
      assert rest[i] == lru[i + 1] && touch[lru[0]] < touch[lru[i + 1]];
    }
    forall id | id in after ensures id in rest {
      assert id in lru && lru == [lru[0]] + rest;
    }
  }

  /** The victim is the front of the list. */
  lemma VictimIsOldest(touch: map<string, u64>, lru: seq<string>, tick: nat)
    requires Ordered(touch, lru, tick) && touch.Keys != {}
    ensures lru != [] && Victim(touch) == lru[0]
  {
    var v := Victim(touch);
    var i :| 0 <= i < |lru| && lru[i] == v;
    assert EvictedBefore(touch, v, lru[0]);
  }

  lemma {:induction false} FilterTickSorted(touch: map<string, u64>, lru: seq<string>, id: string)
    requires TickSorted(touch, lru)
    ensures TickSorted(touch, Filter(lru, Other(id)))
  {
    if lru != [] {
      FilterTickSorted(touch, Front(lru), id);
      FilterMembers(Front(lru), Other(id));
      var r := Filter(Front(lru), Other(id));
      forall i | 0 <= i < |r| ensures touch[r[i]] < touch[Last(lru)] {
        assert r[i] in Front(lru);
        var k :| 0 <= k < |Front(lru)| && lru[k] == r[i];
      }
    }
  }

  lemma RemoveKeepsOrder(touch: map<string, u64>, lru: seq<string>, tick: nat, id: string)
    requires Ordered(touch, lru, tick)
    ensures Ordered(Without(touch, id), Filter(lru, Other(id)), tick)
  {
    FilterTickSorted(touch, lru, id);
    FilterMembers(lru, Other(id));
    var rest := Filter(lru, Other(id));
    forall i | 0 <= i < |rest| ensures rest[i] in Without(touch, id) {
      assert rest[i] in rest;
    }
  }

  lemma PushKeepsOrder(touch: map<string, u64>, lru: seq<string>, tick: u64, id: string)
    requires Ordered(touch, lru, tick) && id !in touch
    ensures Ordered(touch[id := tick], lru + [id], tick + 1)
  {
    var after := touch[id := tick];
    forall i | 0 <= i < |lru| ensures lru[i] in after && after[lru[i]] == touch[lru[i]] < tick {}
    forall x | x in after ensures x in lru + [id] && after[x] < tick + 1 {
      assert x != id ==> x in lru;
    }
  }

  lemma OverwriteAfterRemove(touch: map<string, u64>, id: string, tick: u64)
    ensures Without(touch, id)[id := tick] == touch[id := tick]
  {
  }

  lemma ListIsMap(touch: map<string, u64>, lru: seq<string>, tick: nat, id: string)
    requires Ordered(touch, lru, tick)
    ensures id in lru <==> id in touch
  {
  }

  /** Touching feedback moves the id to the back of the list, and evicts its front. */
  lemma TouchMovesToBack(c: Config, e: Engine, id: string, lru: seq<string>)
    requires Inv(c, e) && Ordered(e.feedbackTouch, lru, e.nextTouch)
    ensures Ordered(EnsureFeedback(c, e, id).feedbackTouch, MovedToBack(lru, id, c.retention.maxFeedback),
                    e.nextTouch + 1)
  {
    hide Ordered;
    var touch, tick := e.feedbackTouch, e.nextTouch;
    OrderedSize(touch, lru, tick);
    ListIsMap(touch, lru, tick, id);
    assert |e.feedback.Keys| == |touch.Keys|;
    if id in lru {
      RemoveKeepsOrder(touch, lru, tick, id);
      PushKeepsOrder(Without(touch, id), Filter(lru, Other(id)), tick, id);
      OverwriteAfterRemove(touch, id, tick);
    } else if |lru| >= c.retention.maxFeedback {
      VictimIsOldest(touch, lru, tick);
      DropOldest(touch, lru, tick);
      PushKeepsOrder(Without(touch, lru[0]), lru[1..], tick, id);
    } else {
      PushKeepsOrder(touch, lru, tick, id);
    }
  }

  // ---- Runs ----------------------------------------------------------------

  ghost function Run(c: Config, ops: seq<Op>): (e: Engine)
    requires ValidConfig(c)
    ensures Inv(c, e)
  {
    if ops == [] then INITIAL
    else
      StepKeepsInv(c, Run(c, Front(ops)), Last(ops));
      Step(c, Run(c, Front(ops)), Last(ops))
  }

  /** Touches an operation makes: one for a quality label, two for a use. */
  function TouchesOf(op: Op): nat {
    match op case RecordUse(_) => 2 case RecordQuality(_, _) => 1 case Apply(_, _) => 0
  }

  function Touches(ops: seq<Op>): nat {
    if ops == [] then 0
    else
      Touches(Front(ops)) + TouchesOf(Last(ops))
  }

  /** What an operation does to the list; no tick is involved. */
  function LruStep(c: Config, e: Engine, lru: seq<string>, op: Op): seq<string> {
    match op
    case RecordUse(a) => MovedToBack(lru, a.id, c.retention.maxFeedback)
    case RecordQuality(id, positive) => MovedToBack(lru, id, c.retention.maxFeedback)
    case Apply(a, stored) =>
      if a.promotable && stored && KindFor(c.policy, FeedbackOf(e, a.id)) == Invalidate
      then Filter(lru, Other(a.id)) else lru
  }

  /** The list a run leaves. */
  ghost function LruOf(c: Config, ops: seq<Op>): seq<string>
    requires ValidConfig(c)
  {
    if ops == [] then [] else LruStep(c, Run(c, Front(ops)), LruOf(c, Front(ops)), Last(ops))
  }

  lemma LaterTick(touch: map<string, u64>, lru: seq<string>, tick: nat, later: nat)
    requires Ordered(touch, lru, tick) && tick <= later
    ensures Ordered(touch, lru, later)
  {
  }

  lemma {:induction false} RunTicks(c: Config, ops: seq<Op>)
    requires ValidConfig(c)
    ensures Run(c, ops).nextTouch == Min(Touches(ops), U64_MAX)
  {
    if ops != [] {
      hide UseStep, QualityStep, ApplyStep;
      var e := Run(c, Front(ops));
      RunTicks(c, Front(ops));
      match Last(ops)
      case RecordUse(a) => UseFields(c, e, a);
      case RecordQuality(id, positive) => QualityFields(c, e, id, positive);
      case Apply(a, stored) => ApplyFields(c, e, a, stored);
    }
  }

  lemma ApplyFields(c: Config, e: Engine, a: Asset, stored: bool)
    ensures var after := ApplyStep(c, e, a, stored);
            && after.nextTouch == e.nextTouch
            && after.feedbackTouch == (if a.promotable && stored && KindFor(c.policy, FeedbackOf(e, a.id)) == Invalidate
                                       then Without(e.feedbackTouch, a.id) else e.feedbackTouch)
            && after.decisions == (if a.promotable then Decided(c, e, a).decisions else e.decisions)
            && after.sequence == (if a.promotable then Decided(c, e, a).sequence else e.sequence)
            && after.decisionsEvicted
                == (if a.promotable then Decided(c, e, a).decisionsEvicted else e.decisionsEvicted)
  {
  }

  /** Until a second touch is given the last tick, the feedback map with its ticks is exactly a
      move-to-back list: same ids, in the order of their ticks, never more than the bound. */
  lemma {:induction false} FeedbackIsLruList(c: Config, ops: seq<Op>)
    requires ValidConfig(c) && Touches(ops) <= U64_MAX + 1
    ensures Ordered(Run(c, ops).feedbackTouch, LruOf(c, ops), Touches(ops))
    ensures |LruOf(c, ops)| == |Run(c, ops).feedback| <= c.retention.maxFeedback
    ensures forall id :: id in LruOf(c, ops) <==> id in Run(c, ops).feedback
  {
    if ops != [] {
      var e, lru, op := Run(c, Front(ops)), LruOf(c, Front(ops)), Last(ops);
      FeedbackIsLruList(c, Front(ops));
      RunTicks(c, Front(ops));
      StepIsLruStep(c, e, lru, op, Touches(Front(ops)));
    }
    OrderedSize(Run(c, ops).feedbackTouch, LruOf(c, ops), Touches(ops));
    assert |Run(c, ops).feedback.Keys| == |Run(c, ops).feedbackTouch.Keys|;
  }

  lemma StepIsLruStep(c: Config, e: Engine, lru: seq<string>, op: Op, tick: nat)
    requires Inv(c, e) && Ordered(e.feedbackTouch, lru, tick) && e.nextTouch == Min(tick, U64_MAX)
    requires tick + TouchesOf(op) <= U64_MAX + 1
    ensures Ordered(Step(c, e, op).feedbackTouch, LruStep(c, e, lru, op), tick + TouchesOf(op))
  {
    hide UseStep, QualityStep, ApplyStep, EnsureFeedback, Ordered, MovedToBack;
    match op
    case RecordUse(a) =>
      TouchMovesToBack(c, e, a.id, lru);
      UseFields(c, e, a);
      LaterTick(UseStep(c, e, a).feedbackTouch, MovedToBack(lru, a.id, c.retention.maxFeedback), tick + 1, tick + 2);
    case RecordQuality(id, positive) =>
      TouchMovesToBack(c, e, id, lru);
      QualityFields(c, e, id, positive);
    case Apply(a, stored) =>
      ApplyFields(c, e, a, stored);
      RemoveKeepsOrder(e.feedbackTouch, lru, tick, a.id);
  }

  // ---- When the ticks have run out -----------------------------------------

  /** Every id that stays beside `id` was last touched before the last tick. */
  ghost predicate OthersOlder(touch: map<string, u64>, id: string) {
    forall x :: x in touch && x != id ==> touch[x] < U64_MAX
  }

  lemma BelowTheLastTick(touch: map<string, u64>, lru: seq<string>, tick: nat)
    requires Ordered(touch, lru, tick) && forall x :: x in touch ==> touch[x] < U64_MAX
    ensures Ordered(touch, lru, U64_MAX)
  {
  }

  /** The list a touch at the last tick leaves, seen as a removal and an append. */
  lemma PushAtTheLastTick(rest: map<string, u64>, lru: seq<string>, tick: nat, id: string)
    requires Ordered(rest, lru, tick) && id !in rest
    ensures Ordered(rest[id := U64_MAX], lru + [id], U64_MAX + 1) <==> OthersOlder(rest[id := U64_MAX], id)
  {
    var after := rest[id := U64_MAX];
    if OthersOlder(after, id) {
      forall x | x in rest ensures rest[x] < U64_MAX {
        assert x in after && x != id && after[x] == rest[x];
      }
      BelowTheLastTick(rest, lru, tick);
      PushKeepsOrder(rest, lru, U64_MAX, id);
    }
    if Ordered(after, lru + [id], U64_MAX + 1) {
      forall x | x in after && x != id ensures after[x] < U64_MAX {
        assert x in rest && x in lru;
        var i :| 0 <= i < |lru| && lru[i] == x;
        assert (lru + [id])[i] == x && (lru + [id])[|lru|] == id;
      }
    }
  }

  /** Before a touch: `id` aside, and the list's front aside where it has to make room, every id was last
      touched before the last tick. */
  ghost predicate RestOlder(touch: map<string, u64>, lru: seq<string>, id: string, max: nat) {
    forall x :: x in touch && x != id && !(id !in touch && |touch| >= max && lru != [] && x == lru[0])
                ==> touch[x] < U64_MAX
  }

  /** Once the counter has saturated the map still is the list after a touch if and only if, before it,
      every other id that is going to stay was last touched before the last tick. */
  lemma SaturatedTouchKeepsListExactlyWhen(c: Config, e: Engine, id: string, lru: seq<string>)
    requires Inv(c, e) && e.nextTouch == U64_MAX && Ordered(e.feedbackTouch, lru, U64_MAX + 1)
    ensures Ordered(EnsureFeedback(c, e, id).feedbackTouch, MovedToBack(lru, id, c.retention.maxFeedback), U64_MAX + 1)
            <==> RestOlder(e.feedbackTouch, lru, id, c.retention.maxFeedback)
  {
    hide Ordered, OthersOlder, RestOlder;
    var touch, tick, max := e.feedbackTouch, U64_MAX + 1, c.retention.maxFeedback;
    OrderedSize(touch, lru, tick);
    ListIsMap(touch, lru, tick, id);
    assert |e.feedback.Keys| == |touch.Keys|;
    if id in lru {
      RemoveKeepsOrder(touch, lru, tick, id);
      PushAtTheLastTick(Without(touch, id), Filter(lru, Other(id)), tick, id);
      OverwriteAfterRemove(touch, id, U64_MAX);
      RestOlderIsOthersOlder(touch, lru, id, max, Without(touch, id));
    } else if |lru| >= max {
      VictimIsOldest(touch, lru, tick);
      DropOldest(touch, lru, tick);
      PushAtTheLastTick(Without(touch, lru[0]), lru[1..], tick, id);
      RestOlderIsOthersOlder(touch, lru, id, max, Without(touch, lru[0]));
    } else {
      PushAtTheLastTick(touch, lru, tick, id);
      RestOlderIsOthersOlder(touch, lru, id, max, touch);
    }
  }

  lemma RestOlderIsOthersOlder(touch: map<string, u64>, lru: seq<string>, id: string, max: nat, rest: map<string, u64>)
    requires rest == if id in touch then Without(touch, id)
                     else if |touch| >= max && lru != [] then Without(touch, lru[0]) else touch
    ensures RestOlder(touch, lru, id, max) <==> OthersOlder(rest[id := U64_MAX], id)
  {
    var after := rest[id := U64_MAX];
    forall x | x in touch && x != id && !(id !in touch && |touch| >= max && lru != [] && x == lru[0])
      ensures x in after && after[x] == touch[x]
    {
    }
  }

  /** A touch of a known asset once the counter has saturated. */
  lemma SaturatedTouch(c: Config, e: Engine, id: string)
    requires Inv(c, e) && e.nextTouch == U64_MAX && id in e.feedback
    ensures var after := EnsureFeedback(c, e, id);
            && Inv(c, after) && after.nextTouch == U64_MAX && after.feedback.Keys == e.feedback.Keys
            && after.feedbackTouch == e.feedbackTouch[id := U64_MAX]
  {
    EnsureFeedbackKeepsInv(c, e, id);
    hide Inv;
    assert e.feedback[id := FeedbackOf(e, id)].Keys == e.feedback.Keys;
  }

  lemma SaturatedTouches(c: Config, e: Engine, first: string, second: string)
    requires Inv(c, e) && e.nextTouch == U64_MAX && e.feedback.Keys == {first, second}
    ensures TouchedTwice(c, e, first, second) == map[first := U64_MAX, second := U64_MAX]
  {
    SaturatedTouch(c, e, first);
    SaturatedTouch(c, EnsureFeedback(c, e, first), second);
    assert e.feedbackTouch.Keys == {first, second} by { InvFacts(c, e); }
    hide Inv, EnsureFeedback;
  }

  /** Then the order of touches is lost: touching two known assets one way round or the other leaves the
      same ticks and the same victim, the one whose name comes first. */
  lemma SaturatedTouchesForgetOrder(c: Config, e: Engine, x: string, y: string)
    requires Inv(c, e) && e.nextTouch == U64_MAX && x != y && e.feedback.Keys == {x, y}
    ensures var xy := TouchedTwice(c, e, x, y);
            && xy == TouchedTwice(c, e, y, x) && xy.Keys == {x, y}
            && LexLe(Victim(xy), x) && LexLe(Victim(xy), y)
  {
    hide Inv, EnsureFeedback, TouchedTwice, LexLe;
    SaturatedTouches(c, e, x, y);
    SaturatedTouches(c, e, y, x);
    assert map[x := U64_MAX, y := U64_MAX] == map[y := U64_MAX, x := U64_MAX];
    TiedTicksEvictByName(TouchedTwice(c, e, x, y), U64_MAX);
  }

  /** The list tells the two orders apart: each leaves the other id at the front. */
  lemma PairMoves(lru: seq<string>, x: string, y: string, max: nat)
    requires x != y && (lru == [x, y] || lru == [y, x])
    ensures MovedToBack(MovedToBack(lru, x, max), y, max) == [x, y]
  {
    RestOfPair(lru, x, y);
    assert MovedToBack(lru, x, max) == [y, x];
    RestOfPair([y, x], y, x);
  }

  lemma RestOfPair(lru: seq<string>, x: string, y: string)
    requires x != y && (lru == [x, y] || lru == [y, x])
    ensures Filter(lru, Other(x)) == [y]
  {
    assert lru == [lru[0]] + [lru[1]];
    FilterConcat([lru[0]], [lru[1]], Other(x));
  }

  /** The ticks after touching two assets in turn. */
  ghost function TouchedTwice(c: Config, e: Engine, first: string, second: string): map<string, u64>
    requires Inv(c, e)
  {
    EnsureFeedbackKeepsInv(c, e, first);
    EnsureFeedback(c, EnsureFeedback(c, e, first), second).feedbackTouch
  }

  /** Among equal ticks the least id goes first. */
  lemma TiedTicksEvictByName(touch: map<string, u64>, tick: u64)
    requires touch.Keys != {} && forall id :: id in touch ==> touch[id] == tick
    ensures forall id :: id in touch ==> LexLe(Victim(touch), id)
  {
    forall id | id in touch ensures LexLe(Victim(touch), id) {
      assert EvictedBefore(touch, Victim(touch), id);
    }
  }

  // ---- Decisions -----------------------------------------------------------

  /** Decisions a run makes. */
  function DecisionsMade(ops: seq<Op>): nat {
    if ops == [] then 0
    else DecisionsMade(Front(ops)) + DecisionsOf(Last(ops))
  }

  function DecisionsOf(op: Op): nat { if op.Apply? && op.asset.promotable then 1 else 0 }

  ghost predicate ContiguousTail(e: Engine) {
    && e.decisionsEvicted + |e.decisions| == e.sequence
    && forall k :: 0 <= k < |e.decisions| ==> e.decisions[k].sequence == e.decisionsEvicted + k + 1
  }

  lemma DecidedKeepsTail(c: Config, e: Engine, a: Asset)
    requires ValidConfig(c) && ContiguousTail(e) && e.sequence < U64_MAX
    ensures ContiguousTail(Decided(c, e, a)) && Decided(c, e, a).sequence == e.sequence + 1
  {
  }

  lemma DecidedKeepsInv(c: Config, e: Engine, a: Asset)
    requires Inv(c, e) && a.promotable
    ensures Inv(c, Decided(c, e, a))
  {
    StepKeepsInv(c, e, Op.Apply(a, false));
  }

  lemma StepKeepsTail(c: Config, e: Engine, op: Op)
    requires ValidConfig(c) && Inv(c, e) && ContiguousTail(e) && e.sequence + DecisionsOf(op) <= U64_MAX
    ensures ContiguousTail(Step(c, e, op)) && Step(c, e, op).sequence == e.sequence + DecisionsOf(op)
  {
    hide UseStep, QualityStep, ApplyStep, EnsureFeedback, Decided;
    match op
    case RecordUse(a) => UseFields(c, e, a);
    case RecordQuality(id, positive) => QualityFields(c, e, id, positive);
    case Apply(a, stored) =>
      ApplyFields(c, e, a, stored);
      if a.promotable {
        DecidedKeepsTail(c, e, a);
      }
  }

  /** Retained decisions are the latest ones, numbered without gaps; with the evicted ones they make
      up every decision taken. */
  lemma {:induction false} DecisionsAreContiguous(c: Config, ops: seq<Op>)
    requires ValidConfig(c) && DecisionsMade(ops) <= U64_MAX
    ensures ContiguousTail(Run(c, ops)) && Run(c, ops).sequence == DecisionsMade(ops)
  {
    if ops != [] {
      hide Step, ContiguousTail, Inv;
      DecisionsAreContiguous(c, Front(ops));
      StepKeepsTail(c, Run(c, Front(ops)), Last(ops));
    } else {
      assert Run(c, ops) == INITIAL;
    }
  }

  // ---- The object ----------------------------------------------------------

  class AdaptationEngine {
    const cfg: Config
    var feedback: map<string, Feedback>
    var feedbackTouch: map<string, u64>
    var recent: map<string, seq<string>>
    var recentTouch: map<string, u64>
    var decisions: seq<Decision>
    var sequence: u64
    var nextTouch: u64
    var feedbackEvicted: u64
    var groupsEvicted: u64
    var decisionsEvicted: u64

    ghost function Value(): Engine
      reads this
    {
      Engine(feedback, feedbackTouch, recent, recentTouch, decisions, sequence, nextTouch,
             feedbackEvicted, groupsEvicted, decisionsEvicted)
    }

    ghost predicate Valid()
      reads this
    {
      Inv(cfg, Value())
    }

    constructor (cfg: Config)
      requires ValidConfig(cfg)
      ensures Valid() && this.cfg == cfg && Value() == INITIAL
    {
      this.cfg := cfg;
      feedback, feedbackTouch, recent, recentTouch := map[], map[], map[], map[];
      decisions, sequence, nextTouch := [], 0, 0;
      feedbackEvicted, groupsEvicted, decisionsEvicted := 0, 0, 0;
    }

    method NextTouchTick() returns (tick: u64)
      modifies this`nextTouch
      ensures tick == old(nextTouch) && nextTouch == SatAdd(tick, 1)
    {
      tick := nextTouch;
      nextTouch := SatAdd(nextTouch, 1);
    }

    method ForgetAsset(id: string)
      modifies this`feedback, this`feedbackTouch, this`recent, this`recentTouch
      ensures Value() == Forgotten(old(Value()), id)
    {
      feedback, feedbackTouch := feedback - {id}, feedbackTouch - {id};
      recent := Purged(recent, id);
      recentTouch := Restricted(recentTouch, recent);
    }

    /** Remove the victim everywhere and count what went. */
    method EvictFeedback(victim: string)
      modifies this`feedback, this`feedbackTouch, this`recent, this`recentTouch, this`feedbackEvicted,
          this`groupsEvicted
      ensures Value() == Evicted(old(Value()), victim)
    {
      var before := |recent|;
      ForgetAsset(victim);
      feedbackEvicted := SatAdd(feedbackEvicted, 1);
      groupsEvicted := SatAdd(groupsEvicted, SatSub(before, |recent|));
    }

    method EnsureFeedbackAsset(id: string)
      requires feedback.Keys == feedbackTouch.Keys && cfg.retention.maxFeedback > 0
      modifies this
      ensures Value() == EnsureFeedback(cfg, old(Value()), id)
    {
      hide Evicted, IsVictim, EvictedBefore;
      var tick := NextTouchTick();
      if id !in feedback && |feedback| >= cfg.retention.maxFeedback {
        assert feedback.Keys != {};
        var victim := FindVictim(feedbackTouch);
        VictimUnique(feedbackTouch, victim, Victim(feedbackTouch));
        EvictFeedback(victim);
      }
      feedback := feedback[id := if id in feedback then feedback[id] else NO_FEEDBACK];
      feedbackTouch := feedbackTouch[id := tick];
    }

    method EnsureRecentGroup(group: string)
      requires recent.Keys == recentTouch.Keys && cfg.retention.maxGroups > 0
      modifies this
      ensures Value() == EnsureGroup(cfg, old(Value()), group)
    {
      var tick := NextTouchTick();
      if group !in recent && |recent| >= cfg.retention.maxGroups {
        assert recent.Keys != {};
        var victim := FindVictim(recentTouch);
        VictimUnique(recentTouch, victim, Victim(recentTouch));
        recent, recentTouch := recent - {victim}, recentTouch - {victim};
        groupsEvicted := SatAdd(groupsEvicted, 1);
      }
      recent := recent[group := if group in recent then recent[group] else []];
      recentTouch := recentTouch[group := tick];
    }

    method RecordUse(a: Asset)
      requires Valid()
      modifies this
      ensures Valid() && Value() == Step(cfg, old(Value()), Op.RecordUse(a))
    {
      hide EnsureFeedback, EnsureGroup, Inv;
      ghost var e := Value();
      StepKeepsInv(cfg, e, Op.RecordUse(a));
      InvFacts(cfg, e);
      EnsureFeedbackKeepsInv(cfg, e, a.id);
      EnsureFeedbackAsset(a.id);
      ghost var used := WithFeedback(Value(), a.id, Counted(feedback[a.id]));
      feedback := feedback[a.id := feedback[a.id].(uses := SatAdd(feedback[a.id].uses, 1))];
      assert Value() == used;
      EnsureFeedbackFeedsGroup(cfg, e, a);
      InvFacts(cfg, used);
      EnsureGroupKeepsInv(cfg, used, GroupOf(a));
      var group := if a.variantGroup.Some? then a.variantGroup.value else a.intent;
      EnsureRecentGroup(group);
      var row := recent[group] + [a.id];
      while |row| > cfg.policy.window
        invariant Window(row, cfg.policy.window) == Window(recent[group] + [a.id], cfg.policy.window)
      {
        row := row[1..];
      }
      recent := recent[group := row];
    }

    method RecordQuality(id: string, positive: bool)
      requires Valid()
      modifies this
      ensures Valid() && Value() == Step(cfg, old(Value()), Op.RecordQuality(id, positive))
    {
      hide EnsureFeedback, Inv;
      ghost var e := Value();
      StepKeepsInv(cfg, e, Op.RecordQuality(id, positive));
      InvFacts(cfg, e);
      EnsureFeedbackKeepsInv(cfg, e, id);
      EnsureFeedbackAsset(id);
      var f := feedback[id];
      if positive {
        feedback := feedback[id := f.(positive := SatAdd(f.positive, 1))];
      } else {
        feedback := feedback[id := f.(negative := SatAdd(f.negative, 1))];
      }
    }

    method Evaluate(a: Asset) returns (r: Option<Decision>)
      requires Valid()
      modifies this`sequence, this`decisions, this`decisionsEvicted
      ensures Valid()
      ensures Value() == if a.promotable then Decided(cfg, old(Value()), a) else old(Value())
      ensures r == if a.promotable
                   then Some(Decision(SatAdd(old(sequence), 1), a.id,
                                      KindFor(cfg.policy, FeedbackOf(old(Value()), a.id)),
                                      FeedbackOf(old(Value()), a.id)))
                   else None
    {
      hide Inv;
      if !a.promotable {
        return None;
      }
      DecidedKeepsInv(cfg, Value(), a);
      var f := if a.id in feedback then feedback[a.id] else NO_FEEDBACK;
      sequence := SatAdd(sequence, 1);
      var record := Decision(sequence, a.id, KindFor(cfg.policy, f), f);
      decisions := decisions + [record];
      if |decisions| > cfg.retention.maxDecisions {
        var remove := |decisions| - cfg.retention.maxDecisions;
        decisions := decisions[remove..];
        decisionsEvicted := SatAdd(decisionsEvicted, remove);
      }
      r := Some(record);
    }

    method Apply(a: Asset, stored: bool) returns (r: Option<Kind>)
      requires Valid()
      modifies this
      ensures Valid() && Value() == Step(cfg, old(Value()), Op.Apply(a, stored))
      ensures r == if a.promotable then Some(KindFor(cfg.policy, FeedbackOf(old(Value()), a.id))) else None
    {
      hide Inv, Forgotten, Decided;
      StepKeepsInv(cfg, Value(), Op.Apply(a, stored));
      var decision := Evaluate(a);
      if decision.None? {
        return None;
      }
      if decision.value.kind == Invalidate && stored {
        ForgetAsset(a.id);
      }
      r := Some(decision.value.kind);
    }
  }

  lemma InvFacts(c: Config, e: Engine)
    requires Inv(c, e)
    ensures e.feedback.Keys == e.feedbackTouch.Keys && e.recent.Keys == e.recentTouch.Keys
    ensures c.retention.maxFeedback > 0 && c.retention.maxGroups > 0
  {
  }

  lemma EnsureFeedbackFeedsGroup(c: Config, e: Engine, a: Asset)
    requires Inv(c, e)
    ensures a.id in EnsureFeedback(c, e, a.id).feedback
    ensures var touched := EnsureFeedback(c, e, a.id);
            Inv(c, WithFeedback(touched, a.id, Counted(touched.feedback[a.id])))
  {
    hide EnsureFeedback;
    EnsureFeedbackKeepsInv(c, e, a.id);
  }
}
