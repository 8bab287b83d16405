/** Where the reads stop short: what the bounded link view and the one-hop promotion leave out, exactly
    when, and at which inputs. */
module MemoryReadLimits {
  import opened Seqs
  import opened Utf8
  import opened Words
  import opened MemoryModel
  import opened MemoryInvariants
  import opened MemoryWrites
  import opened MemoryRuns
  import opened MemoryReads
  import opened MemoryReadTheorems

  // ---- Promotion -----------------------------------------------------------

  /** The corrections a read at `now` applies, and the context it ranks before the limit. */
  function Corrections(st: Store, now: u64): map<u64, u64> { CorrectionOf(st.links, LiveIds(st, now), now) }

  function PromotedAt(env: Env, st: Store, topic: Option<Text>, now: u64): set<u64> {
    Promoted(env, Filter(st.entries, Live(now)), topic, Corrections(st, now))
  }

  function RankedContext(env: Env, st: Store, speaker: Option<Text>, topic: Option<Text>, now: u64): seq<Entry> {
    ContextOver(env, Filter(st.entries, Live(now)), Corrections(st, now), speaker, topic)
  }

  /** A superseded topic match promotes its first recorded live correction, and no later one: that
      correction is ranked at all if and only if nothing live supersedes it in turn and it may reach the
      speaker. */
  lemma PromotionReachesExactlyWhen(env: Env, st: Store, namespace: Text, actor: Option<Text>, topic: Option<Text>,
                                    now: u64, e: Entry, c: Entry)
    requires Increasing(st.entries) && e in st.entries && c in st.entries && Live(now)(e) && Live(now)(c)
    requires TopicMatch(env, topic, e) && e.id in Corrections(st, now) && Corrections(st, now)[e.id] == c.id
    ensures c.id in PromotedAt(env, st, topic, now) && Priority(env, topic, PromotedAt(env, st, topic, now), c)
    ensures var speaker := Speaker(env, namespace, actor);
            c in RankedContext(env, st, speaker, topic, now)
            <==> !Stale(st.links, c.id, LiveIds(st, now), now) && MayReach(speaker, c)
  {
    FilterMembers(st.entries, Live(now));
    ContextContents(env, st, namespace, actor, topic, now, c);
  }

  /** A node is promoted only on account of such a topic match. */
  lemma PromotedOnAccountOf(env: Env, st: Store, topic: Option<Text>, now: u64, id: u64)
    ensures id in PromotedAt(env, st, topic, now)
            <==> exists e :: && e in st.entries && Live(now)(e) && TopicMatch(env, topic, e)
                             && e.id in Corrections(st, now) && Corrections(st, now)[e.id] == id
  {
    FilterMembers(st.entries, Live(now));
  }

  /** An unattributed observation recorded at the time that is its id. */
  function NoteOn(id: u64, topic: Option<Text>): Entry {
    Entry(Source([], [], Game, SemiTrusted, None), [], topic, id, 100, Durable, AllowedSystemSource, Observation, id)
  }

  function Supersession(newer: u64, older: u64): Link { Link(newer, older, Supersedes, newer) }

  /** A claim on topic `t`, corrected on topic `u`, the correction corrected again, and an unrelated note. */
  function TwiceCorrected(t: Text, u: Text): Store {
    Store([NoteOn(1, Some(t)), NoteOn(2, Some(u)), NoteOn(3, Some(u)), NoteOn(4, None)],
          [Supersession(2, 1), Supersession(3, 2)], 5, Log([], 0, 0, 4, 2))
  }

  lemma TwiceCorrectedIsSound(cfg: Config, t: Text, u: Text)
    requires ValidConfig(cfg) && cfg.maxEntries >= 4 && cfg.maxLinks >= 2
    ensures Inv(cfg, TwiceCorrected(t, u))
  {
    var st := TwiceCorrected(t, u);
    FourIds(st.entries);
    var f, g := Supersession(2, 1), Supersession(3, 2);
    assert forall l :: l in st.links <==> l == f || l == g;
    assert Agrees(st.entries, f) && Agrees(st.entries, g);
    hide Agrees, Ids;
  }

  lemma FourIds(s: seq<Entry>)
    requires |s| == 4 && forall i :: 0 <= i < 4 ==> s[i].id == i + 1
    ensures Ids(s) == {1, 2, 3, 4}
  {
    assert forall e :: e in s <==> e == s[0] || e == s[1] || e == s[2] || e == s[3];
    assert s[0] in s && s[1] in s && s[2] in s && s[3] in s;
    assert Ids(s) == {s[0].id, s[1].id, s[2].id, s[3].id};
  }

  lemma CorrectionsOfTwo(st: Store, live: set<u64>, now: u64)
    requires st.links == [Supersession(2, 1), Supersession(3, 2)] && 2 in live && 3 in live && now >= 3
    ensures CorrectionOf(st.links, live, now) == map[1 := 2, 2 := 3]
  {
    assert Front(st.links) == [Supersession(2, 1)] && Front([Supersession(2, 1)]) == [];
    assert CorrectionOf([Supersession(2, 1)], live, now) == map[1 := 2];
  }

  lemma AllLive(st: Store, t: Text, u: Text)
    requires st == TwiceCorrected(t, u)
    ensures Filter(st.entries, Live(10)) == st.entries && LiveIds(st, 10) == {1, 2, 3, 4}
  {
    FilterAll(st.entries, Live(10));
    FourIds(st.entries);
  }

  lemma FilterLastTwo(a: Entry, b: Entry, c: Entry, d: Entry, p: Entry -> bool)
    requires !p(a) && !p(b) && p(c) && p(d)
    ensures Filter([a, b, c, d], p) == [c, d]
  {
    assert [a, b, c, d] == [a, b] + [c, d];
    FilterNone([a, b], p);
    FilterAll([c, d], p);
    hide Filter;
    FilterConcat([a, b], [c, d], p);
  }

  lemma SortOfTwo(a: Entry, b: Entry, le: (Entry, Entry) -> bool)
    requires TotalPreorder(le) && le(b, a) && !le(a, b)
    ensures SortBy([a, b], le) == [b, a]
  {
    var r := SortBy([a, b], le);
    SortSorted([a, b], le);
    SortPermutes([a, b], le);
    assert multiset(r) == multiset{a, b};
    assert r == [r[0], r[1]] && multiset(r) == multiset{r[0], r[1]};
    assert r[0] in multiset(r) && r[1] in multiset(r) && a in multiset(r) && b in multiset(r);
    assert le(r[0], r[1]);
  }

  /** The input: asked for topic `t`, the context promotes only the stale correction, so the current one
      is led by an unrelated newer note, and lost where the limit is one. */
  lemma LatestCorrectionIsNotPromoted(env: Env, t: Text, u: Text, namespace: Text, limit: nat)
    requires env.normalize(t) != env.normalize(u) && limit >= 1
    ensures var st := TwiceCorrected(t, u);
            && PromotedAt(env, st, Some(t), 10) == {2}
            && ContextFor(env, st, namespace, None, Some(t), limit, 10)
                == Take([NoteOn(4, None), NoteOn(3, Some(u))], limit)
            && !Stale(st.links, 3, LiveIds(st, 10), 10)
  {
    hide TwiceCorrected, NoteOn, ContextOver, Filter, Stale, CorrectionOf, Promoted;
    CurrentIsKept(env, t, u);
    LedByTheNote(env, t, u);
  }

  lemma CurrentIsKept(env: Env, t: Text, u: Text)
    requires env.normalize(t) != env.normalize(u)
    ensures var st := TwiceCorrected(t, u);
            && Filter(st.entries, Live(10)) == st.entries && Corrections(st, 10) == map[1 := 2, 2 := 3]
            && PromotedAt(env, st, Some(t), 10) == {2}
            && !Stale(st.links, 3, LiveIds(st, 10), 10)
  {
    var st := TwiceCorrected(t, u);
    AllLive(st, t, u);
    CorrectionsOfTwo(st, LiveIds(st, 10), 10);
    DroppedExactlyWhenStale(st.links, LiveIds(st, 10), 10, 3);
    hide CorrectionOf, LiveIds, Stale, Filter, PromotedAt;
    PromotesTheSecond(env, st, t, u);
  }

  lemma CurrentAndNoteRemain(t: Text, u: Text)
    ensures Filter(TwiceCorrected(t, u).entries, Deliverable(None, map[1 := 2, 2 := 3]))
            == [NoteOn(3, Some(u)), NoteOn(4, None)]
  {
    var may := Deliverable(None, map[1 := 2, 2 := 3]);
    var a, b, c, d := NoteOn(1, Some(t)), NoteOn(2, Some(u)), NoteOn(3, Some(u)), NoteOn(4, None);
    assert !may(a) && !may(b) && may(c) && may(d);
    hide NoteOn, Deliverable, Filter;
    FilterLastTwo(a, b, c, d, may);
  }

  lemma NoteIsNewer(env: Env, t: Text, u: Text)
    requires env.normalize(t) != env.normalize(u)
    ensures SortBy([NoteOn(3, Some(u)), NoteOn(4, None)], ContextBefore(env, Some(t), {2}))
            == [NoteOn(4, None), NoteOn(3, Some(u))]
  {
    var c, d, le := NoteOn(3, Some(u)), NoteOn(4, None), ContextBefore(env, Some(t), {2});
    ContextBeforeIsOrder(env, Some(t), {2});
    assert !Priority(env, Some(t), {2}, c) && !Priority(env, Some(t), {2}, d);
    assert le(d, c) && !le(c, d);
    hide NoteOn, ContextBefore, SortBy;
    SortOfTwo(c, d, le);
  }

  lemma LedByTheNote(env: Env, t: Text, u: Text)
    requires env.normalize(t) != env.normalize(u)
    ensures RankedContext(env, TwiceCorrected(t, u), None, Some(t), 10) == [NoteOn(4, None), NoteOn(3, Some(u))]
  {
    hide TwiceCorrected, NoteOn, SortBy, Filter, Stale, LiveIds, Corrections, Deliverable, ContextBefore;
    CurrentIsKept(env, t, u);
    CurrentAndNoteRemain(t, u);
    NoteIsNewer(env, t, u);
  }

  lemma PromotesTheSecond(env: Env, st: Store, t: Text, u: Text)
    requires env.normalize(t) != env.normalize(u) && st == TwiceCorrected(t, u)
    requires Filter(st.entries, Live(10)) == st.entries && Corrections(st, 10) == map[1 := 2, 2 := 3]
    ensures PromotedAt(env, st, Some(t), 10) == {2}
  {
    var s := st.entries;
    assert s[0] in s && TopicMatch(env, Some(t), s[0]);
    forall e | e in s && TopicMatch(env, Some(t), e) ensures e == s[0] {
      var i :| 0 <= i < |s| && s[i] == e;
    }
  }

  // ---- The bounded view ----------------------------------------------------

  /** With room left, exactly: a live node in scope is returned if and only if it is a direct match or the
      bounded view of one shows it. */
  lemma ReturnedExactlyWhen(env: Env, cfg: Config, st: Store, q: Query, now: u64, e: Entry)
    requires Inv(cfg, st) && !Unevaluable(q) && |RelevantLinked(env, cfg, st, q, now)| < q.limit
    requires e in st.entries && e.id in LiveIds(st, now) && InScope(Scope(env, q), e)
    ensures var direct := DirectMatches(env, st, q, now);
            e in ResultNodes(env, cfg, st, q, now)
            <==> e in direct || OneLinkAway(st, cfg.maxLinksPerMemory, now, direct, e)
  {
    var direct, r := DirectMatches(env, st, q, now), ResultNodes(env, cfg, st, q, now);
    LinkedResult(env, cfg, st, q, now);
    if OneLinkAway(st, cfg.maxLinksPerMemory, now, direct, e) {
      LinkedResultMissesNothing(env, cfg, st, q, now, e);
      ReturnedById(cfg, st, r, e);
    }
    if e in r {
      hide *;
      InHeadOrTail(r, |direct|, e);
    }
  }

  lemma InHeadOrTail(r: seq<Entry>, k: nat, e: Entry)
    requires k <= |r| && e in r
    ensures e in r[..k] || e in r[k..]
  {
    assert r == r[..k] + r[k..];
  }

  lemma ReturnedById(cfg: Config, st: Store, r: seq<Entry>, e: Entry)
    requires Inv(cfg, st) && e in st.entries && e.id in Ids(r) && forall x :: x in r ==> x in st.entries
    ensures e in r
  {
    var x :| x in r && x.id == e.id;
    SameIdSameEntry(st.entries, x, e);
  }

  /** A view of one link, at a node superseded twice, hides the older neighbour: a visible link joins the
      two, and no hop from the node reaches it. */
  lemma NarrowViewHidesANeighbour(st: Store, now: u64, m: Entry, e: Entry)
    requires st.links == [Supersession(2, 1), Supersession(3, 1)] && now >= 3 && m.id == 1 && e.id == 2
    requires 1 in LiveIds(st, now) && 2 in LiveIds(st, now) && 3 in LiveIds(st, now)
    ensures Joined(st, now, m, e) && !OneLinkAway(st, 1, now, [m], e)
  {
    var live, older, newer := LiveIds(st, now), Supersession(2, 1), Supersession(3, 1);
    assert older in st.links && newer in st.links;
    assert Incident(1, live, now)(older) && OtherEnd(1, older) == 2;
    CapNeverHidesTheNewestSupersession(st.links, 1, live, 1, now, newer);
    var view := ViewLinks(st.links, 1, live, 1, now);
    ViewWithin(st.links, 1, live, 1, now);
    assert view[0] in view && view[0] == newer;
    assert Neighbours(Viewed(st, live, 1, now)(m)) == [3];
  }

  lemma ViewWithin(links: seq<Link>, id: u64, live: set<u64>, cap: nat, now: u64)
    ensures |ViewLinks(links, id, live, cap, now)| <= cap
    ensures forall l :: l in ViewLinks(links, id, live, cap, now) ==> l in links
  {
    var incident := Filter(links, Incident(id, live, now));
    FilterMembers(links, Incident(id, live, now));
    FilterMembers(incident, OfKind(Supersedes));
    FilterMembers(incident, OfKind(CausedBy));
    FilterMembers(incident, OfKind(TemporalBefore));
    SortMembers(Filter(incident, OfKind(Supersedes)), NewerLinkFirst);
    SortMembers(Filter(incident, OfKind(CausedBy)), NewerLinkFirst);
  }

  // ---- Operator records ----------------------------------------------------

  /** An operator's record does reach generation: after one working write by an operator with an actor,
      the context for that actor delivers it, whatever the topic and the limit. */
  lemma OwnOperatorRecordIsDelivered(env: Env, cfg: Config, origin: Origin, claim: Text, topic: Option<Text>,
                                     now: u64, limit: nat)
    requires ValidConfig(cfg) && origin.class_ == Operator && origin.actor.Some? && env.normalize(claim) != []
    requires now < U64_MAX && limit >= 1
    ensures var st := Run(env, cfg, [WriteWorking(origin, claim, None, now)]);
            && |st.entries| == 1 && st.entries[0].source.class_ == Operator
            && ContextFor(env, st, origin.namespace, origin.actor, topic, limit, now) == st.entries
  {
    var op := WriteWorking(origin, claim, None, now);
    assert Front([op]) == [] && Run(env, cfg, []) == EMPTY;
    var st := Run(env, cfg, [op]);
    assert st == RememberWorking(env, cfg, EMPTY, origin, claim, None, now).0;
    hide Run, RunFrom, RememberWorking, ContextOver, Filter, Corrections;
    OneWrite(env, cfg, origin, claim, now);
    OnlyRecordIsRanked(env, st, origin, topic, now);
    assert RankedContext(env, st, Speaker(env, origin.namespace, origin.actor), topic, now) == st.entries;
  }

  lemma OnlyRecordIsRanked(env: Env, st: Store, origin: Origin, topic: Option<Text>, now: u64)
    requires |st.entries| == 1 && st.links == [] && origin.actor.Some? && Live(now)(st.entries[0])
    requires st.entries[0].source.class_ == Operator
    requires st.entries[0].source.actor == Some(env.pseudonym(origin.namespace, origin.actor.value))
    ensures RankedContext(env, st, Speaker(env, origin.namespace, origin.actor), topic, now) == st.entries
  {
    var e, all := st.entries[0], RankedContext(env, st, Speaker(env, origin.namespace, origin.actor), topic, now);
    assert e in st.entries && Increasing(st.entries);
    assert !Stale(st.links, e.id, LiveIds(st, now), now);
    OperatorRecordsReachOnlyTheirOwner(env, st, origin.namespace, origin.actor, topic, now, e);
    assert e in all;
    RankedWithinEntries(env, st, Speaker(env, origin.namespace, origin.actor), topic, now);
    hide RankedContext, Stale, LiveIds;
    assert |all| == 1;
  }

  lemma RankedWithinEntries(env: Env, st: Store, speaker: Option<Text>, topic: Option<Text>, now: u64)
    ensures |RankedContext(env, st, speaker, topic, now)| <= |st.entries|
  {
  }

  lemma NothingToPrune(first: set<u64>, second: set<u64>)
    ensures Prune(Prune([], first), second) == []
  {
  }

  lemma OperatorEntryBuilds(env: Env, cfg: Config, origin: Origin, claim: Text, now: u64)
    requires ValidConfig(cfg) && origin.class_ == Operator && origin.actor.Some? && env.normalize(claim) != []
    requires now < U64_MAX
    ensures var built := BuildEntry(env, cfg, origin, WorkingOnly, claim, None, now, Working);
            && built.Ok? && built.value.source.class_ == Operator
            && built.value.createdAt == now < built.value.expiresAt
            && built.value.source.actor == Some(env.pseudonym(origin.namespace, origin.actor.value))
  {
    hide Truncated;
  }

  lemma FirstWrite(env: Env, cfg: Config, st: Store, origin: Origin, claim: Text, now: u64)
    requires ValidConfig(cfg) && st == EMPTY && now < U64_MAX
    requires BuildEntry(env, cfg, origin, WorkingOnly, claim, None, now, Working).Ok?
    ensures var after := RememberWorking(env, cfg, st, origin, claim, None, now).0;
            var built := BuildEntry(env, cfg, origin, WorkingOnly, claim, None, now, Working).value;
            after.entries == [built.(id := 1)] && after.links == []
  {
    assert Inv(cfg, st) && ProjectedEntries(cfg, st.entries, now) == [];
    hide Inv, BuildEntry, RememberWorking, ProjectedEntries, Prune, KeptEntries, Ids;
    WorkingWriteOutcome(env, cfg, st, origin, claim, None, now);
    NothingToPrune(Ids(KeptEntries(cfg, st.entries, now)),
                   Ids(RememberWorking(env, cfg, st, origin, claim, None, now).0.entries));
  }

  lemma OneWrite(env: Env, cfg: Config, origin: Origin, claim: Text, now: u64)
    requires ValidConfig(cfg) && origin.class_ == Operator && origin.actor.Some? && env.normalize(claim) != []
    requires now < U64_MAX
    ensures var st := RememberWorking(env, cfg, EMPTY, origin, claim, None, now).0;
            && |st.entries| == 1 && st.links == []
            && var e := st.entries[0];
               e.source.class_ == Operator && Live(now)(e)
               && e.source.actor == Some(env.pseudonym(origin.namespace, origin.actor.value))
  {
    OperatorEntryBuilds(env, cfg, origin, claim, now);
    hide BuildEntry, RememberWorking;
    FirstWrite(env, cfg, EMPTY, origin, claim, now);
  }
}
