/** The durable write as a whole: what it refuses, what it stores, what it keeps. */
module MemoryWrites {
  import opened Seqs
  import opened Utf8
  import opened Words
  import opened MemoryModel
  import opened MemoryInvariants

  // ---- Declared targets ----------------------------------------------------

  /** `e` is a live durable memory of `eventId` recorded no later than `now`. */
  predicate Target(e: Entry, eventId: Text, now: u64) {
    && e.source.eventId == eventId && e.retention == Durable
    && e.expiresAt > now && e.createdAt <= now
  }

  predicate LiveMatch(e: Entry, eventId: Text, now: u64) {
    e.source.eventId == eventId && e.retention == Durable && e.expiresAt > now
  }

  lemma LiveMatches(entries: seq<Entry>, eventId: Text, now: u64)
    ensures forall e :: e in Filter(Filter(entries, DurableWith(eventId)), Unexpired(now))
                        <==> e in entries && LiveMatch(e, eventId, now)
  {
    FilterMembers(entries, DurableWith(eventId));
    FilterMembers(Filter(entries, DurableWith(eventId)), Unexpired(now));
  }

  /** A target resolves exactly when one live durable memory carries the event id and it is not
      from the future; the result names that memory. */
  lemma ResolveIsExact(entries: seq<Entry>, eventId: Text, now: u64, id: u64)
    requires Increasing(entries)
    ensures Resolve(entries, eventId, now) == Ok(id) <==>
            exists e :: e in entries && e.id == id && Target(e, eventId, now)
                        && forall x :: x in entries && LiveMatch(x, eventId, now) ==> x == e
  {
    var live := Filter(Filter(entries, DurableWith(eventId)), Unexpired(now));
    LiveMatches(entries, eventId, now);
    assert Increasing(live) by {
      FilterIncreasing(entries, DurableWith(eventId));
      FilterIncreasing(Filter(entries, DurableWith(eventId)), Unexpired(now));
    }
    if live == [] {
    } else if |live| == 1 {
      assert live[0] in live;
      forall x | x in live ensures x == live[0] {}
    } else {
      assert live[0] in live && live[1] in live && live[0].id < live[1].id;
    }
  }

  ghost predicate NamesTarget(entries: seq<Entry>, id: u64, eventId: Text, now: u64) {
    exists e :: e in entries && e.id == id && Target(e, eventId, now)
  }

  ghost predicate NamesTargets(entries: seq<Entry>, ids: seq<u64>, eventIds: seq<Text>, now: u64) {
    |ids| == |eventIds| && forall k :: 0 <= k < |ids| ==> NamesTarget(entries, ids[k], eventIds[k], now)
  }

  lemma {:induction false} ResolveAllNamesTargets(entries: seq<Entry>, eventIds: seq<Text>, now: u64,
                                                  relation: Relation)
    requires Increasing(entries) && ResolveAll(entries, eventIds, now, relation).Ok?
    ensures NamesTargets(entries, ResolveAll(entries, eventIds, now, relation).value, eventIds, now)
  {
    if eventIds != [] {
      ResolveAllNamesTargets(entries, Front(eventIds), now, relation);
      ResolveIsExact(entries, Last(eventIds), now, Resolve(entries, Last(eventIds), now).value);
    }
  }

  lemma {:induction false} UniqueFacts(s: seq<Text>)
    ensures Distinct(Unique(s))
    ensures forall x :: x in Unique(s) <==> x in s
  {
    if s != [] {
      UniqueFacts(Front(s));
      assert s == Front(s) + [Last(s)];
    }
  }

  /** Distinct event ids name distinct nodes. */
  lemma TargetsDistinct(entries: seq<Entry>, ids: seq<u64>, eventIds: seq<Text>, now: u64)
    requires Increasing(entries) && NamesTargets(entries, ids, eventIds, now) && Distinct(eventIds)
    ensures DistinctIds(ids)
  {
    forall i, j | 0 <= i < j < |ids| ensures ids[i] != ids[j] {
      assert NamesTarget(entries, ids[i], eventIds[i], now) && NamesTarget(entries, ids[j], eventIds[j], now);
      var a :| a in entries && a.id == ids[i] && Target(a, eventIds[i], now);
      var b :| b in entries && b.id == ids[j] && Target(b, eventIds[j], now);
      if ids[i] == ids[j] {
        SameIdSameEntry(entries, a, b);
      }
    }
  }

  /** `ids` are distinct nodes of the store that a write at `now` may point back to. */
  ghost predicate GoodTargets(entries: seq<Entry>, ids: seq<u64>, now: u64) {
    && DistinctIds(ids)
    && forall id :: id in ids ==> exists e :: e in entries && e.id == id && e.retention == Durable && e.createdAt <= now
  }

  lemma TargetsAreGood(entries: seq<Entry>, ids: seq<u64>, eventIds: seq<Text>, now: u64)
    requires Increasing(entries) && NamesTargets(entries, ids, eventIds, now) && Distinct(eventIds)
    ensures GoodTargets(entries, ids, now)
  {
    TargetsDistinct(entries, ids, eventIds, now);
    forall id | id in ids
      ensures exists e :: e in entries && e.id == id && e.retention == Durable && e.createdAt <= now
    {
      var k :| 0 <= k < |ids| && ids[k] == id;
      assert NamesTarget(entries, ids[k], eventIds[k], now);
    }
  }

  /** What an accepted plan guarantees. */
  lemma PlanFacts(env: Env, cfg: Config, st: Store, req: Request, now: u64)
    requires Increasing(st.entries) && PlanDurable(env, cfg, st, req, now).Ok?
    ensures var plan := PlanDurable(env, cfg, st, req, now).value;
            && GoodTargets(st.entries, plan.targets, now)
            && GoodTargets(st.entries, plan.causes, now)
            && NamesTargets(st.entries, plan.targets, Unique(req.supersedes), now)
            && NamesTargets(st.entries, plan.causes, Unique(req.causedBy), now)
            && |plan.targets| + |plan.causes| <= cfg.maxLinksPerMemory
            && EvidenceFits(cfg, st, now, plan.targets, plan.causes)
            && plan.entry.retention == Durable && plan.entry.createdAt == now
            && plan.entry.expiresAt == SatAdd(now, cfg.durableTtl)
            && plan.entry.source.eventId == req.origin.eventId
  {
    hide Increasing, GoodTargets, NamesTargets, ResolveAll, EvidenceFits;
    var plan := PlanDurable(env, cfg, st, req, now).value;
    UniqueFacts(req.supersedes);
    UniqueFacts(req.causedBy);
    hide Unique;
    ResolveAllNamesTargets(st.entries, Unique(req.supersedes), now, Supersession);
    ResolveAllNamesTargets(st.entries, Unique(req.causedBy), now, Causal);
    TargetsAreGood(st.entries, plan.targets, Unique(req.supersedes), now);
    TargetsAreGood(st.entries, plan.causes, Unique(req.causedBy), now);
  }

  // ---- Linking keeps the invariant -----------------------------------------

  /** `entries` is what insertion of `e` left of `before`. */
  ghost predicate Inserted(before: seq<Entry>, entries: seq<Entry>, e: Entry, now: u64) {
    && Increasing(before) && Increasing(entries)
    && e in entries && e.retention == Durable && e.createdAt == now
    && forall x :: x in entries && x != e ==> x in before && x.id < e.id
  }

  lemma DeclaredEdgesAgree(before: seq<Entry>, entries: seq<Entry>, e: Entry, ids: seq<u64>, kind: LinkKind, now: u64)
    requires Inserted(before, entries, e, now) && GoodTargets(before, ids, now) && kind != TemporalBefore
    requires forall x :: x in before ==> x.id < e.id
    ensures forall l :: l in EdgesTo(e.id, ids, kind, now) ==> Agrees(entries, l)
  {
    forall l | l in EdgesTo(e.id, ids, kind, now) ensures Agrees(entries, l) {
      assert l.to in ids;
      var t :| t in before && t.id == l.to && t.retention == Durable && t.createdAt <= now;
      forall x | x in entries && x.id == l.to ensures x == t {
        SameIdSameEntry(before, x, t);
      }
      forall x | x in entries && x.id == l.from ensures x == e {
        SameIdSameEntry(entries, x, e);
      }
    }
  }

  lemma TemporalEdgesAgree(env: Env, before: seq<Entry>, entries: seq<Entry>, e: Entry, topic: Option<Text>, now: u64,
                           budget: nat)
    requires Inserted(before, entries, e, now)
    ensures forall l :: l in TemporalEdges(Predecessors(env, entries, e.id, topic, now, budget), e.id, now)
                        ==> Agrees(entries, l)
  {
    var older := Predecessors(env, entries, e.id, topic, now, budget);
    PredecessorFacts(env, entries, e.id, topic, now, budget);
    forall l | l in TemporalEdges(older, e.id, now) ensures Agrees(entries, l) {
      var t :| t in older && t.id == l.from;
      forall x | x in entries && x.id == l.from ensures x == t {
        SameIdSameEntry(entries, x, t);
      }
      forall x | x in entries && x.id == l.to ensures x == e {
        SameIdSameEntry(entries, x, e);
      }
    }
  }

  /** Pruning turns agreeing edges into sound ones. */
  lemma PruneEstablishesLinksOk(entries: seq<Entry>, links: seq<Link>)
    requires NoDuplicateEdges(links) && forall l :: l in links ==> Agrees(entries, l)
    ensures LinksOk(entries, Prune(links, Ids(entries)))
  {
    FilterMembers(links, BothAlive(Ids(entries)));
    FilterKeepsEdgesDistinct(links, BothAlive(Ids(entries)));
  }

  /** The edges a write leaves before the bound are sound. */
  lemma LinkingIsSound(env: Env, cfg: Config, before: seq<Entry>, st: Store, e: Entry, now: u64,
                       targets: seq<u64>, causes: seq<u64>)
    requires Inserted(before, st.entries, e, now) && forall x :: x in before ==> x.id < e.id
    requires LinksOk(st.entries, st.links) && forall l :: l in st.links ==> l.from != e.id && l.to != e.id
    requires GoodTargets(before, targets, now) && GoodTargets(before, causes, now)
    requires |targets| + |causes| <= cfg.maxLinksPerMemory
    ensures LinksOk(st.entries, LinkedUnbounded(env, cfg, st, e.id, e.topic, now, targets, causes))
  {
    var new_ := NewEdges(env, cfg, st, e.id, e.topic, now, targets, causes);
    LinkingAppendsNewEdges(env, cfg, st, e.id, e.topic, now, targets, causes);
    DeclaredEdgesAgree(before, st.entries, e, targets, Supersedes, now);
    DeclaredEdgesAgree(before, st.entries, e, causes, CausedBy, now);
    TemporalEdgesAgree(env, before, st.entries, e, e.topic, now, cfg.maxLinksPerMemory - |targets| - |causes|);
    forall l | l in st.links + new_ ensures Agrees(st.entries, l) {}
    PruneEstablishesLinksOk(st.entries, st.links + new_);
  }

  // ---- The capacity check is exact -----------------------------------------

  lemma {:induction false} CountEdges(newId: u64, ids: seq<u64>, kind: LinkKind, now: u64, alive: set<u64>,
                                      survivors: set<u64>)
    requires kind != TemporalBefore && newId in alive
    requires forall id :: id in ids ==> (id in alive <==> id in survivors)
    ensures |Filter(EdgesTo(newId, ids, kind, now), ExplicitAlive(alive))| == |Filter(ids, Member(survivors))|
  {
    if ids != [] {
      CountEdges(newId, Front(ids), kind, now, alive, survivors);
      assert EdgesTo(newId, ids, kind, now)
          == EdgesTo(newId, Front(ids), kind, now) + [Link(newId, Last(ids), kind, now)];
      FilterSnoc(EdgesTo(newId, Front(ids), kind, now), Link(newId, Last(ids), kind, now), ExplicitAlive(alive));
    }
  }

  lemma CountDeclared(newId: u64, targets: seq<u64>, causes: seq<u64>, now: u64, alive: set<u64>, survivors: set<u64>)
    requires newId in alive
    requires forall id :: id in targets || id in causes ==> (id in alive <==> id in survivors)
    ensures |Filter(DeclaredEdges(newId, targets, causes, now), ExplicitAlive(alive))|
            == |Filter(targets + causes, Member(survivors))|
  {
    CountEdges(newId, targets, Supersedes, now, alive, survivors);
    CountEdges(newId, causes, CausedBy, now, alive, survivors);
    FilterConcat(EdgesTo(newId, targets, Supersedes, now), EdgesTo(newId, causes, CausedBy, now), ExplicitAlive(alive));
    FilterConcat(targets, causes, Member(survivors));
  }

  /** The nodes alive after insertion are the projected survivors and the new node. */
  lemma AliveAfterInsertion(cfg: Config, st: Store, entry: Entry, now: u64)
    requires ValidConfig(cfg) && st.nextId < U64_MAX && entry.expiresAt > now
    ensures Ids(PushBounded(cfg, st, entry, now).0.entries)
            == Ids(ProjectedEntries(cfg, st.entries, now)) + {st.nextId}
  {
    InsertionKeepsProjection(cfg, st, entry, now);
    var projected := ProjectedEntries(cfg, st.entries, now);
    IdsOfAppend(projected, entry.(id := st.nextId));
  }

  lemma IdsOfAppend(entries: seq<Entry>, e: Entry)
    ensures Ids(entries + [e]) == Ids(entries) + {e.id}
  {
    assert e in entries + [e];
    forall x | x in entries ensures x.id in Ids(entries + [e]) {
      assert x in entries + [e];
    }
  }

  /** Explicit edges that survive insertion are the old ones between projected survivors. */
  lemma OldEvidenceAfterInsertion(cfg: Config, st: Store, entry: Entry, now: u64)
    requires ValidConfig(cfg) && st.nextId < U64_MAX && entry.expiresAt > now
    requires EntriesOk(st.entries, st.nextId) && NoneDangles(st.entries, st.links)
    ensures var after := PushBounded(cfg, st, entry, now).0;
            Filter(after.links, ExplicitAlive(Ids(after.entries)))
            == Filter(st.links, ExplicitAlive(Ids(ProjectedEntries(cfg, st.entries, now))))
  {
    var after := PushBounded(cfg, st, entry, now).0;
    var survivors := Ids(ProjectedEntries(cfg, st.entries, now));
    var kept := Ids(KeptEntries(cfg, st.entries, now));
    assert survivors <= kept by {
      ProjectedEntriesFacts(cfg, st.entries, now);
    }
    InsertionKeepsProjection(cfg, st, entry, now);
    AliveAfterInsertion(cfg, st, entry, now);
    EvidenceThroughPrunes(st.links, kept, Ids(after.entries), survivors, st.nextId);
  }

  lemma EvidenceThroughPrunes(links: seq<Link>, kept: set<u64>, alive: set<u64>, survivors: set<u64>, newId: u64)
    requires survivors <= kept && alive == survivors + {newId}
    requires forall l :: l in links ==> l.from != newId && l.to != newId
    ensures Filter(Prune(Prune(links, kept), alive), ExplicitAlive(alive)) == Filter(links, ExplicitAlive(survivors))
  {
    FilterMembers(links, BothAlive(kept));
    FilterFuse(Prune(links, kept), BothAlive(alive), ExplicitAlive(alive), ExplicitAlive(survivors));
    FilterFuse(links, BothAlive(kept), ExplicitAlive(survivors), ExplicitAlive(survivors));
  }

  /** A write that passed its checks, about to insert `entry` into `st`. */
  ghost predicate Ready(cfg: Config, st: Store, entry: Entry, now: u64, targets: seq<u64>, causes: seq<u64>) {
    && Inv(cfg, st) && st.nextId < U64_MAX
    && entry.retention == Durable && entry.createdAt == now < entry.expiresAt
    && GoodTargets(st.entries, targets, now) && GoodTargets(st.entries, causes, now)
    && |targets| + |causes| <= cfg.maxLinksPerMemory
  }

  lemma InsertedFacts(cfg: Config, st: Store, entry: Entry, now: u64)
    requires Inv(cfg, st) && st.nextId < U64_MAX
    requires entry.retention == Durable && entry.createdAt == now < entry.expiresAt
    ensures var after := PushBounded(cfg, st, entry, now).0;
            && Inserted(st.entries, after.entries, entry.(id := st.nextId), now)
            && forall l :: l in after.links ==> l.from != st.nextId && l.to != st.nextId
  {
    var after := PushBounded(cfg, st, entry, now).0;
    InsertionKeepsProjection(cfg, st, entry, now);
    assert Inserted(st.entries, after.entries, entry.(id := st.nextId), now) by {
      InsertKeepsInv(cfg, st, entry, now);
      ProjectedEntriesFacts(cfg, st.entries, now);
      KeptEntriesFacts(cfg, st.entries, now);
      InsertedForm(st.entries, ProjectedEntries(cfg, st.entries, now), entry.(id := st.nextId), now);
    }
    PrunedTwiceWithin(st.links, Ids(KeptEntries(cfg, st.entries, now)), Ids(after.entries));
    OldLinksAvoid(st);
  }

  lemma InsertedForm(before: seq<Entry>, kept: seq<Entry>, e: Entry, now: u64)
    requires Increasing(before) && Increasing(kept + [e]) && e.retention == Durable && e.createdAt == now
    requires forall x :: x in before ==> x.id < e.id
    requires forall x :: x in kept ==> x in before
    ensures Inserted(before, kept + [e], e, now)
  {
  }

  lemma PrunedTwiceWithin(links: seq<Link>, first: set<u64>, second: set<u64>)
    ensures forall l :: l in Prune(Prune(links, first), second) ==> l in links
  {
    FilterMembers(links, BothAlive(first));
    FilterMembers(Prune(links, first), BothAlive(second));
  }

  lemma OldLinksAvoid(st: Store)
    requires EntriesOk(st.entries, st.nextId) && NoneDangles(st.entries, st.links)
    ensures forall l :: l in st.links ==> l.from < st.nextId && l.to < st.nextId
  {
  }

  lemma ExplicitOfPruned(links: seq<Link>, declared: seq<Link>, temporal: seq<Link>, alive: set<u64>)
    requires forall l :: l in temporal ==> Derived(l)
    ensures Filter(Prune(links + (declared + temporal), alive), Explicit)
            == Filter(links, ExplicitAlive(alive)) + Filter(declared, ExplicitAlive(alive))
  {
    var p := ExplicitAlive(alive);
    FilterFuse(links + (declared + temporal), BothAlive(alive), Explicit, p);
    FilterNone(temporal, p);
    hide Filter;
    FilterConcat(links, declared + temporal, p);
    FilterConcat(declared, temporal, p);
    assert Filter(declared, p) + [] == Filter(declared, p);
  }

  /** The explicit edges a write leaves, before and after the store bound: the old ones between
      surviving nodes, then the declared ones whose target survived the insertion. */
  lemma EvidenceAfterLinking(env: Env, cfg: Config, st: Store, entry: Entry, now: u64, targets: seq<u64>,
                             causes: seq<u64>)
    requires Ready(cfg, st, entry, now, targets, causes)
    ensures var pushed := PushBounded(cfg, st, entry, now).0;
            Filter(LinkedUnbounded(env, cfg, pushed, st.nextId, entry.topic, now, targets, causes), Explicit)
            == Filter(st.links, ExplicitAlive(Ids(ProjectedEntries(cfg, st.entries, now))))
               + Filter(DeclaredEdges(st.nextId, targets, causes, now), ExplicitAlive(Ids(pushed.entries)))
  {
    var pushed := PushBounded(cfg, st, entry, now).0;
    var budget := cfg.maxLinksPerMemory - |targets| - |causes|;
    var declared := DeclaredEdges(st.nextId, targets, causes, now);
    var temporal := TemporalEdges(Predecessors(env, pushed.entries, st.nextId, entry.topic, now, budget),
                                  st.nextId, now);
    var unbounded := LinkedUnbounded(env, cfg, pushed, st.nextId, entry.topic, now, targets, causes);
    assert unbounded == Prune(pushed.links + (declared + temporal), Ids(pushed.entries)) by {
      InsertKeepsInv(cfg, st, entry, now);
      InsertedFacts(cfg, st, entry, now);
      LinkingAppendsNewEdges(env, cfg, pushed, st.nextId, entry.topic, now, targets, causes);
    }
    assert Filter(unbounded, Explicit) == Filter(pushed.links, ExplicitAlive(Ids(pushed.entries)))
                                          + Filter(declared, ExplicitAlive(Ids(pushed.entries))) by {
      InsertedFacts(cfg, st, entry, now);
      TemporalEdgesFacts(env, pushed.entries, st.nextId, entry.topic, now, budget);
      ExplicitOfPruned(pushed.links, declared, temporal, Ids(pushed.entries));
    }
    OldEvidenceAfterInsertion(cfg, st, entry, now);
  }

  /** The capacity refusal is exact: the check made before anything is stored accepts precisely
      the writes whose explicit edges, after the real insertion and pruning, fit the bound. */
  lemma CapacityCheckIsExact(env: Env, cfg: Config, st: Store, entry: Entry, now: u64, targets: seq<u64>,
                             causes: seq<u64>)
    requires Ready(cfg, st, entry, now, targets, causes)
    ensures var pushed := PushBounded(cfg, st, entry, now).0;
            EvidenceFits(cfg, st, now, targets, causes)
            <==> |Filter(LinkedUnbounded(env, cfg, pushed, st.nextId, entry.topic, now, targets, causes), Explicit)|
                 <= cfg.maxLinks
  {
    var pushed := PushBounded(cfg, st, entry, now).0;
    var survivors := Ids(ProjectedEntries(cfg, st.entries, now));
    EvidenceFitsCounts(cfg, st, now, targets, causes);
    assert forall id :: id in targets || id in causes ==> (id in Ids(pushed.entries) <==> id in survivors) by {
      AliveAfterInsertion(cfg, st, entry, now);
      TargetsBelow(st, targets, now);
      TargetsBelow(st, causes, now);
    }
    assert st.nextId in Ids(pushed.entries) by {
      AliveAfterInsertion(cfg, st, entry, now);
    }
    CountDeclared(st.nextId, targets, causes, now, Ids(pushed.entries), survivors);
    EvidenceAfterLinking(env, cfg, st, entry, now, targets, causes);
  }

  lemma EvidenceFitsCounts(cfg: Config, st: Store, now: u64, targets: seq<u64>, causes: seq<u64>)
    ensures var survivors := Ids(ProjectedEntries(cfg, st.entries, now));
            EvidenceFits(cfg, st, now, targets, causes)
            <==> |Filter(st.links, ExplicitAlive(survivors))| + |Filter(targets + causes, Member(survivors))|
                 <= cfg.maxLinks
  {
    ProjectedEntriesFacts(cfg, st.entries, now);
  }

  lemma TargetsBelow(st: Store, ids: seq<u64>, now: u64)
    requires EntriesOk(st.entries, st.nextId) && GoodTargets(st.entries, ids, now)
    ensures forall id :: id in ids ==> id < st.nextId
  {
    forall id | id in ids ensures id < st.nextId {
      var e :| e in st.entries && e.id == id && e.retention == Durable && e.createdAt <= now;
    }
  }

  // ---- The write -----------------------------------------------------------

  /** After a checked write the store is sound, within every bound, holds exactly the evidence the
      capacity check counted, and shed no explicit edge to get there. */
  lemma LinkedStore(env: Env, cfg: Config, st: Store, entry: Entry, now: u64, targets: seq<u64>, causes: seq<u64>)
    requires Ready(cfg, st, entry, now, targets, causes) && EvidenceFits(cfg, st, now, targets, causes)
    ensures var pushed := PushBounded(cfg, st, entry, now).0;
            var after := LinkNew(env, cfg, pushed, st.nextId, entry.topic, now, targets, causes);
            && Inv(cfg, after)
            && Filter(after.links, Explicit)
               == Filter(st.links, ExplicitAlive(Ids(ProjectedEntries(cfg, st.entries, now))))
                  + Filter(DeclaredEdges(st.nextId, targets, causes, now), ExplicitAlive(Ids(pushed.entries)))
  {
    var pushed := PushBounded(cfg, st, entry, now).0;
    var unbounded := LinkedUnbounded(env, cfg, pushed, st.nextId, entry.topic, now, targets, causes);
    UnboundedLinksFacts(env, cfg, st, entry, now, targets, causes);
    ShedKeepsLinksOk(pushed.entries, unbounded, cfg.maxLinks);
    InsertKeepsInv(cfg, st, entry, now);
    RelinkedInv(cfg, pushed, Shed(unbounded, cfg.maxLinks));
    EvidenceAfterLinking(env, cfg, st, entry, now, targets, causes);
  }

  lemma UnboundedLinksFacts(env: Env, cfg: Config, st: Store, entry: Entry, now: u64, targets: seq<u64>,
                            causes: seq<u64>)
    requires Ready(cfg, st, entry, now, targets, causes) && EvidenceFits(cfg, st, now, targets, causes)
    ensures var pushed := PushBounded(cfg, st, entry, now).0;
            var unbounded := LinkedUnbounded(env, cfg, pushed, st.nextId, entry.topic, now, targets, causes);
            LinksOk(pushed.entries, unbounded) && |Filter(unbounded, Explicit)| <= cfg.maxLinks
  {
    var pushed := PushBounded(cfg, st, entry, now).0;
    assert LinksOk(pushed.entries, pushed.links) by {
      InsertKeepsInv(cfg, st, entry, now);
    }
    InsertedFacts(cfg, st, entry, now);
    LinkingIsSound(env, cfg, st.entries, pushed, entry.(id := st.nextId), now, targets, causes);
    CapacityCheckIsExact(env, cfg, st, entry, now, targets, causes);
  }

  lemma RelinkedInv(cfg: Config, st: Store, links: seq<Link>)
    requires Inv(cfg, st) && LinksOk(st.entries, links) && |links| <= cfg.maxLinks
    ensures Inv(cfg, st.(links := links, log := st.log.(linksHighWater := Max(st.log.linksHighWater, |links|))))
  {
  }

  lemma ShedKeepsLinksOk(entries: seq<Entry>, links: seq<Link>, maxLinks: nat)
    requires LinksOk(entries, links) && |Filter(links, Explicit)| <= maxLinks
    ensures LinksOk(entries, Shed(links, maxLinks)) && |Shed(links, maxLinks)| <= maxLinks
    ensures Filter(Shed(links, maxLinks), Explicit) == Filter(links, Explicit)
  {
    ShedDropsOldestDerived(links, maxLinks);
    ShedIsSelection(links, maxLinks);
  }

  /** Outcome of a durable write, by cases: it is refused and nothing changed; or it ran at the
      last representable instant and emptied the store; or it is stored under the next node id. */
  lemma DurableWriteOutcome(env: Env, cfg: Config, st: Store, req: Request, now: u64)
    requires Inv(cfg, st)
    ensures var (after, r) := RememberDurable(env, cfg, st, req, now);
            var plan := PlanDurable(env, cfg, st, req, now);
            && Inv(cfg, after)
            && (r.Err? ==> (after == st <==> r.error != Disappeared))
            && (r == Err(Disappeared) <==> plan.Ok? && now == U64_MAX && st.nextId < U64_MAX)
            && (r == Err(IdSpaceExhausted) <==> plan.Ok? && st.nextId == U64_MAX)
            && (r.Ok? <==> plan.Ok? && now < U64_MAX && st.nextId < U64_MAX)
            && (r.Ok? ==> after.nextId == st.nextId + 1 && r.value == plan.value.entry.(id := st.nextId)
                          && after.entries == ProjectedEntries(cfg, st.entries, now) + [r.value])
  {
    hide Inv, PlanDurable, RememberDurable, ProjectedEntries;
    var plan := PlanDurable(env, cfg, st, req, now);
    if plan.Err? || st.nextId == U64_MAX {
      RefusedOutcome(env, cfg, st, req, now);
    } else if now == U64_MAX {
      LastInstantWriteChangesTheStore(env, cfg, st, req);
      LastInstantKeepsInv(env, cfg, st, req);
    } else {
      StoredOutcome(env, cfg, st, req, now);
    }
  }

  lemma RefusedOutcome(env: Env, cfg: Config, st: Store, req: Request, now: u64)
    requires PlanDurable(env, cfg, st, req, now).Err? || st.nextId == U64_MAX
    ensures var (after, r) := RememberDurable(env, cfg, st, req, now);
            && after == st && r.Err? && r.error != Disappeared
            && (r.error == IdSpaceExhausted <==> PlanDurable(env, cfg, st, req, now).Ok?)
  {
    ResolveAllErrors(st.entries, Unique(req.supersedes), now, Supersession);
    ResolveAllErrors(st.entries, Unique(req.causedBy), now, Causal);
    hide ResolveAll, EvidenceFits, LinkNew, Unique;
  }

  lemma LastInstantKeepsInv(env: Env, cfg: Config, st: Store, req: Request)
    requires Inv(cfg, st) && st.nextId < U64_MAX && PlanDurable(env, cfg, st, req, U64_MAX).Ok?
    ensures Inv(cfg, RememberDurable(env, cfg, st, req, U64_MAX).0)
  {
    hide Inv, PlanDurable, PushBounded;
    var entry := PlanDurable(env, cfg, st, req, U64_MAX).value.entry;
    InsertAtTheLastInstantEmptiesTheStore(cfg, st, entry);
    EmptiedStoreInv(cfg, st, entry);
  }

  /** Outcome of a working write, by the same cases. It adds no link and drops only those whose entries
      the insertion drops. */
  lemma WorkingWriteOutcome(env: Env, cfg: Config, st: Store, origin: Origin, claim: Text, topic: Option<Text>,
                            now: u64)
    requires Inv(cfg, st)
    ensures var (after, r) := RememberWorking(env, cfg, st, origin, claim, topic, now);
            var built := BuildEntry(env, cfg, origin, WorkingOnly, claim, topic, now, Working);
            && Inv(cfg, after)
            && (r.Err? ==> (after == st <==> r.error != Disappeared))
            && (r == Err(Disappeared) <==> built.Ok? && now == U64_MAX && st.nextId < U64_MAX)
            && (r == Err(Disappeared) ==> after.entries == [] && after.links == [])
            && (r == Err(IdSpaceExhausted) <==> built.Ok? && st.nextId == U64_MAX)
            && (r.Ok? <==> built.Ok? && now < U64_MAX && st.nextId < U64_MAX)
            && (r.Ok? ==> after.nextId == st.nextId + 1 && r.value == built.value.(id := st.nextId)
                          && after.entries == ProjectedEntries(cfg, st.entries, now) + [r.value]
                          && after.links
                              == Prune(Prune(st.links, Ids(KeptEntries(cfg, st.entries, now))), Ids(after.entries)))
  {
    var built := BuildEntry(env, cfg, origin, WorkingOnly, claim, topic, now, Working);
    assert built.Err? ==> built.error != Disappeared && built.error != IdSpaceExhausted;
    if built.Ok? && st.nextId < U64_MAX {
      assert built.value.createdAt == now && built.value.expiresAt == SatAdd(now, cfg.workingTtl);
      assert ValidConfig(cfg) && cfg.workingTtl > 0;
      hide Inv, BuildEntry, PushBounded, ProjectedEntries;
      if now < U64_MAX {
        InsertKeepsInv(cfg, st, built.value, now);
        InsertionKeepsProjection(cfg, st, built.value, now);
      } else {
        InsertAtTheLastInstantEmptiesTheStore(cfg, st, built.value);
        EmptiedStoreInv(cfg, st, built.value);
      }
    }
  }

  lemma StoredOutcome(env: Env, cfg: Config, st: Store, req: Request, now: u64)
    requires Inv(cfg, st) && PlanDurable(env, cfg, st, req, now).Ok? && now < U64_MAX && st.nextId < U64_MAX
    ensures var (after, r) := RememberDurable(env, cfg, st, req, now);
            var entry := PlanDurable(env, cfg, st, req, now).value.entry.(id := st.nextId);
            && Inv(cfg, after)
            && r == Ok(entry)
            && after.nextId == st.nextId + 1
            && after.entries == ProjectedEntries(cfg, st.entries, now) + [entry]
  {
    var plan := PlanDurable(env, cfg, st, req, now).value;
    PlanFacts(env, cfg, st, req, now);
    assert plan.entry.expiresAt > now;
    InsertionKeepsProjection(cfg, st, plan.entry, now);
    LinkedStore(env, cfg, st, plan.entry, now, plan.targets, plan.causes);
  }

  lemma EmptiedStoreInv(cfg: Config, st: Store, entry: Entry)
    requires Inv(cfg, st) && st.nextId < U64_MAX
    ensures Inv(cfg, PushBounded(cfg, st, entry, U64_MAX).0)
  {
    var numbered := st.(nextId := st.nextId + 1);
    var first := Compact(cfg, numbered, U64_MAX);
    assert Inv(cfg, numbered);
    assert Inv(cfg, first) by {
      CompactKeepsInv(cfg, numbered, U64_MAX);
    }
    assert first.entries == [] by {
      CompactAtTheLastInstant(cfg, numbered);
    }
    EmptiedByCompaction(cfg, first, entry.(id := st.nextId));
  }

  lemma EmptiedByCompaction(cfg: Config, first: Store, e: Entry)
    requires Inv(cfg, first) && first.entries == []
    ensures Inv(cfg, Compact(cfg, first.(entries := first.entries + [e]), U64_MAX))
  {
    var appended := first.(entries := first.entries + [e]);
    CompactBounds(cfg, appended, U64_MAX);
    CompactAtTheLastInstant(cfg, appended);
  }

  /** A refused plan never reports one of the two insertion failures. */
  lemma {:induction false} ResolveAllErrors(entries: seq<Entry>, eventIds: seq<Text>, now: u64, relation: Relation)
    ensures var r := ResolveAll(entries, eventIds, now, relation);
            r.Err? ==> r.error.Unresolved? && r.error.relation == relation
  {
    if eventIds != [] {
      ResolveAllErrors(entries, Front(eventIds), now, relation);
    }
  }

  /** Refusal does not always leave the store alone: a write that passes every check at the last
      representable instant is reported as an error after an id was spent and every entry and link
      removed. `DurableWriteOutcome` says this is the only way. */
  lemma LastInstantWriteChangesTheStore(env: Env, cfg: Config, st: Store, req: Request)
    requires Inv(cfg, st) && st.nextId < U64_MAX && PlanDurable(env, cfg, st, req, U64_MAX).Ok?
    ensures var (after, r) := RememberDurable(env, cfg, st, req, U64_MAX);
            r == Err(Disappeared) && after != st
            && after.entries == [] && after.links == [] && after.nextId == st.nextId + 1
  {
    hide PlanDurable;
    InsertAtTheLastInstantEmptiesTheStore(cfg, st, PlanDurable(env, cfg, st, req, U64_MAX).value.entry);
  }

  /** Such writes exist: any nonempty viewer claim without declarations passes the checks of an
      empty store, at the last instant as at any other. */
  lemma FirstClaimPassesTheChecks(env: Env, cfg: Config, req: Request, now: u64)
    requires ValidConfig(cfg) && req.supersedes == [] && req.causedBy == [] && req.topic.None?
    requires req.origin.class_ == PublicChat && env.normalize(req.claim) != []
    ensures PlanDurable(env, cfg, EMPTY, req, now).Ok?
  {
    hide BuildEntry;
    assert EvidenceFits(cfg, EMPTY, now, [], []);
    FirstClaimBuilds(env, cfg, req, now);
  }

  lemma FirstClaimBuilds(env: Env, cfg: Config, req: Request, now: u64)
    requires req.topic.None? && req.origin.class_ == PublicChat && env.normalize(req.claim) != []
    ensures BuildEntry(env, cfg, req.origin, req.decision, req.claim, req.topic, now, Durable).Ok?
  {
  }

  // ---- Stored text ---------------------------------------------------------

  /** A verified fact is stored in full; any other claim as the longest well-formed prefix of its
      normalised text that fits, which is empty exactly when the first character overruns the bound. */
  lemma StoredTextIsFaithful(env: Env, cfg: Config, origin: Origin, decision: GateDecision, claim: Text,
                             topic: Option<Text>, now: u64, retention: Retention)
    requires BuildEntry(env, cfg, origin, decision, claim, topic, now, retention).Ok?
    requires WellFormed(env.normalize(claim))
    ensures var e := BuildEntry(env, cfg, origin, decision, claim, topic, now, retention).value;
            && LongestPrefix(e.claim, env.normalize(claim), cfg.maxClaimBytes)
            && (e.claim == [] <==> cfg.maxClaimBytes < LeadLength(env.normalize(claim)))
            && (e.epistemic == VerifiedFact ==> e.claim == env.normalize(claim))
            && (e.epistemic == VerifiedFact <==>
                  && origin.class_ == System && origin.trust == Trusted && origin.claimText.Some?
                  && env.normalize(origin.claimText.value) == env.normalize(claim))
  {
    TruncatedIsLongestPrefix(env.normalize(claim), cfg.maxClaimBytes);
    EmptyPrefix(Truncated(env.normalize(claim), cfg.maxClaimBytes), env.normalize(claim), cfg.maxClaimBytes);
  }

  /** The remaining fields of an entry: whose it is, when it was recorded and how long it lasts, and the
      class its source and binding give it. The topic is cut like the claim. */
  lemma StoredEntryExactly(env: Env, cfg: Config, origin: Origin, decision: GateDecision, claim: Text,
                           topic: Option<Text>, now: u64, retention: Retention)
    requires BuildEntry(env, cfg, origin, decision, claim, topic, now, retention).Ok?
    requires topic.Some? ==> WellFormed(env.normalize(topic.value))
    ensures var e := BuildEntry(env, cfg, origin, decision, claim, topic, now, retention).value;
            var lasts := if retention == Working then cfg.workingTtl else cfg.durableTtl;
            && e.source.eventId == origin.eventId && e.source.namespace == origin.namespace
            && e.source.class_ == origin.class_ && e.source.trust == origin.trust
            && (e.source.actor.Some? <==> origin.actor.Some?)
            && (origin.actor.Some? ==> e.source.actor.value == env.pseudonym(origin.namespace, origin.actor.value))
            && (e.topic.Some? <==> topic.Some?)
            && (topic.Some? ==> LongestPrefix(e.topic.value, env.normalize(topic.value), cfg.maxTopicBytes))
            && e.createdAt == now && e.expiresAt == Min(now + lasts, U64_MAX)
            && e.retention == retention && e.decision == decision
            && (e.epistemic == ViewerClaim <==> origin.class_ == PublicChat || origin.class_ == Donation)
            && (e.epistemic == PerformerExperience <==> origin.class_ == Speech && origin.trust == Trusted)
            && (e.epistemic == PersonaOpinion <==> origin.class_ == Operator)
  {
    if topic.Some? {
      TruncatedIsLongestPrefix(env.normalize(topic.value), cfg.maxTopicBytes);
    }
    hide Truncated, LongestPrefix, WellFormed;
  }

  lemma EmptyPrefix(r: Text, s: Text, maxBytes: nat)
    requires WellFormed(s) && s != [] && LongestPrefix(r, s, maxBytes)
    ensures r == [] <==> maxBytes < LeadLength(s)
  {
    var n := LeadLength(s);
    if n <= maxBytes {
      LeadOfPrefix(s, n);
      assert s[..n][n..] == [];
      assert WellFormed(s[..n]);
    } else {
      LeadOfPrefix(s, |r|);
      assert s[..|r|] == r;
    }
  }
}
