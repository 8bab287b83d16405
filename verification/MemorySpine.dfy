/** The temporal spine: which earlier memories a durable write is linked after. */
module MemorySpine {
  import opened Seqs
  import opened Utf8
  import opened Words
  import opened MemoryModel
  import opened MemoryInvariants
  import opened MemoryWrites

  /** `x` may precede `e`: durable, another memory, on the same topic once normalised, not recorded later. */
  predicate Precedes(env: Env, x: Entry, e: Entry) {
    && x.id != e.id && x.retention == Durable && x.createdAt <= e.createdAt
    && x.topic.Some? && e.topic.Some? && env.normalize(x.topic.value) == env.normalize(e.topic.value)
  }

  predicate LaterRecord(a: Entry, b: Entry) {
    if a.createdAt == b.createdAt then a.id >= b.id else a.createdAt > b.createdAt
  }

  /** A temporal link at node `id`. */
  function AtNode(id: u64): Link -> bool { (l: Link) => l.kind == TemporalBefore && (l.from == id || l.to == id) }

  function Edge(x: Entry, e: Entry): Link { Link(x.id, e.id, TemporalBefore, e.createdAt) }

  /** The temporal links at `e` are exactly what a budget allows: they come in from the latest memories that
      precede it, from all of them while the budget lasts. */
  ghost predicate SpineWithin(env: Env, entries: seq<Entry>, links: seq<Link>, e: Entry, budget: nat) {
    && (forall l :: l in links && AtNode(e.id)(l) ==>
          exists x :: x in entries && Precedes(env, x, e) && l == Edge(x, e))
    && |Filter(links, AtNode(e.id))| <= budget
    && (|Filter(links, AtNode(e.id))| < budget ==>
          forall x :: x in entries && Precedes(env, x, e) ==> Edge(x, e) in links)
    && (forall x, y ::
          && x in entries && Precedes(env, x, e) && Edge(x, e) in links
          && y in entries && Precedes(env, y, e) && Edge(y, e) !in links
          ==> LaterRecord(x, y))
  }

  lemma NewerFirstIsOrder()
    ensures TotalPreorder(NewerFirst)
  {
  }

  /** The predecessors chosen, in the write's own terms. */
  lemma PredecessorsExactly(env: Env, entries: seq<Entry>, e: Entry, budget: nat)
    ensures var older := Predecessors(env, entries, e.id, e.topic, e.createdAt, budget);
            && |older| <= budget
            && (forall x :: x in older ==> x in entries && Precedes(env, x, e))
            && (|older| < budget ==> forall x :: x in entries && Precedes(env, x, e) ==> x in older)
            && (forall x, y :: x in older && y in entries && Precedes(env, y, e) && y !in older ==> LaterRecord(x, y))
  {
    if e.topic.Some? {
      var p := SameTopicBefore(env, e.id, e.topic.value, e.createdAt);
      NewerFirstIsOrder();
      TopOfSelection(entries, p, NewerFirst, budget);
      assert forall x :: p(x) <==> Precedes(env, x, e);
      assert forall x, y :: NewerFirst(x, y) <==> LaterRecord(x, y);
      hide SortBy, Filter, Precedes, LaterRecord;
    }
  }

  lemma EdgesOf(older: seq<Entry>, e: Entry)
    ensures var t := TemporalEdges(older, e.id, e.createdAt);
            && |t| == |older|
            && (forall l :: l in t <==> exists x :: x in older && l == Edge(x, e))
            && (forall l :: l in t ==> AtNode(e.id)(l))
  {
    var t := TemporalEdges(older, e.id, e.createdAt);
    forall l | l in t ensures exists x :: x in older && l == Edge(x, e) {
      var k :| 0 <= k < |t| && t[k] == l;
      assert older[k] in older && l == Edge(older[k], e);
    }
    forall x | x in older ensures Edge(x, e) in t {
      var k :| 0 <= k < |older| && older[k] == x;
      assert t[k] == Edge(x, e);
    }
  }

  /** Among links that otherwise leave `e` alone, the chosen edges make exactly such a spine. */
  lemma ChosenEdgesAreTheSpine(env: Env, entries: seq<Entry>, old_: seq<Link>, declared: seq<Link>, e: Entry,
                               budget: nat)
    requires Increasing(entries)
    requires forall l :: l in old_ ==> l.from != e.id && l.to != e.id
    requires forall l :: l in declared ==> l.kind != TemporalBefore
    ensures var older := Predecessors(env, entries, e.id, e.topic, e.createdAt, budget);
            SpineWithin(env, entries, old_ + (declared + TemporalEdges(older, e.id, e.createdAt)), e, budget)
  {
    var older := Predecessors(env, entries, e.id, e.topic, e.createdAt, budget);
    var t := TemporalEdges(older, e.id, e.createdAt);
    var links := old_ + (declared + t);
    PredecessorsExactly(env, entries, e, budget);
    EdgesOf(older, e);
    OnlyChosenAtNode(old_, declared, t, e.id);
    forall x | x in entries ensures Edge(x, e) in links <==> x in older {
      EdgeChosen(entries, older, old_, declared, t, x, e);
    }
    hide Filter, Predecessors, TemporalEdges, Precedes, LaterRecord;
    forall l | l in links && AtNode(e.id)(l) ensures l in t {
      assert l !in old_ && l !in declared;
    }
  }

  lemma OnlyChosenAtNode(old_: seq<Link>, declared: seq<Link>, t: seq<Link>, id: u64)
    requires forall l :: l in old_ ==> l.from != id && l.to != id
    requires forall l :: l in declared ==> l.kind != TemporalBefore
    requires forall l :: l in t ==> AtNode(id)(l)
    ensures Filter(old_ + (declared + t), AtNode(id)) == t
  {
    var at := AtNode(id);
    FilterNone(old_, at);
    FilterNone(declared, at);
    FilterAll(t, at);
    hide Filter, AtNode;
    FilterConcat(old_, declared + t, at);
    FilterConcat(declared, t, at);
    assert [] + ([] + t) == t;
  }

  lemma EdgeChosen(entries: seq<Entry>, older: seq<Entry>, old_: seq<Link>, declared: seq<Link>, t: seq<Link>,
                   x: Entry, e: Entry)
    requires Increasing(entries) && x in entries && forall y :: y in older ==> y in entries
    requires forall l :: l in old_ ==> l.from != e.id && l.to != e.id
    requires forall l :: l in declared ==> l.kind != TemporalBefore
    requires forall l :: l in t <==> exists y :: y in older && l == Edge(y, e)
    ensures Edge(x, e) in old_ + (declared + t) <==> x in older
  {
    if Edge(x, e) in t {
      var y :| y in older && Edge(x, e) == Edge(y, e);
      SameIdSameEntry(entries, x, y);
    }
  }

  /** Pruning to the entries drops none of the spine. */
  lemma PruneKeepsSpine(env: Env, entries: seq<Entry>, links: seq<Link>, e: Entry, budget: nat)
    requires SpineWithin(env, entries, links, e, budget) && e in entries
    ensures SpineWithin(env, entries, Prune(links, Ids(entries)), e, budget)
  {
    var at, alive := AtNode(e.id), BothAlive(Ids(entries));
    FilterMembers(links, alive);
    forall l | l in links && at(l) ensures alive(l) {
      var x :| x in entries && Precedes(env, x, e) && l == Edge(x, e);
    }
    FilterFuse(links, alive, at, at);
    forall x | x in entries ensures Edge(x, e) in links <==> Edge(x, e) in Prune(links, Ids(entries)) {
      assert alive(Edge(x, e));
    }
    hide Filter, Precedes, LaterRecord;
  }

  /** Before the store bound is applied, the links of a write are this spine within what the declared links
      left of the write's budget. */
  lemma SpineBeforeShedding(env: Env, cfg: Config, st: Store, entry: Entry, now: u64, targets: seq<u64>,
                            causes: seq<u64>)
    requires Ready(cfg, st, entry, now, targets, causes)
    ensures var pushed := PushBounded(cfg, st, entry, now).0;
            SpineWithin(env, pushed.entries,
                        LinkedUnbounded(env, cfg, pushed, st.nextId, entry.topic, now, targets, causes),
                        entry.(id := st.nextId), cfg.maxLinksPerMemory - |targets| - |causes|)
  {
    PushedForLinking(cfg, st, entry, now, targets, causes);
    hide Ready, PushBounded, LinkedUnbounded, SpineWithin, Increasing, NoDuplicateEdges, DistinctIds;
    LinkedSpine(env, cfg, PushBounded(cfg, st, entry, now).0, entry.(id := st.nextId), targets, causes);
  }

  lemma LinkedSpine(env: Env, cfg: Config, st: Store, e: Entry, targets: seq<u64>, causes: seq<u64>)
    requires Increasing(st.entries) && NoDuplicateEdges(st.links) && e in st.entries
    requires forall l :: l in st.links ==> l.from != e.id && l.to != e.id
    requires DistinctIds(targets) && DistinctIds(causes) && |targets| + |causes| <= cfg.maxLinksPerMemory
    ensures SpineWithin(env, st.entries, LinkedUnbounded(env, cfg, st, e.id, e.topic, e.createdAt, targets, causes), e,
                        cfg.maxLinksPerMemory - |targets| - |causes|)
  {
    var budget: nat := cfg.maxLinksPerMemory - |targets| - |causes|;
    var declared := DeclaredEdges(e.id, targets, causes, e.createdAt);
    var older := Predecessors(env, st.entries, e.id, e.topic, e.createdAt, budget);
    var added := NewEdges(env, cfg, st, e.id, e.topic, e.createdAt, targets, causes);
    assert added == declared + TemporalEdges(older, e.id, e.createdAt);
    LinkingAppendsNewEdges(env, cfg, st, e.id, e.topic, e.createdAt, targets, causes);
    DeclaredEdgesFacts(e.id, targets, causes, e.createdAt);
    hide NewEdges, LinkedUnbounded, SpineWithin, Predecessors, DeclaredEdges, TemporalEdges, NoDuplicateEdges,
        Increasing;
    ChosenEdgesAreTheSpine(env, st.entries, st.links, declared, e, budget);
    PruneKeepsSpine(env, st.entries, st.links + added, e, budget);
  }

  /** The store an insertion hands on to linking. */
  lemma PushedForLinking(cfg: Config, st: Store, entry: Entry, now: u64, targets: seq<u64>, causes: seq<u64>)
    requires Ready(cfg, st, entry, now, targets, causes)
    ensures var pushed := PushBounded(cfg, st, entry, now).0;
            && Increasing(pushed.entries) && NoDuplicateEdges(pushed.links)
            && entry.(id := st.nextId) in pushed.entries
            && (forall l :: l in pushed.links ==> l.from != st.nextId && l.to != st.nextId)
    ensures DistinctIds(targets) && DistinctIds(causes) && |targets| + |causes| <= cfg.maxLinksPerMemory
    ensures entry.createdAt == now
  {
    InsertedFacts(cfg, st, entry, now);
    InsertKeepsInv(cfg, st, entry, now);
    InsertionKeepsProjection(cfg, st, entry, now);
    hide PushBounded;
  }

  // ---- After the store bound -----------------------------------------------

  /** Room in the store, or an older derived link still there: nothing of the write's own spine was shed. */
  ghost predicate Unsqueezed(cfg: Config, links: seq<Link>, id: u64) {
    |links| < cfg.maxLinks || exists l :: l in links && l.kind == TemporalBefore && l.from != id && l.to != id
  }

  /** Shedding takes the oldest first, so the write's own links go last. */
  lemma ShedTakesOldFirst(cfg: Config, old_: seq<Link>, new_: seq<Link>, id: u64)
    requires |Filter(old_ + new_, Explicit)| <= cfg.maxLinks
    requires forall l :: l in old_ ==> l.from != id && l.to != id
    requires forall l :: l in new_ ==> l.from == id || l.to == id
    requires Unsqueezed(cfg, Shed(old_ + new_, cfg.maxLinks), id)
    ensures Filter(Shed(old_ + new_, cfg.maxLinks), AtNode(id)) == Filter(old_ + new_, AtNode(id))
  {
    var links, at := old_ + new_, AtNode(id);
    var after, d := Shed(links, cfg.maxLinks), Filter(links, Derived);
    var dOld, dNew := Filter(old_, Derived), Filter(new_, Derived);
    var cut := Min(|d|, SatSub(|links|, cfg.maxLinks));
    ShedDropsOldestDerived(links, cfg.maxLinks);
    FilterConcat(old_, new_, Derived);
    FilterMembers(old_, Derived);
    FilterMembers(new_, Derived);
    FilterFuse(after, Derived, at, at);
    FilterFuse(links, Derived, at, at);
    assert cut <= |dOld| by {
      if |after| >= cfg.maxLinks {
        OldOneLeft(cfg, after, dOld, dNew, cut, id);
      }
    }
    hide Shed, Filter, Unsqueezed;
    TailKeepsNew(dOld, dNew, cut, at);
  }

  lemma OldOneLeft(cfg: Config, after: seq<Link>, dOld: seq<Link>, dNew: seq<Link>, cut: nat, id: u64)
    requires Unsqueezed(cfg, after, id) && |after| >= cfg.maxLinks && cut <= |dOld + dNew|
    requires Filter(after, Derived) == (dOld + dNew)[cut..]
    requires forall l :: l in dNew ==> l.from == id || l.to == id
    ensures cut <= |dOld|
  {
    var l :| l in after && l.kind == TemporalBefore && l.from != id && l.to != id;
    FilterMembers(after, Derived);
    var tail := (dOld + dNew)[cut..];
    assert l in tail;
    var k :| 0 <= k < |tail| && tail[k] == l;
    assert l !in dNew;
    InHead(dOld, dNew, cut + k, l);
  }

  lemma InHead(a: seq<Link>, b: seq<Link>, m: nat, l: Link)
    requires m < |a + b| && (a + b)[m] == l && l !in b
    ensures m < |a|
  {
    assert (a + b)[|a|..] == b;
  }

  lemma TailKeepsNew(a: seq<Link>, b: seq<Link>, cut: nat, p: Link -> bool)
    requires cut <= |a| && forall l :: l in a ==> !p(l)
    ensures Filter((a + b)[cut..], p) == Filter(a + b, p)
  {
    assert (a + b)[cut..] == a[cut..] + b;
    FilterNone(a, p);
    FilterNone(a[cut..], p);
    FilterConcat(a[cut..], b, p);
    FilterConcat(a, b, p);
  }

  /** Fewer links at the node: still only from memories that precede it, within the budget. */
  ghost predicate SpineOnly(env: Env, entries: seq<Entry>, links: seq<Link>, e: Entry, budget: nat) {
    && (forall l :: l in links && AtNode(e.id)(l) ==>
          exists x :: x in entries && Precedes(env, x, e) && l == Edge(x, e))
    && |Filter(links, AtNode(e.id))| <= budget
  }

  /** The temporal links a write for `req` left at its entry `e`. They come in from surviving durable
      memories on the entry's topic, recorded no later than it, and number at most what the declared links
      left of the write's budget; a write without a topic adds none. Unless the store bound reached the
      write's own links, they come from the latest such memories, and from all while the budget lasts. */
  ghost predicate WriteSpine(env: Env, cfg: Config, req: Request, after: Store, e: Entry) {
    var budget := cfg.maxLinksPerMemory - |Unique(req.supersedes)| - |Unique(req.causedBy)|;
    && budget >= 0 && e in after.entries
    && SpineOnly(env, after.entries, after.links, e, budget)
    && (req.topic.None? ==> forall l :: l in after.links ==> !AtNode(e.id)(l))
    && (Unsqueezed(cfg, after.links, e.id) ==> SpineWithin(env, after.entries, after.links, e, budget))
  }

  /** Every accepted durable write leaves exactly such links. */
  lemma DurableWriteSpine(env: Env, cfg: Config, st: Store, req: Request, now: u64)
    requires Inv(cfg, st) && RememberDurable(env, cfg, st, req, now).1.Ok?
    ensures WriteSpine(env, cfg, req, RememberDurable(env, cfg, st, req, now).0,
                       RememberDurable(env, cfg, st, req, now).1.value)
  {
    StoredStore(env, cfg, st, req, now);
    TopicOfPlan(env, cfg, st, req, now);
    hide RememberDurable, PlanDurable, PushBounded, LinkNew, WriteSpine, Ready, EvidenceFits, Inv;
    var plan := PlanDurable(env, cfg, st, req, now).value;
    StoredSpine(env, cfg, st, plan.entry, now, plan.targets, plan.causes);
    SpineOfPlan(env, cfg, req, RememberDurable(env, cfg, st, req, now).0, plan.entry.(id := st.nextId),
                cfg.maxLinksPerMemory - |plan.targets| - |plan.causes|);
  }

  lemma SpineOfPlan(env: Env, cfg: Config, req: Request, after: Store, e: Entry, budget: nat)
    requires budget == cfg.maxLinksPerMemory - |Unique(req.supersedes)| - |Unique(req.causedBy)|
    requires e in after.entries && (req.topic.None? ==> e.topic.None?)
    requires SpineOnly(env, after.entries, after.links, e, budget)
    requires Unsqueezed(cfg, after.links, e.id) ==> SpineWithin(env, after.entries, after.links, e, budget)
    ensures WriteSpine(env, cfg, req, after, e)
  {
    if req.topic.None? {
      NoTopicNoSpine(env, after, e, budget);
    }
    hide SpineOnly, SpineWithin, Unsqueezed, AtNode;
  }

  lemma NoTopicNoSpine(env: Env, after: Store, e: Entry, budget: nat)
    requires e.topic.None? && SpineOnly(env, after.entries, after.links, e, budget)
    ensures forall l :: l in after.links ==> !AtNode(e.id)(l)
  {
    assert forall x :: !Precedes(env, x, e);
  }

  lemma StoredStore(env: Env, cfg: Config, st: Store, req: Request, now: u64)
    requires Inv(cfg, st) && RememberDurable(env, cfg, st, req, now).1.Ok?
    ensures PlanDurable(env, cfg, st, req, now).Ok?
    ensures var plan := PlanDurable(env, cfg, st, req, now).value;
            var pushed := PushBounded(cfg, st, plan.entry, now).0;
            var (after, r) := RememberDurable(env, cfg, st, req, now);
            var e := plan.entry.(id := st.nextId);
            && Ready(cfg, st, plan.entry, now, plan.targets, plan.causes)
            && EvidenceFits(cfg, st, now, plan.targets, plan.causes)
            && r.value == e && e in after.entries && e.createdAt == now && after.entries == pushed.entries
            && after.links
                == LinkNew(env, cfg, pushed, st.nextId, plan.entry.topic, now, plan.targets, plan.causes).links
  {
    var plan := PlanDurable(env, cfg, st, req, now).value;
    DurableWriteOutcome(env, cfg, st, req, now);
    PlanFacts(env, cfg, st, req, now);
    assert ValidConfig(cfg) && plan.entry.expiresAt > now;
    InsertionKeepsProjection(cfg, st, plan.entry, now);
    hide PlanDurable, PushBounded, Inv, EvidenceFits, GoodTargets, NamesTargets, ProjectedEntries, Shed,
        LinkedUnbounded;
  }

  lemma TopicOfPlan(env: Env, cfg: Config, st: Store, req: Request, now: u64)
    requires PlanDurable(env, cfg, st, req, now).Ok?
    ensures var plan := PlanDurable(env, cfg, st, req, now).value;
            && (req.topic.None? <==> plan.entry.topic.None?)
            && |plan.targets| + |plan.causes| <= cfg.maxLinksPerMemory
            && |plan.targets| == |Unique(req.supersedes)| && |plan.causes| == |Unique(req.causedBy)|
  {
    hide ResolveAll, Unique, EvidenceFits, Truncated, ClassOf;
  }

  lemma StoredSpine(env: Env, cfg: Config, st: Store, entry: Entry, now: u64, targets: seq<u64>, causes: seq<u64>)
    requires Ready(cfg, st, entry, now, targets, causes) && EvidenceFits(cfg, st, now, targets, causes)
    ensures var pushed := PushBounded(cfg, st, entry, now).0;
            var links := LinkNew(env, cfg, pushed, st.nextId, entry.topic, now, targets, causes).links;
            var e, budget := entry.(id := st.nextId), cfg.maxLinksPerMemory - |targets| - |causes|;
            && SpineOnly(env, pushed.entries, links, e, budget)
            && (Unsqueezed(cfg, links, e.id) ==> SpineWithin(env, pushed.entries, links, e, budget))
  {
    var pushed := PushBounded(cfg, st, entry, now).0;
    var e, budget := entry.(id := st.nextId), cfg.maxLinksPerMemory - |targets| - |causes|;
    var unbounded := LinkedUnbounded(env, cfg, pushed, st.nextId, entry.topic, now, targets, causes);
    SpineBeforeShedding(env, cfg, st, entry, now, targets, causes);
    UnboundedLinksFacts(env, cfg, st, entry, now, targets, causes);
    var old_, new_ := SplitAtWrite(env, cfg, st, entry, now, targets, causes);
    hide Ready, PushBounded, LinkedUnbounded, SpineWithin, Unsqueezed, Precedes;
    if Unsqueezed(cfg, Shed(unbounded, cfg.maxLinks), e.id) {
      ShedTakesOldFirst(cfg, old_, new_, e.id);
    }
    ShedKeepsSpine(env, cfg, pushed.entries, unbounded, e, budget);
  }

  /** The links before the bound: those of earlier writes, then those of this one. */
  lemma SplitAtWrite(env: Env, cfg: Config, st: Store, entry: Entry, now: u64, targets: seq<u64>, causes: seq<u64>)
    returns (old_: seq<Link>, new_: seq<Link>)
    requires Ready(cfg, st, entry, now, targets, causes)
    ensures LinkedUnbounded(env, cfg, PushBounded(cfg, st, entry, now).0, st.nextId, entry.topic, now, targets, causes)
            == old_ + new_
    ensures forall l :: l in old_ ==> l.from != st.nextId && l.to != st.nextId
    ensures forall l :: l in new_ ==> l.from == st.nextId || l.to == st.nextId
  {
    var pushed := PushBounded(cfg, st, entry, now).0;
    InsertedFacts(cfg, st, entry, now);
    InsertKeepsInv(cfg, st, entry, now);
    LinkingAppendsNewEdges(env, cfg, pushed, st.nextId, entry.topic, now, targets, causes);
    var added := NewEdges(env, cfg, pushed, st.nextId, entry.topic, now, targets, causes);
    var alive := BothAlive(Ids(pushed.entries));
    DeclaredEdgesFacts(st.nextId, targets, causes, now);
    var budget := cfg.maxLinksPerMemory - |targets| - |causes|;
    EdgesOf(Predecessors(env, pushed.entries, st.nextId, entry.topic, now, budget), entry.(id := st.nextId));
    old_, new_ := Filter(pushed.links, alive), Filter(added, alive);
    FilterMembers(pushed.links, alive);
    FilterMembers(added, alive);
    hide Inv, PushBounded, Filter, LinkedUnbounded, Predecessors, DeclaredEdges, TemporalEdges;
    FilterConcat(pushed.links, added, alive);
  }

  lemma ShedKeepsSpine(env: Env, cfg: Config, entries: seq<Entry>, unbounded: seq<Link>, e: Entry, budget: nat)
    requires SpineWithin(env, entries, unbounded, e, budget) && NoDuplicateEdges(unbounded)
    requires Unsqueezed(cfg, Shed(unbounded, cfg.maxLinks), e.id) ==>
               Filter(Shed(unbounded, cfg.maxLinks), AtNode(e.id)) == Filter(unbounded, AtNode(e.id))
    ensures var links := Shed(unbounded, cfg.maxLinks);
            && SpineOnly(env, entries, links, e, budget)
            && (Unsqueezed(cfg, links, e.id) ==> SpineWithin(env, entries, links, e, budget))
  {
    var links, at := Shed(unbounded, cfg.maxLinks), AtNode(e.id);
    ShedIsSelection(unbounded, cfg.maxLinks);
    ShedCountsAt(unbounded, cfg.maxLinks, at);
    FilterMembers(links, at);
    FilterMembers(unbounded, at);
    hide Shed, Filter, Unsqueezed, Precedes, LaterRecord;
    if Unsqueezed(cfg, links, e.id) {
      forall x ensures Edge(x, e) in links <==> Edge(x, e) in unbounded {
        assert at(Edge(x, e));
      }
    }
  }

  lemma {:induction false} ShedCountsAt(links: seq<Link>, maxLinks: nat, p: Link -> bool)
    ensures |Filter(Shed(links, maxLinks), p)| <= |Filter(links, p)|
    decreases |links|
  {
    if |links| > maxLinks && FirstDerived(links) < |links| {
      var i := FirstDerived(links);
      ShedCountsAt(RemoveAt(links, i), maxLinks, p);
      assert links == links[..i] + ([links[i]] + links[i + 1..]);
      FilterSplit(links, i, p);
      FilterConcat(links[..i], links[i + 1..], p);
    }
  }
}
