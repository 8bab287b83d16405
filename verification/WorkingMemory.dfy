/** The retained-memory store as the object the runtime holds: every method changes the fields in
    place and is proved equal to the corresponding function on the store's value. */
module WorkingMemoryStore {
  import opened Seqs
  import opened Utf8
  import opened Words
  import opened MemoryModel
  import opened MemoryInvariants
  import opened MemoryWrites
  import opened MemoryRuns
  import opened MemoryReads
  import opened MemoryReadTheorems

  // ---- Steps the loops take ------------------------------------------------

  lemma {:induction false} UniquePrefixShorter(s: seq<Text>, i: nat)
    requires i <= |s|
    ensures |Unique(s[..i])| <= |Unique(s)|
  {
    if i == |s| {
      assert s[..i] == s;
    } else {
      UniquePrefixShorter(Front(s), i);
      assert Front(s)[..i] == s[..i];
    }
  }

  lemma UniqueSnoc(s: seq<Text>, i: nat)
    requires i < |s|
    ensures Unique(s[..i + 1]) == Unique(s[..i]) + (if s[i] in s[..i] then [] else [s[i]])
  {
    assert Front(s[..i + 1]) == s[..i];
  }

  lemma PushLinksSnoc(links: seq<Link>, new_: seq<Link>, i: nat)
    requires i < |new_|
    ensures PushLinks(links, new_[..i + 1]) == PushLink(PushLinks(links, new_[..i]), new_[i])
  {
    assert Front(new_[..i + 1]) == new_[..i];
  }

  lemma {:induction false} ResolveAllPrefix(entries: seq<Entry>, ids: seq<Text>, now: u64, relation: Relation, i: nat)
    requires i <= |ids| && ResolveAll(entries, ids[..i], now, relation).Err?
    ensures ResolveAll(entries, ids, now, relation) == ResolveAll(entries, ids[..i], now, relation)
  {
    if i == |ids| {
      assert ids[..i] == ids;
    } else {
      assert Front(ids)[..i] == ids[..i];
      ResolveAllPrefix(entries, Front(ids), now, relation, i);
    }
  }

  lemma ResolveAllSnoc(entries: seq<Entry>, ids: seq<Text>, now: u64, relation: Relation, i: nat)
    requires i < |ids|
    ensures var before := ResolveAll(entries, ids[..i], now, relation);
            var last := Resolve(entries, ids[i], now);
            ResolveAll(entries, ids[..i + 1], now, relation)
            == if before.Err? then before
               else if last.Err? then Err(Unresolved(relation, last.error)) else Ok(before.value + [last.value])
  {
    assert Front(ids[..i + 1]) == ids[..i];
  }

  lemma {:induction false} ExpandedFull(st: Store, live: set<u64>, scope: Option<Text>, selected: set<u64>,
                                        ids: seq<u64>, more: seq<u64>, room: nat)
    requires |Expanded(st, live, scope, selected, ids, room)| >= room
    ensures Expanded(st, live, scope, selected, ids + more, room) == Expanded(st, live, scope, selected, ids, room)
  {
    if more == [] {
      assert ids + more == ids;
    } else {
      ExpandedFull(st, live, scope, selected, ids, Front(more), room);
      assert Front(ids + more) == ids + Front(more);
    }
  }

  lemma {:induction false} NeighboursOfPrefix(matched: seq<Linked>, i: nat)
    requires i <= |matched|
    ensures AllNeighbours(matched[..i]) <= AllNeighbours(matched)
  {
    if i == |matched| {
      assert matched[..i] == matched;
    } else {
      NeighboursOfPrefix(Front(matched), i);
      assert Front(matched)[..i] == matched[..i];
    }
  }

  /** Having walked `j` neighbours of match `i`, the walk is a prefix of the whole. */
  lemma NeighboursSnoc(matched: seq<Linked>, i: nat, seen: seq<u64>, j: nat)
    requires i < |matched| && j <= |matched[i].links|
    requires seen == AllNeighbours(matched[..i]) + Neighbours(matched[i])[..j]
    ensures seen <= AllNeighbours(matched)
    ensures j == |matched[i].links| ==> seen == AllNeighbours(matched[..i + 1])
  {
    assert Front(matched[..i + 1]) == matched[..i];
    NeighboursOfPrefix(matched, i + 1);
  }

  lemma TakeTwice<T>(a: seq<T>, b: seq<T>, cap: nat)
    ensures Take(Take(a, cap) + b, cap) == Take(a + b, cap)
  {
  }

  /** Append while there is room under the cap. */
  method AppendUpTo(view: seq<Link>, more: seq<Link>, cap: nat) returns (r: seq<Link>)
    requires |view| <= cap
    ensures r == Take(view + more, cap)
  {
    r := view;
    var i := 0;
    while i < |more| && |r| < cap
      invariant 0 <= i <= |more| && |r| <= cap
      invariant r == view + more[..i]
    {
      r := r + [more[i]];
      i := i + 1;
    }
  }

  /** Keep first occurrences while the budget lasts; refuse at the first one past it. */
  method Dedupe(declared: seq<Text>, budget: nat) returns (r: Option<seq<Text>>)
    ensures r == if |Unique(declared)| <= budget then Some(Unique(declared)) else None
  {
    var left: nat := budget;
    var kept: seq<Text> := [];
    for i := 0 to |declared|
      invariant kept == Unique(declared[..i]) && left + |kept| == budget
      invariant forall x :: x in kept <==> x in declared[..i]
    {
      UniqueSnoc(declared, i);
      if declared[i] !in kept {
        if left == 0 {
          UniquePrefixShorter(declared, i + 1);
          return None;
        }
        kept := kept + [declared[i]];
        left := left - 1;
      }
    }
    assert declared[..|declared|] == declared;
    r := Some(kept);
  }

  /** Resolve targets one by one, stopping at the first refusal. */
  method ResolveTargets(entries: seq<Entry>, ids: seq<Text>, now: u64, relation: Relation)
    returns (r: Result<seq<u64>, WriteError>)
    ensures r == ResolveAll(entries, ids, now, relation)
  {
    var found: seq<u64> := [];
    for i := 0 to |ids|
      invariant ResolveAll(entries, ids[..i], now, relation) == Ok(found)
    {
      ResolveAllSnoc(entries, ids, now, relation, i);
      var target := Resolve(entries, ids[i], now);
      if target.Err? {
        ResolveAllPrefix(entries, ids, now, relation, i + 1);
        return Err(Unresolved(relation, target.error));
      }
      found := found + [target.value];
    }
    assert ids[..|ids|] == ids;
    r := Ok(found);
  }

  class WorkingMemory {
    const cfg: Config
    const env: Env
    var entries: seq<Entry>
    var links: seq<Link>
    var nextId: u64
    var compactions: seq<Compaction>
    var compactionsHighWater: nat
    var compactionsEvicted: u64
    var entriesHighWater: nat
    var linksHighWater: nat

    /** The fields as one value. */
    function State(): Store
      reads this
    {
      Store(entries, links, nextId,
            Log(compactions, compactionsHighWater, compactionsEvicted, entriesHighWater, linksHighWater))
    }

    ghost predicate Valid()
      reads this
    {
      Inv(cfg, State())
    }

    constructor Init(cfg: Config, env: Env)
      ensures this.cfg == cfg && this.env == env && State() == EMPTY
    {
      this.cfg, this.env := cfg, env;
      entries, links, nextId := [], [], 1;
      compactions, compactionsHighWater, compactionsEvicted := [], 0, 0;
      entriesHighWater, linksHighWater := 0, 0;
    }

    /** The checked constructor: a store exists exactly for a valid configuration. */
    static method New(cfg: Config, env: Env) returns (r: Option<WorkingMemory>)
      ensures r.Some? <==> ValidConfig(cfg)
      ensures r.Some? ==> fresh(r.value) && r.value.Valid() && r.value.cfg == cfg && r.value.env == env
                          && r.value.State() == EMPTY
    {
      if !ValidConfig(cfg) {
        return None;
      }
      var m := new WorkingMemory.Init(cfg, env);
      r := Some(m);
    }

    // ---- Compaction and insertion ------------------------------------------

    method PruneLinks()
      modifies this`links
      ensures links == Prune(old(links), Ids(entries))
    {
      var alive := Ids(entries);
      links := Filter(links, BothAlive(alive));
    }

    /** Drop the expired entries, then the oldest ones past the bound. */
    method TrimEntries(now: u64) returns (expired: nat, evicted: nat)
      modifies this`entries
      ensures entries == KeptEntries(cfg, old(entries), now)
      ensures Compaction(now, expired, evicted, |entries|) == CompactionRecord(cfg, old(entries), now)
    {
      var live := Filter(entries, Unexpired(now));
      expired := |entries| - |live|;
      entries := live;
      evicted := 0;
      while |entries| > cfg.maxEntries
        invariant evicted <= |live| && entries == live[evicted..]
        invariant evicted == 0 || |entries| >= cfg.maxEntries
      {
        entries := entries[1..];
        evicted := evicted + 1;
      }
    }

    ghost function LogValue(): Log
      reads this
    {
      State().log
    }

    method NoteCompaction(record: Compaction)
      modifies this`compactions, this`compactionsHighWater, this`compactionsEvicted, this`entriesHighWater
      ensures LogValue() == Note(cfg, old(LogValue()), record)
    {
      entriesHighWater := Max(entriesHighWater, record.remaining);
      if record.expired > 0 || record.evicted > 0 {
        compactions := compactions + [record];
        if |compactions| > cfg.maxCompactionRecords {
          var remove := |compactions| - cfg.maxCompactionRecords;
          compactions := compactions[remove..];
          compactionsEvicted := SatAdd(compactionsEvicted, Min(remove, U64_MAX));
        }
        compactionsHighWater := Max(compactionsHighWater, |compactions|);
      }
    }

    method Compact(now: u64) returns (record: Compaction)
      modifies this
      ensures State() == MemoryModel.Compact(cfg, old(State()), now)
      ensures record == CompactionRecord(cfg, old(entries), now)
    {
      var expired, evicted := TrimEntries(now);
      PruneLinks();
      record := Compaction(now, expired, evicted, |entries|);
      NoteCompaction(record);
    }

    /** Compaction asked for from outside keeps the invariant. */
    method CompactNow(now: u64) returns (record: Compaction)
      requires Valid()
      modifies this
      ensures Valid()
      ensures State() == MemoryModel.Compact(cfg, old(State()), now)
    {
      CompactKeepsInv(cfg, State(), now);
      record := Compact(now);
    }

    method PushBounded(entry: Entry, now: u64) returns (r: Result<Entry, WriteError>)
      modifies this
      ensures State() == MemoryModel.PushBounded(cfg, old(State()), entry, now).0
      ensures r == MemoryModel.PushBounded(cfg, old(State()), entry, now).1
    {
      if nextId == U64_MAX {
        return Err(IdSpaceExhausted);
      }
      var numbered := entry.(id := nextId);
      nextId := nextId + 1;
      var _ := Compact(now);
      ghost var first := State();
      entries := entries + [numbered];
      assert State() == first.(entries := first.entries + [numbered]);
      var _ := Compact(now);
      r := if entries == [] then Err(Disappeared) else Ok(entries[|entries| - 1]);
    }

    // ---- Links -------------------------------------------------------------

    method AddLink(l: Link)
      modifies this`links
      ensures links == PushLink(old(links), l)
    {
      var duplicate := exists x :: x in links && SameEdge(x, l);
      if !duplicate {
        links := links + [l];
      }
    }

    method AddLinks(new_: seq<Link>)
      modifies this`links
      ensures links == PushLinks(old(links), new_)
    {
      for i := 0 to |new_|
        invariant links == PushLinks(old(links), new_[..i])
      {
        PushLinksSnoc(old(links), new_, i);
        AddLink(new_[i]);
      }
      assert new_[..|new_|] == new_;
    }

    /** Shed derived edges only. The explicit ones fit on their own, so the exit without a derived
        edge to shed is never taken and the loop ends within the bound. */
    method EnforceLinkBound()
      requires |Filter(links, Explicit)| <= cfg.maxLinks
      modifies this`links, this`linksHighWater
      ensures links == Shed(old(links), cfg.maxLinks)
      ensures |links| <= cfg.maxLinks
      ensures Filter(links, Explicit) == Filter(old(links), Explicit)
      ensures linksHighWater == Max(old(linksHighWater), |links|)
    {
      ShedDropsOldestDerived(links, cfg.maxLinks);
      while |links| > cfg.maxLinks
        invariant Shed(links, cfg.maxLinks) == Shed(old(links), cfg.maxLinks)
        invariant |Filter(links, Explicit)| <= cfg.maxLinks && linksHighWater == old(linksHighWater)
        decreases |links|
      {
        var derived := FirstDerived(links);
        if derived == |links| {
          FilterAll(links, Explicit);
          assert false;
          break;
        }
        RemovingFirstDerived(links, derived);
        links := RemoveAt(links, derived);
      }
      linksHighWater := Max(linksHighWater, |links|);
    }

    /** Declared edges, in order, while the budget lasts. */
    method AddDeclared(declared: seq<Link>) returns (budget: nat)
      modifies this`links
      ensures links == PushLinks(old(links), Take(declared, cfg.maxLinksPerMemory))
      ensures budget == cfg.maxLinksPerMemory - |Take(declared, cfg.maxLinksPerMemory)|
    {
      budget := cfg.maxLinksPerMemory;
      var i := 0;
      while i < |declared| && budget > 0
        invariant 0 <= i <= |declared| && budget == cfg.maxLinksPerMemory - i
        invariant links == PushLinks(old(links), declared[..i])
      {
        PushLinksSnoc(old(links), declared, i);
        AddLink(declared[i]);
        budget := budget - 1;
        i := i + 1;
      }
      assert declared[..i] == Take(declared, cfg.maxLinksPerMemory);
    }

    /** Declared evidence first, then the temporal spine, within one budget. */
    method LinkNewMemory(newId: u64, topic: Option<Text>, now: u64, targets: seq<u64>, causes: seq<u64>)
      requires |Filter(LinkedUnbounded(env, cfg, State(), newId, topic, now, targets, causes), Explicit)|
               <= cfg.maxLinks
      modifies this`links, this`linksHighWater
      ensures State() == LinkNew(env, cfg, old(State()), newId, topic, now, targets, causes)
    {
      var budget := AddDeclared(DeclaredEdges(newId, targets, causes, now));
      var older := Predecessors(env, entries, newId, topic, now, budget);
      AddLinks(TemporalEdges(older, newId, now));
      PruneLinks();
      assert links == LinkedUnbounded(env, cfg, old(State()), newId, topic, now, targets, causes);
      EnforceLinkBound();
    }

    // ---- Writes ------------------------------------------------------------

    /** Everything is checked before anything is stored. */
    method CheckDurable(req: Request, now: u64) returns (r: Result<Plan, WriteError>)
      ensures r == PlanDurable(env, cfg, State(), req, now)
    {
      var bound := SatMul(cfg.maxLinksPerMemory, 8);
      if |req.supersedes| > bound || |req.causedBy| > bound {
        return Err(TooManyDeclarations);
      }
      var supersedes := Dedupe(req.supersedes, cfg.maxLinksPerMemory);
      if supersedes.None? {
        return Err(LinkBudgetExceeded);
      }
      var causedBy := Dedupe(req.causedBy, cfg.maxLinksPerMemory - |supersedes.value|);
      if causedBy.None? {
        return Err(LinkBudgetExceeded);
      }
      var targets := ResolveTargets(entries, supersedes.value, now, Supersession);
      if targets.Err? {
        return Err(targets.error);
      }
      var causes := ResolveTargets(entries, causedBy.value, now, Causal);
      if causes.Err? {
        return Err(causes.error);
      }
      var survivors := IdSet(ProjectedSurvivors(cfg, entries, now));
      var retained := |Filter(links, ExplicitAlive(survivors))|;
      var added := |Filter(targets.value + causes.value, Member(survivors))|;
      if retained + added > cfg.maxLinks {
        return Err(LinkCapacity);
      }
      var entry := BuildEntry(env, cfg, req.origin, req.decision, req.claim, req.topic, now, Durable);
      r := if entry.Err? then Err(entry.error) else Ok(Plan(entry.value, targets.value, causes.value));
    }

    method RememberDurable(req: Request, now: u64) returns (r: Result<Entry, WriteError>)
      requires Valid()
      modifies this
      ensures Valid()
      ensures (State(), r) == MemoryModel.RememberDurable(env, cfg, old(State()), req, now)
      ensures r.Err? && r.error != Disappeared ==> State() == old(State())
    {
      ghost var st := State();
      DurableWriteOutcome(env, cfg, st, req, now);
      var plan := CheckDurable(req, now);
      if plan.Err? {
        return Err(plan.error);
      }
      r := PushBounded(plan.value.entry, now);
      if r.Err? {
        return;
      }
      assert MemoryModel.RememberDurable(env, cfg, st, req, now).1 == r;
      PlanFacts(env, cfg, st, req, now);
      InsertionKeepsProjection(cfg, st, plan.value.entry, now);
      UnboundedLinksFacts(env, cfg, st, plan.value.entry, now, plan.value.targets, plan.value.causes);
      LinkNewMemory(r.value.id, plan.value.entry.topic, now, plan.value.targets, plan.value.causes);
    }

    method RememberWorking(origin: Origin, claim: Text, topic: Option<Text>, now: u64)
      returns (r: Result<Entry, WriteError>)
      requires Valid()
      modifies this
      ensures Valid()
      ensures (State(), r) == MemoryModel.RememberWorking(env, cfg, old(State()), origin, claim, topic, now)
    {
      WorkingWriteKeepsInv(env, cfg, State(), origin, claim, topic, now);
      var entry := BuildEntry(env, cfg, origin, WorkingOnly, claim, topic, now, Working);
      if entry.Err? {
        return Err(entry.error);
      }
      r := PushBounded(entry.value, now);
    }

    // ---- Reads -------------------------------------------------------------

    /** Kind by kind, until the cap is reached. */
    method LinkView(id: u64, live: set<u64>, cap: nat, now: u64) returns (stale: bool, view: seq<Link>)
      ensures stale == Stale(links, id, live, now)
      ensures view == ViewLinks(links, id, live, cap, now)
    {
      var incident := Filter(links, Incident(id, live, now));
      FilterMembers(links, Incident(id, live, now));
      stale := exists l :: l in incident && l.kind == Supersedes && l.to == id && l.from in live;
      var supersedes := SortBy(Filter(incident, OfKind(Supersedes)), NewerLinkFirst);
      var causes := SortBy(Filter(incident, OfKind(CausedBy)), NewerLinkFirst);
      var temporal := Filter(incident, OfKind(TemporalBefore));
      view := AppendUpTo([], supersedes, cap);
      view := AppendUpTo(view, causes, cap);
      view := AppendUpTo(view, temporal, cap);
      assert [] + supersedes == supersedes;
      TakeTwice(supersedes, causes, cap);
      TakeTwice(supersedes + causes, temporal, cap);
    }

    method ViewAll(nodes: seq<Entry>, live: set<u64>, cap: nat, now: u64) returns (r: seq<Linked>)
      ensures r == Map(nodes, Viewed(State(), live, cap, now))
    {
      r := [];
      for i := 0 to |nodes|
        invariant r == Map(nodes[..i], Viewed(State(), live, cap, now))
      {
        var stale, view := LinkView(nodes[i].id, live, cap, now);
        r := r + [Linked(nodes[i], stale, view)];
      }
      assert nodes[..|nodes|] == nodes;
    }

    /** Add one neighbour if it is live, in scope and not selected yet. */
    method Visit(other: u64, live: set<u64>, scope: Option<Text>, ghost direct: set<u64>, ghost seen: seq<u64>,
                 room: nat, selected: set<u64>, expanded: seq<Entry>)
      returns (selected': set<u64>, expanded': seq<Entry>)
      requires |expanded| < room && selected == direct + Ids(expanded)
      requires expanded == Expanded(State(), live, scope, direct, seen, room)
      ensures selected' == direct + Ids(expanded')
      ensures expanded' == Expanded(State(), live, scope, direct, seen + [other], room)
    {
      assert Front(seen + [other]) == seen;
      selected', expanded' := selected, expanded;
      if other in live {
        var node := Find(entries, other);
        if node.Some? && InScope(scope, node.value) && other !in selected {
          IdsOfAppend(expanded, node.value);
          selected' := selected + {other};
          expanded' := expanded + [node.value];
        }
      }
    }

    /** Walk one match's view while there is room; `walked` of its links are looked at. */
    method HopFrom(m: Linked, live: set<u64>, scope: Option<Text>, ghost direct: set<u64>, ghost seen: seq<u64>,
                   room: nat, selected: set<u64>, expanded: seq<Entry>)
      returns (selected': set<u64>, expanded': seq<Entry>, walked: nat)
      requires |expanded| < room && selected == direct + Ids(expanded)
      requires expanded == Expanded(State(), live, scope, direct, seen, room)
      ensures walked <= |m.links| && selected' == direct + Ids(expanded')
      ensures expanded' == Expanded(State(), live, scope, direct, seen + Neighbours(m)[..walked], room)
      ensures |expanded'| < room ==> walked == |m.links|
    {
      hide Expanded, OtherEnd;
      selected', expanded', walked := selected, expanded, 0;
      assert seen + Neighbours(m)[..0] == seen;
      while walked < |m.links| && |expanded'| < room
        invariant walked <= |m.links| && selected' == direct + Ids(expanded')
        invariant expanded' == Expanded(State(), live, scope, direct, seen + Neighbours(m)[..walked], room)
      {
        var other := OtherEnd(m.entry.id, m.links[walked]);
        ghost var before := seen + Neighbours(m)[..walked];
        selected', expanded' := Visit(other, live, scope, direct, before, room, selected', expanded');
        assert before + [other] == seen + Neighbours(m)[..walked + 1];
        walked := walked + 1;
      }
    }

    /** Walk the matches' views in rank order, stopping once the room is used up. */
    method Hop(matched: seq<Linked>, live: set<u64>, scope: Option<Text>, direct: set<u64>, room: nat)
      returns (expanded: seq<Entry>)
      ensures expanded == Expanded(State(), live, scope, direct, AllNeighbours(matched), room)
    {
      expanded := [];
      var selected := direct;
      ghost var seen: seq<u64> := [];
      var i := 0;
      assert Expanded(State(), live, scope, direct, seen, room) == [] && AllNeighbours(matched[..i]) == seen;
      hide Expanded, AllNeighbours, Neighbours;
      while i < |matched| && |expanded| < room
        invariant 0 <= i <= |matched| && selected == direct + Ids(expanded)
        invariant expanded == Expanded(State(), live, scope, direct, seen, room)
        invariant seen <= AllNeighbours(matched)
        invariant |expanded| < room ==> seen == AllNeighbours(matched[..i])
      {
        var walked: nat;
        selected, expanded, walked := HopFrom(matched[i], live, scope, direct, seen, room, selected, expanded);
        seen := seen + Neighbours(matched[i])[..walked];
        NeighboursSnoc(matched, i, seen, walked);
        i := i + 1;
      }
      if |expanded| < room {
        assert matched[..|matched|] == matched;
      } else {
        var all := AllNeighbours(matched);
        assert all == seen + all[|seen|..];
        ExpandedFull(State(), live, scope, direct, seen, all[|seen|..], room);
      }
    }

    /** Direct matches, then what one shown link away adds, within the limit. */
    method RelevantLinked(q: Query, now: u64) returns (r: seq<Linked>)
      ensures r == MemoryReads.RelevantLinked(env, cfg, State(), q, now)
    {
      if Unevaluable(q) {
        return [];
      }
      var live := LiveIds(State(), now);
      var direct := DirectMatches(env, State(), q, now);
      var matched := ViewAll(direct, live, cfg.maxLinksPerMemory, now);
      var expanded := Hop(matched, live, Scope(env, q), Ids(direct), SatSub(q.limit, |direct|));
      var hop := ViewAll(expanded, live, cfg.maxLinksPerMemory, now);
      r := matched + hop;
    }

    method ContextFor(namespace: Text, actor: Option<Text>, topic: Option<Text>, limit: nat, now: u64)
      returns (r: seq<Entry>)
      ensures r == MemoryReads.ContextFor(env, State(), namespace, actor, topic, limit, now)
    {
      if limit == 0 {
        return [];
      }
      var live := LiveIds(State(), now);
      var correctionOf: map<u64, u64> := map[];
      for i := 0 to |links|
        invariant correctionOf == CorrectionOf(links[..i], live, now)
      {
        assert Front(links[..i + 1]) == links[..i];
        var l := links[i];
        if l.kind == Supersedes && l.createdAt <= now && l.from in live && l.to !in correctionOf {
          correctionOf := correctionOf[l.to := l.from];
        }
      }
      assert links[..|links|] == links;
      var visible := Filter(entries, Live(now));
      var promoted: set<u64> := {};
      for i := 0 to |visible|
        invariant promoted == Promoted(env, visible[..i], topic, correctionOf)
      {
        assert visible[..i + 1] == visible[..i] + [visible[i]];
        if TopicMatch(env, topic, visible[i]) && visible[i].id in correctionOf {
          promoted := promoted + {correctionOf[visible[i].id]};
        }
      }
      assert visible[..|visible|] == visible;
      var ranked := SortBy(Filter(visible, Deliverable(Speaker(env, namespace, actor), correctionOf)),
                           ContextBefore(env, topic, promoted));
      r := Take(ranked, limit);
    }
  }
}
