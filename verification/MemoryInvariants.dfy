/** What every store operation keeps, and why a durable write's refusal is exact. */
module MemoryInvariants {
  import opened Seqs
  import opened Utf8
  import opened Words
  import opened MemoryModel

  // ---- The invariant -------------------------------------------------------

  /** Entries stand in the order their node ids were assigned. */
  ghost predicate Increasing(entries: seq<Entry>) {
    forall i, j :: 0 <= i < j < |entries| ==> entries[i].id < entries[j].id
  }

  function OlderEnd(l: Link): u64 { if Explicit(l) then l.to else l.from }

  function NewerEnd(l: Link): u64 { if Explicit(l) then l.from else l.to }

  /** A link agrees with the insertion order and with the record times of its endpoints. */
  ghost predicate Agrees(entries: seq<Entry>, l: Link) {
    && OlderEnd(l) < NewerEnd(l)
    && (forall e :: e in entries && e.id == OlderEnd(l) ==> e.retention == Durable && e.createdAt <= l.createdAt)
    && (forall e :: e in entries && e.id == NewerEnd(l) ==> e.retention == Durable && e.createdAt == l.createdAt)
  }

  ghost predicate EntriesOk(entries: seq<Entry>, nextId: u64) {
    && Increasing(entries)
    && forall e :: e in entries ==> 1 <= e.id < nextId && e.createdAt < e.expiresAt
  }

  ghost predicate NoDuplicateEdges(links: seq<Link>) {
    forall i, j :: 0 <= i < j < |links| ==> !SameEdge(links[i], links[j])
  }

  ghost predicate NoneDangles(entries: seq<Entry>, links: seq<Link>) {
    forall l :: l in links ==> l.from in Ids(entries) && l.to in Ids(entries)
  }

  ghost predicate LinksOk(entries: seq<Entry>, links: seq<Link>) {
    && NoDuplicateEdges(links)
    && NoneDangles(entries, links)
    && forall l :: l in links ==> Agrees(entries, l)
  }

  ghost predicate Bounded(cfg: Config, st: Store) {
    && |st.entries| <= st.log.entriesHighWater
    && |st.links| <= st.log.linksHighWater
    && LogOk(cfg, st.log)
  }

  ghost predicate LogOk(cfg: Config, log: Log) {
    && log.entriesHighWater <= cfg.maxEntries
    && log.linksHighWater <= cfg.maxLinks
    && |log.compactions| <= log.compactionsHighWater <= cfg.maxCompactionRecords
  }

  ghost predicate Inv(cfg: Config, st: Store) {
    && ValidConfig(cfg) && st.nextId >= 1
    && EntriesOk(st.entries, st.nextId)
    && LinksOk(st.entries, st.links)
    && Bounded(cfg, st)
  }

  // ---- Node identity -------------------------------------------------------

  lemma SameIdSameEntry(entries: seq<Entry>, a: Entry, b: Entry)
    requires Increasing(entries) && a in entries && b in entries && a.id == b.id
    ensures a == b
  {
    var i :| 0 <= i < |entries| && entries[i] == a;
    var j :| 0 <= j < |entries| && entries[j] == b;
    assert i == j;
  }

  lemma DifferentEntryDifferentId(entries: seq<Entry>, a: Entry, b: Entry)
    requires Increasing(entries) && a in entries && b in entries && a != b
    ensures a.id != b.id
  {
    var i :| 0 <= i < |entries| && entries[i] == a;
    var j :| 0 <= j < |entries| && entries[j] == b;
  }

  lemma {:induction false} FilterIncreasing(entries: seq<Entry>, p: Entry -> bool)
    requires Increasing(entries)
    ensures Increasing(Filter(entries, p))
  {
    if entries != [] {
      FilterIncreasing(Front(entries), p);
      FilterMembers(Front(entries), p);
      var kept := Filter(Front(entries), p);
      forall i | 0 <= i < |kept| ensures kept[i].id < Last(entries).id {
        assert kept[i] in Front(entries);
      }
    }
  }

  lemma {:induction false} FilterKeepsEdgesDistinct(links: seq<Link>, p: Link -> bool)
    requires NoDuplicateEdges(links)
    ensures NoDuplicateEdges(Filter(links, p))
  {
    if links != [] {
      FilterKeepsEdgesDistinct(Front(links), p);
      FilterMembers(Front(links), p);
      var kept := Filter(Front(links), p);
      forall i | 0 <= i < |kept| ensures !SameEdge(kept[i], Last(links)) {
        assert kept[i] in Front(links);
      }
    }
  }

  // ---- Compaction ----------------------------------------------------------

  lemma KeptEntriesFacts(cfg: Config, entries: seq<Entry>, now: u64)
    requires Increasing(entries)
    ensures Increasing(KeptEntries(cfg, entries, now))
    ensures forall e :: e in KeptEntries(cfg, entries, now) ==> e in entries && e.expiresAt > now
    ensures |KeptEntries(cfg, entries, now)| <= cfg.maxEntries
  {
    FilterIncreasing(entries, Unexpired(now));
    FilterMembers(entries, Unexpired(now));
  }

  lemma PruneKeepsLinksOk(entries: seq<Entry>, kept: seq<Entry>, links: seq<Link>)
    requires LinksOk(entries, links) && forall e :: e in kept ==> e in entries
    ensures LinksOk(kept, Prune(links, Ids(kept)))
  {
    FilterMembers(links, BothAlive(Ids(kept)));
    FilterKeepsEdgesDistinct(links, BothAlive(Ids(kept)));
    forall l | l in Prune(links, Ids(kept)) ensures Agrees(kept, l) {
      assert Agrees(entries, l);
    }
  }

  /** Compaction keeps the ordering and link invariants, whatever the sizes were before. */
  lemma CompactKeepsCore(cfg: Config, st: Store, now: u64)
    requires EntriesOk(st.entries, st.nextId) && LinksOk(st.entries, st.links)
    ensures var after := Compact(cfg, st, now);
            EntriesOk(after.entries, after.nextId) && LinksOk(after.entries, after.links)
  {
    KeptEntriesFacts(cfg, st.entries, now);
    PruneKeepsLinksOk(st.entries, KeptEntries(cfg, st.entries, now), st.links);
  }

  lemma NoteKeepsLogOk(cfg: Config, log: Log, record: Compaction)
    requires LogOk(cfg, log) && record.remaining <= cfg.maxEntries
    ensures LogOk(cfg, Note(cfg, log, record))
    ensures Note(cfg, log, record).linksHighWater == log.linksHighWater
    ensures Note(cfg, log, record).entriesHighWater == Max(log.entriesHighWater, record.remaining)
  {
  }

  lemma CompactBounds(cfg: Config, st: Store, now: u64)
    requires |st.links| <= st.log.linksHighWater && LogOk(cfg, st.log)
    ensures Bounded(cfg, Compact(cfg, st, now))
  {
    NoteKeepsLogOk(cfg, st.log, CompactionRecord(cfg, st.entries, now));
  }

  lemma CompactKeepsInv(cfg: Config, st: Store, now: u64)
    requires Inv(cfg, st)
    ensures Inv(cfg, Compact(cfg, st, now))
  {
    CompactKeepsCore(cfg, st, now);
    CompactBounds(cfg, st, now);
  }

  // ---- Insertion -----------------------------------------------------------

  /** Appending an entry under a fresh id disturbs neither the order nor any link. */
  lemma AppendKeepsCore(entries: seq<Entry>, links: seq<Link>, e: Entry, nextId: u64)
    requires EntriesOk(entries, nextId) && LinksOk(entries, links)
    requires e.createdAt < e.expiresAt && 1 <= e.id < nextId
    requires forall x :: x in entries ==> x.id < e.id
    ensures EntriesOk(entries + [e], nextId) && LinksOk(entries + [e], links)
  {
    forall x | x in entries ensures x.id in Ids(entries + [e]) {
      assert x in entries + [e];
    }
    forall l | l in links ensures Agrees(entries + [e], l) {
      assert Agrees(entries, l) && l.from in Ids(entries) && l.to in Ids(entries);
    }
  }

  /** The entries insertion at `now` is going to leave of `entries`. */
  function ProjectedEntries(cfg: Config, entries: seq<Entry>, now: u64): seq<Entry> {
    var kept := KeptEntries(cfg, entries, now);
    kept[Min(|kept|, SatSub(|kept| + 1, cfg.maxEntries))..]
  }

  lemma ProjectedEntriesFacts(cfg: Config, entries: seq<Entry>, now: u64)
    ensures Map(ProjectedEntries(cfg, entries, now), NodeId) == ProjectedSurvivors(cfg, entries, now)
    ensures Ids(ProjectedEntries(cfg, entries, now)) == IdSet(ProjectedSurvivors(cfg, entries, now))
    ensures forall e :: e in ProjectedEntries(cfg, entries, now) ==> e in KeptEntries(cfg, entries, now)
  {
    MapOfNewest(cfg, Filter(entries, Unexpired(now)));
    IdsOfMap(ProjectedEntries(cfg, entries, now));
    hide Ids, IdSet, Filter, Map;
  }

  /** Bounding entries and then reading their ids is bounding the ids. */
  lemma MapOfNewest(cfg: Config, live: seq<Entry>)
    ensures var kept := Newest(live, cfg.maxEntries);
            var ids := Map(live, NodeId);
            var bounded := ids[SatSub(|ids|, cfg.maxEntries)..];
            && |bounded| == |kept|
            && Map(kept[Min(|kept|, SatSub(|kept| + 1, cfg.maxEntries))..], NodeId)
               == bounded[Min(|bounded|, SatSub(|bounded| + 1, cfg.maxEntries))..]
  {
    var kept, ids := Newest(live, cfg.maxEntries), Map(live, NodeId);
    MapOfTail(live, SatSub(|live|, cfg.maxEntries));
    MapOfTail(kept, Min(|kept|, SatSub(|kept| + 1, cfg.maxEntries)));
  }

  lemma MapOfTail(entries: seq<Entry>, k: nat)
    requires k <= |entries|
    ensures Map(entries[k..], NodeId) == Map(entries, NodeId)[k..]
  {
  }

  lemma IdsOfMap(entries: seq<Entry>)
    ensures Ids(entries) == IdSet(Map(entries, NodeId))
  {
    var ids := Map(entries, NodeId);
    forall id | id in ids ensures id in Ids(entries) {
      var k :| 0 <= k < |ids| && ids[k] == id;
      assert entries[k] in entries;
    }
    forall e | e in entries ensures e.id in ids {
      var k :| 0 <= k < |entries| && entries[k] == e;
      assert ids[k] == e.id;
    }
  }

  lemma SecondCompaction(cfg: Config, entries: seq<Entry>, e: Entry, now: u64)
    requires cfg.maxEntries > 0 && e.expiresAt > now
    ensures KeptEntries(cfg, KeptEntries(cfg, entries, now) + [e], now) == ProjectedEntries(cfg, entries, now) + [e]
  {
    var kept := KeptEntries(cfg, entries, now);
    assert Filter(kept + [e], Unexpired(now)) == kept + [e] by {
      FilterMembers(entries, Unexpired(now));
      FilterAll(kept + [e], Unexpired(now));
    }
    var k := SatSub(|kept| + 1, cfg.maxEntries);
    assert k <= |kept| && (kept + [e])[k..] == kept[k..] + [e];
  }

  /** The projection is exact: insertion leaves the projected entries, in order, then the new one. */
  lemma InsertionKeepsProjection(cfg: Config, st: Store, entry: Entry, now: u64)
    requires ValidConfig(cfg) && st.nextId < U64_MAX && entry.expiresAt > now
    ensures var after := PushBounded(cfg, st, entry, now).0;
            && after.entries == ProjectedEntries(cfg, st.entries, now) + [entry.(id := st.nextId)]
            && after.links == Prune(Prune(st.links, Ids(KeptEntries(cfg, st.entries, now))), Ids(after.entries))
            && after.nextId == st.nextId + 1
    ensures PushBounded(cfg, st, entry, now).1 == Ok(entry.(id := st.nextId))
  {
    var numbered := st.(nextId := st.nextId + 1);
    var first := Compact(cfg, numbered, now);
    SecondCompaction(cfg, st.entries, entry.(id := st.nextId), now);
  }

  lemma InsertKeepsInv(cfg: Config, st: Store, entry: Entry, now: u64)
    requires Inv(cfg, st) && entry.createdAt == now < entry.expiresAt
    ensures Inv(cfg, PushBounded(cfg, st, entry, now).0)
  {
    if st.nextId < U64_MAX {
      var e := entry.(id := st.nextId);
      var numbered := st.(nextId := st.nextId + 1);
      var first := Compact(cfg, numbered, now);
      CompactKeepsInv(cfg, numbered, now);
      KeptEntriesFacts(cfg, st.entries, now);
      InsertAfterFirstCompaction(cfg, first, e, now);
    }
  }

  lemma InsertAfterFirstCompaction(cfg: Config, first: Store, e: Entry, now: u64)
    requires Inv(cfg, first) && e.createdAt < e.expiresAt && 1 <= e.id < first.nextId
    requires forall x :: x in first.entries ==> x.id < e.id
    ensures Inv(cfg, Compact(cfg, first.(entries := first.entries + [e]), now))
  {
    var appended := first.(entries := first.entries + [e]);
    AppendKeepsCore(first.entries, first.links, e, first.nextId);
    CompactKeepsCore(cfg, appended, now);
    CompactBounds(cfg, appended, now);
  }

  lemma CompactAtTheLastInstant(cfg: Config, st: Store)
    ensures Compact(cfg, st, U64_MAX).entries == [] && Compact(cfg, st, U64_MAX).links == []
  {
    FilterNone(st.entries, Unexpired(U64_MAX));
    FilterNone(st.links, BothAlive(Ids([])));
  }

  /** At the last representable instant nothing is unexpired: the new entry and the whole store
      are removed, and the call still reports an error. */
  lemma InsertAtTheLastInstantEmptiesTheStore(cfg: Config, st: Store, entry: Entry)
    requires st.nextId < U64_MAX
    ensures PushBounded(cfg, st, entry, U64_MAX).1 == Err(Disappeared)
    ensures var after := PushBounded(cfg, st, entry, U64_MAX).0;
            after.entries == [] && after.links == [] && after.nextId == st.nextId + 1
  {
    var first := Compact(cfg, st.(nextId := st.nextId + 1), U64_MAX);
    var appended := first.(entries := first.entries + [entry.(id := st.nextId)]);
    CompactAtTheLastInstant(cfg, appended);
  }

  // ---- Linking -------------------------------------------------------------

  lemma {:induction false} PushFreshLinks(links: seq<Link>, new_: seq<Link>)
    requires forall x, y :: x in links && y in new_ ==> !SameEdge(x, y)
    requires NoDuplicateEdges(new_)
    ensures PushLinks(links, new_) == links + new_
  {
    if new_ != [] {
      PushFreshLinks(links, Front(new_));
      assert new_ == Front(new_) + [Last(new_)];
      forall x | x in links + Front(new_) ensures !SameEdge(x, Last(new_)) {
        if x in Front(new_) {
          var i :| 0 <= i < |Front(new_)| && new_[i] == x;
        }
      }
    }
  }

  lemma {:induction false} DistinctEdgesConcat(a: seq<Link>, b: seq<Link>)
    requires NoDuplicateEdges(a) && NoDuplicateEdges(b)
    requires forall x, y :: x in a && y in b ==> !SameEdge(x, y)
    ensures NoDuplicateEdges(a + b)
  {
    forall i, j | 0 <= i < j < |a + b| ensures !SameEdge((a + b)[i], (a + b)[j]) {
      if i < |a| <= j {
        assert a[i] in a && b[j - |a|] in b;
      }
    }
  }

  /** The edges one write appends, given distinct targets that fit the budget. */
  function NewEdges(env: Env, cfg: Config, st: Store, newId: u64, topic: Option<Text>, now: u64,
                    targets: seq<u64>, causes: seq<u64>): seq<Link>
    requires |targets| + |causes| <= cfg.maxLinksPerMemory
  {
    var older := Predecessors(env, st.entries, newId, topic, now, cfg.maxLinksPerMemory - |targets| - |causes|);
    DeclaredEdges(newId, targets, causes, now) + TemporalEdges(older, newId, now)
  }

  lemma PredecessorFacts(env: Env, entries: seq<Entry>, newId: u64, topic: Option<Text>, now: u64, budget: nat)
    requires Increasing(entries)
    ensures var older := Predecessors(env, entries, newId, topic, now, budget);
            && |older| <= budget
            && (forall e :: e in older ==>
                  e in entries && e.retention == Durable && e.id != newId && e.createdAt <= now)
            && DistinctNodes(older)
  {
    if topic.Some? {
      var p := SameTopicBefore(env, newId, topic.value, now);
      var same := Filter(entries, p);
      FilterMembers(entries, p);
      FilterIncreasing(entries, p);
      SortMembers(same, NewerFirst);
      SortKeepsIdsDistinct(same);
      var sorted := SortBy(same, NewerFirst);
      assert Predecessors(env, entries, newId, topic, now, budget) == Take(sorted, budget);
      assert forall e :: e in Take(sorted, budget) ==> e in sorted;
    }
  }

  ghost predicate DistinctNodes(entries: seq<Entry>) {
    forall i, j :: 0 <= i < j < |entries| ==> entries[i].id != entries[j].id
  }

  lemma SortKeepsIdsDistinct(entries: seq<Entry>)
    requires Increasing(entries)
    ensures DistinctNodes(SortBy(entries, NewerFirst))
  {
    var s := SortBy(entries, NewerFirst);
    SortDistinct(entries, NewerFirst);
    SortMembers(entries, NewerFirst);
    forall i, j | 0 <= i < j < |s| ensures s[i].id != s[j].id {
      DifferentEntryDifferentId(entries, s[i], s[j]);
    }
  }

  ghost predicate DistinctIds(ids: seq<u64>) {
    forall i, j :: 0 <= i < j < |ids| ==> ids[i] != ids[j]
  }

  /** With a fresh node and distinct targets, no edge of the write is a duplicate. */
  lemma LinkingAppendsNewEdges(env: Env, cfg: Config, st: Store, newId: u64, topic: Option<Text>, now: u64,
                               targets: seq<u64>, causes: seq<u64>)
    requires Increasing(st.entries) && NoDuplicateEdges(st.links)
    requires forall l :: l in st.links ==> l.from != newId && l.to != newId
    requires DistinctIds(targets) && DistinctIds(causes) && |targets| + |causes| <= cfg.maxLinksPerMemory
    ensures var new_ := NewEdges(env, cfg, st, newId, topic, now, targets, causes);
            && LinkedUnbounded(env, cfg, st, newId, topic, now, targets, causes)
               == Prune(st.links + new_, Ids(st.entries))
            && NoDuplicateEdges(st.links + new_)
  {
    var declared := DeclaredEdges(newId, targets, causes, now);
    var budget := cfg.maxLinksPerMemory - |targets| - |causes|;
    var temporal := TemporalEdges(Predecessors(env, st.entries, newId, topic, now, budget), newId, now);
    DeclaredEdgesFacts(newId, targets, causes, now);
    assert Take(declared, cfg.maxLinksPerMemory) == declared;
    TemporalEdgesFacts(env, st.entries, newId, topic, now, budget);
    assert PushLinks(PushLinks(st.links, declared), temporal) == st.links + (declared + temporal)
           && NoDuplicateEdges(st.links + (declared + temporal)) by {
      AppendTwice(st.links, declared, temporal);
    }
  }

  lemma TemporalEdgesFacts(env: Env, entries: seq<Entry>, newId: u64, topic: Option<Text>, now: u64, budget: nat)
    requires Increasing(entries)
    ensures var temporal := TemporalEdges(Predecessors(env, entries, newId, topic, now, budget), newId, now);
            && NoDuplicateEdges(temporal)
            && forall l :: l in temporal ==> l.to == newId && Derived(l)
  {
    PredecessorFacts(env, entries, newId, topic, now, budget);
  }

  lemma DeclaredEdgesFacts(newId: u64, targets: seq<u64>, causes: seq<u64>, now: u64)
    requires DistinctIds(targets) && DistinctIds(causes)
    ensures var declared := DeclaredEdges(newId, targets, causes, now);
            && |declared| == |targets| + |causes|
            && NoDuplicateEdges(declared)
            && forall l :: l in declared ==> l.from == newId && Explicit(l)
  {
    DistinctEdgesConcat(EdgesTo(newId, targets, Supersedes, now), EdgesTo(newId, causes, CausedBy, now));
  }

  lemma AppendTwice(links: seq<Link>, a: seq<Link>, b: seq<Link>)
    requires NoDuplicateEdges(links) && NoDuplicateEdges(a) && NoDuplicateEdges(b)
    requires forall x, y :: x in links && y in a ==> !SameEdge(x, y)
    requires forall x, y :: x in links && y in b ==> !SameEdge(x, y)
    requires forall x, y :: x in a && y in b ==> !SameEdge(x, y)
    ensures PushLinks(PushLinks(links, a), b) == links + (a + b)
    ensures NoDuplicateEdges(links + (a + b))
  {
    PushFreshLinks(links, a);
    PushFreshLinks(links + a, b);
    DistinctEdgesConcat(links, a);
    DistinctEdgesConcat(links + a, b);
    assert (links + a) + b == links + (a + b);
  }

  // ---- Shedding ------------------------------------------------------------

  /** Shedding removes derived edges only, oldest first, and exactly as many as the bound needs. */
  lemma {:induction false} ShedDropsOldestDerived(links: seq<Link>, maxLinks: nat)
    ensures Filter(Shed(links, maxLinks), Explicit) == Filter(links, Explicit)
    ensures var d := Filter(links, Derived);
            Filter(Shed(links, maxLinks), Derived) == d[Min(|d|, SatSub(|links|, maxLinks))..]
    ensures |Filter(links, Explicit)| <= maxLinks ==> |Shed(links, maxLinks)| == Min(|links|, maxLinks)
    decreases |links|
  {
    FilterPartition(links, Explicit, Derived);
    var i := FirstDerived(links);
    if |links| > maxLinks && i == |links| {
      FilterNone(links, Derived);
    } else if |links| > maxLinks {
      RemovingFirstDerived(links, i);
      FilterPartition(RemoveAt(links, i), Explicit, Derived);
      ShedDropsOldestDerived(RemoveAt(links, i), maxLinks);
    }
  }

  lemma RemovingFirstDerived(links: seq<Link>, i: nat)
    requires i < |links| && Derived(links[i]) && forall k :: 0 <= k < i ==> Explicit(links[k])
    ensures Filter(RemoveAt(links, i), Explicit) == Filter(links, Explicit)
    ensures Filter(links, Derived) == [links[i]] + Filter(RemoveAt(links, i), Derived)
  {
    FilterSkips(links, i, Explicit);
    FilterStartsWith(links, i, Derived);
  }

  lemma FilterSkips<T>(s: seq<T>, i: nat, p: T -> bool)
    requires i < |s| && !p(s[i])
    ensures Filter(RemoveAt(s, i), p) == Filter(s, p)
  {
    var a, b := Filter(s[..i], p), Filter(s[i + 1..], p);
    assert Filter(RemoveAt(s, i), p) == a + b by {
      FilterConcat(s[..i], s[i + 1..], p);
    }
    assert Filter(s, p) == a + [] + b by {
      FilterSplit(s, i, p);
    }
  }

  lemma FilterStartsWith<T>(s: seq<T>, i: nat, p: T -> bool)
    requires i < |s| && p(s[i]) && forall k :: 0 <= k < i ==> !p(s[k])
    ensures Filter(s, p) == [s[i]] + Filter(RemoveAt(s, i), p)
  {
    var a, b := Filter(s[..i], p), Filter(s[i + 1..], p);
    assert a == [] by {
      FilterNone(s[..i], p);
    }
    assert Filter(RemoveAt(s, i), p) == b by {
      FilterConcat(s[..i], s[i + 1..], p);
    }
    assert Filter(s, p) == a + [s[i]] + b by {
      FilterSplit(s, i, p);
    }
  }

  lemma {:induction false} ShedIsSelection(links: seq<Link>, maxLinks: nat)
    requires NoDuplicateEdges(links)
    ensures NoDuplicateEdges(Shed(links, maxLinks))
    ensures forall l :: l in Shed(links, maxLinks) ==> l in links
    decreases |links|
  {
    if |links| > maxLinks && FirstDerived(links) < |links| {
      ShedIsSelection(RemoveAt(links, FirstDerived(links)), maxLinks);
    }
  }
}
