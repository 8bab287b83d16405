/** What the reads promise: nothing from the future, one actor's scope, no stale claim. */
module MemoryReadTheorems {
  import opened Seqs
  import opened Utf8
  import opened Words
  import opened MemoryModel
  import opened MemoryInvariants
  import opened MemoryReads

  // ---- Comparators are orders ----------------------------------------------

  lemma RankedBeforeIsOrder(env: Env, scope: Option<Text>, topic: Option<Text>)
    ensures TotalPreorder(RankedBefore(env, scope, topic))
  {
  }

  lemma ContextBeforeIsOrder(env: Env, topic: Option<Text>, promoted: set<u64>)
    ensures TotalPreorder(ContextBefore(env, topic, promoted))
  {
  }

  // ---- No read sees the future or the expired past -------------------------

  /** The store a reader at `now` is entitled to see. */
  function VisibleStore(st: Store, now: u64): Store {
    st.(entries := Filter(st.entries, Live(now)), links := LinkSnapshot(st, now))
  }

  lemma VisibleTwice(st: Store, now: u64)
    ensures Filter(VisibleStore(st, now).entries, Live(now)) == Filter(st.entries, Live(now))
    ensures LiveIds(VisibleStore(st, now), now) == LiveIds(st, now)
    ensures LinkSnapshot(VisibleStore(st, now), now) == LinkSnapshot(st, now)
  {
    FilterFuse(st.entries, Live(now), Live(now), Live(now));
    var p := VisibleLink(LiveIds(st, now), now);
    FilterFuse(st.links, p, p, p);
  }

  lemma ViewsAgree(st: Store, cap: nat, now: u64, e: Entry)
    ensures var live := LiveIds(st, now);
            Viewed(VisibleStore(st, now), live, cap, now)(e) == Viewed(st, live, cap, now)(e)
  {
    var live := LiveIds(st, now);
    var visible := VisibleLink(live, now);
    FilterFuse(st.links, visible, Incident(e.id, live, now), Incident(e.id, live, now));
    FilterMembers(st.links, visible);
    assert forall l :: Incident(e.id, live, now)(l) ==> visible(l);
  }

  lemma {:induction false} FindById(entries: seq<Entry>, e: Entry)
    requires Increasing(entries) && e in entries
    ensures Find(entries, e.id) == Some(e)
  {
    SameIdSameEntry(entries, Find(entries, e.id).value, e);
  }

  lemma FindAmongVisible(st: Store, now: u64, id: u64)
    requires Increasing(st.entries) && id in LiveIds(st, now)
    ensures Find(VisibleStore(st, now).entries, id) == Find(st.entries, id)
    ensures Find(st.entries, id).Some? && Live(now)(Find(st.entries, id).value)
  {
    var visible := Filter(st.entries, Live(now));
    var e :| e in visible && e.id == id;
    FilterMembers(st.entries, Live(now));
    FilterIncreasing(st.entries, Live(now));
    FindById(visible, e);
    FindById(st.entries, e);
  }

  lemma {:induction false} ExpansionsAgree(st: Store, now: u64, scope: Option<Text>, selected: set<u64>, ids: seq<u64>,
                                           room: nat)
    requires Increasing(st.entries)
    ensures var live := LiveIds(st, now);
            Expanded(VisibleStore(st, now), live, scope, selected, ids, room)
            == Expanded(st, live, scope, selected, ids, room)
  {
    if ids != [] {
      ExpansionsAgree(st, now, scope, selected, Front(ids), room);
      if Last(ids) in LiveIds(st, now) {
        FindAmongVisible(st, now, Last(ids));
      }
    }
  }

  lemma MapAgree<T, U>(s: seq<T>, f: T -> U, g: T -> U)
    requires forall x :: x in s ==> f(x) == g(x)
    ensures Map(s, f) == Map(s, g)
  {
  }

  lemma ViewedListsAgree(st: Store, cap: nat, now: u64, entries: seq<Entry>)
    ensures var live := LiveIds(st, now);
            Map(entries, Viewed(VisibleStore(st, now), live, cap, now)) == Map(entries, Viewed(st, live, cap, now))
  {
    var live := LiveIds(st, now);
    forall e | e in entries
      ensures Viewed(VisibleStore(st, now), live, cap, now)(e) == Viewed(st, live, cap, now)(e)
    {
      ViewsAgree(st, cap, now, e);
    }
    MapAgree(entries, Viewed(VisibleStore(st, now), live, cap, now), Viewed(st, live, cap, now));
  }

  /** Among visible nodes the corrections are those of the visible links. */
  lemma {:induction false} CorrectionsAgree(links: seq<Link>, live: set<u64>, now: u64)
    ensures var all := CorrectionOf(links, live, now);
            var seen := CorrectionOf(Filter(links, VisibleLink(live, now)), live, now);
            forall id :: id in live ==> (id in all <==> id in seen) && (id in all ==> all[id] == seen[id])
  {
    if links != [] {
      CorrectionsAgree(Front(links), live, now);
      var kept := Filter(Front(links), VisibleLink(live, now));
      var seen := Filter(links, VisibleLink(live, now));
      if VisibleLink(live, now)(Last(links)) {
        assert seen == kept + [Last(links)];
        assert Front(seen) == kept && Last(seen) == Last(links);
      } else {
        assert seen == kept;
      }
    }
  }

  lemma ContextsAgree(env: Env, visible: seq<Entry>, a: map<u64, u64>, b: map<u64, u64>, speaker: Option<Text>,
                      topic: Option<Text>)
    requires forall e :: e in visible ==> (e.id in a <==> e.id in b) && (e.id in a ==> a[e.id] == b[e.id])
    ensures ContextOver(env, visible, a, speaker, topic) == ContextOver(env, visible, b, speaker, topic)
  {
    FilterAgree(visible, Deliverable(speaker, a), Deliverable(speaker, b));
    assert Promoted(env, visible, topic, a) == Promoted(env, visible, topic, b);
  }

  /** No record made after `now` or expired by `now` influences any read at `now`: each gives the
      same answer on the store restricted to what is visible then. */
  lemma ReadsSeeOnlyTheVisibleStore(env: Env, cfg: Config, st: Store, q: Query, now: u64)
    requires Inv(cfg, st)
    ensures Relevant(env, VisibleStore(st, now), q, now) == Relevant(env, st, q, now)
    ensures RelevantLinked(env, cfg, VisibleStore(st, now), q, now) == RelevantLinked(env, cfg, st, q, now)
    ensures LinkSnapshot(VisibleStore(st, now), now) == LinkSnapshot(st, now)
  {
    VisibleTwice(st, now);
    if !Unevaluable(q) {
      var direct := DirectMatches(env, st, q, now);
      ViewedListsAgree(st, cfg.maxLinksPerMemory, now, direct);
      ExpansionsAgree(st, now, Scope(env, q), Ids(direct), HopIds(env, cfg, st, q, now), SatSub(q.limit, |direct|));
      ViewedListsAgree(st, cfg.maxLinksPerMemory, now, HopNodes(env, cfg, st, q, now));
    }
  }

  lemma ContextSeesOnlyTheVisibleStore(env: Env, st: Store, namespace: Text, actor: Option<Text>,
                                       topic: Option<Text>, limit: nat, now: u64)
    ensures ContextFor(env, VisibleStore(st, now), namespace, actor, topic, limit, now)
            == ContextFor(env, st, namespace, actor, topic, limit, now)
  {
    hide ContextOver, CorrectionOf;
    VisibleTwice(st, now);
    var live := LiveIds(st, now);
    CorrectionsAgree(st.links, live, now);
    ContextsAgree(env, Filter(st.entries, Live(now)), CorrectionOf(st.links, live, now),
                  CorrectionOf(LinkSnapshot(st, now), live, now), Speaker(env, namespace, actor), topic);
  }

  // ---- Supersession --------------------------------------------------------

  lemma {:induction false} CorrectionOfMembers(links: seq<Link>, live: set<u64>, now: u64, id: u64)
    ensures id in CorrectionOf(links, live, now) <==> exists l :: l in links && Corrects(live, now, l) && l.to == id
    ensures id in CorrectionOf(links, live, now) ==>
              exists l :: l in links && Corrects(live, now, l) && l.to == id
                  && l.from == CorrectionOf(links, live, now)[id]
  {
    if links != [] {
      CorrectionOfMembers(Front(links), live, now, id);
      assert links == Front(links) + [Last(links)];
    }
  }

  /** The generation context drops a visible claim exactly when the link view calls it stale. */
  lemma {:induction false} DroppedExactlyWhenStale(links: seq<Link>, live: set<u64>, now: u64, id: u64)
    requires id in live
    ensures id in CorrectionOf(links, live, now) <==> Stale(links, id, live, now)
  {
    CorrectionOfMembers(links, live, now, id);
  }

  lemma NewerLinkFirstIsOrder()
    ensures TotalPreorder(NewerLinkFirst)
  {
  }

  /** However small its cap, the link view of an entry touched by a supersession opens with the newest
      one: no visible supersession at that entry is newer. */
  lemma CapNeverHidesTheNewestSupersession(links: seq<Link>, id: u64, live: set<u64>, cap: nat, now: u64, l: Link)
    requires cap > 0 && l in links && l.kind == Supersedes && Incident(id, live, now)(l)
    ensures var view := ViewLinks(links, id, live, cap, now);
            view != [] && view[0].kind == Supersedes && NewerLinkFirst(view[0], l)
  {
    var incident := Filter(links, Incident(id, live, now));
    var found := Filter(incident, OfKind(Supersedes));
    var ordered := SortBy(found, NewerLinkFirst);
    FilterMembers(links, Incident(id, live, now));
    FilterMembers(incident, OfKind(Supersedes));
    SortMembers(found, NewerLinkFirst);
    NewerLinkFirstIsOrder();
    SortSorted(found, NewerLinkFirst);
    var k :| 0 <= k < |ordered| && ordered[k] == l;
    assert NewerLinkFirst(ordered[0], ordered[k]);
    assert ordered[0] in ordered;
    assert ViewLinks(links, id, live, cap, now)[0] == ordered[0];
  }

  /** Consecutive nodes are joined by explicit links, each node the older end of the next link. */
  ghost predicate EvidenceChain(links: seq<Link>, path: seq<u64>) {
    forall k :: 0 <= k < |path| - 1 ==> ExplicitStep(links, path[k], path[k + 1])
  }

  ghost predicate ExplicitStep(links: seq<Link>, older: u64, newer: u64) {
    exists l :: l in links && Explicit(l) && l.to == older && l.from == newer
  }

  /** Supersession and causation together form no cycle: ids grow along every chain. */
  lemma {:induction false} EvidenceIsAcyclic(cfg: Config, st: Store, path: seq<u64>, i: nat, j: nat)
    requires Inv(cfg, st) && EvidenceChain(st.links, path) && i < j < |path|
    ensures path[i] < path[j]
    decreases j
  {
    assert ExplicitStep(st.links, path[j - 1], path[j]);
    var l :| l in st.links && Explicit(l) && l.to == path[j - 1] && l.from == path[j];
    assert Agrees(st.entries, l);
    if i < j - 1 {
      EvidenceIsAcyclic(cfg, st, path, i, j - 1);
    }
  }

  ghost predicate CorrectionChain(links: seq<Link>, live: set<u64>, now: u64, path: seq<u64>) {
    && path != []
    && forall k :: 0 <= k < |path| - 1 ==> CorrectionStep(links, live, now, path[k], path[k + 1])
  }

  ghost predicate CorrectionStep(links: seq<Link>, live: set<u64>, now: u64, older: u64, newer: u64) {
    exists l :: l in links && Corrects(live, now, l) && l.to == older && l.from == newer
  }

  /** Every visible claim, superseded or not, leads through live corrections to a live claim that
      nothing live supersedes. */
  lemma {:induction false} LatestCorrectionExists(cfg: Config, st: Store, now: u64, id: u64) returns (path: seq<u64>)
    requires Inv(cfg, st) && id in LiveIds(st, now)
    ensures CorrectionChain(st.links, LiveIds(st, now), now, path) && path[0] == id
    ensures Last(path) in LiveIds(st, now) && Last(path) !in CorrectionOf(st.links, LiveIds(st, now), now)
    ensures id in CorrectionOf(st.links, LiveIds(st, now), now) ==> |path| > 1
    decreases st.nextId - id
  {
    var live := LiveIds(st, now);
    LiveIdsBelow(st, now);
    if id !in CorrectionOf(st.links, live, now) {
      path := [id];
    } else {
      var next := CorrectionNext(cfg, st, live, now, id);
      hide Inv, CorrectionOf, LiveIds, CorrectionStep;
      var rest := LatestCorrectionExists(cfg, st, now, next);
      path := [id] + rest;
      LongerChain(st.links, live, now, id, rest);
    }
  }

  lemma CorrectionNext(cfg: Config, st: Store, live: set<u64>, now: u64, id: u64) returns (next: u64)
    requires Inv(cfg, st) && id in CorrectionOf(st.links, live, now)
    ensures id < next && next in live && CorrectionStep(st.links, live, now, id, next)
  {
    CorrectionOfMembers(st.links, live, now, id);
    var l :| l in st.links && Corrects(live, now, l) && l.to == id;
    assert Agrees(st.entries, l);
    next := l.from;
  }

  lemma LongerChain(links: seq<Link>, live: set<u64>, now: u64, id: u64, rest: seq<u64>)
    requires rest != [] && CorrectionChain(links, live, now, rest) && CorrectionStep(links, live, now, id, rest[0])
    ensures CorrectionChain(links, live, now, [id] + rest)
  {
    hide CorrectionStep;
    var path := [id] + rest;
    forall k | 0 <= k < |path| - 1 ensures CorrectionStep(links, live, now, path[k], path[k + 1]) {
      assert k > 0 ==> CorrectionStep(links, live, now, rest[k - 1], rest[k]);
    }
  }

  lemma LiveIdsBelow(st: Store, now: u64)
    requires EntriesOk(st.entries, st.nextId)
    ensures forall id :: id in LiveIds(st, now) ==> id < st.nextId
  {
    FilterMembers(st.entries, Live(now));
  }

  // ---- Scope ---------------------------------------------------------------

  /** If everything satisfying `p` stands in front, cutting and filtering commute. */
  lemma {:induction false} FilterTakesPrefix<T>(s: seq<T>, p: T -> bool, n: nat)
    requires forall i, j :: 0 <= i < j < |s| && p(s[j]) ==> p(s[i])
    ensures Filter(Take(s, n), p) == Take(Filter(s, p), n)
  {
    if |s| > n {
      FilterTakesPrefix(Front(s), p, n);
      assert Take(Front(s), n) == Take(s, n);
      assert s == Front(s) + [Last(s)];
      FilterSnoc(Front(s), Last(s), p);
      if p(Last(s)) {
        FilterAll(Front(s), p);
        assert Take(Front(s) + [Last(s)], n) == Take(Front(s), n);
      }
    }
  }

  /** Filtering by actor after taking `limit` ranked matches loses no in-scope match: it equals
      taking `limit` of the in-scope matches. */
  lemma ScopeAfterLimitIsScopeBeforeLimit(env: Env, st: Store, q: Query, now: u64)
    requires !Unevaluable(q)
    ensures DirectMatches(env, st, q, now)
            == Take(Filter(Ranked(env, st, Scope(env, q), q.topic, now), Scoped(Scope(env, q))), q.limit)
  {
    var scope := Scope(env, q);
    var ranked := Ranked(env, st, scope, q.topic, now);
    var le := RankedBefore(env, scope, q.topic);
    RankedBeforeIsOrder(env, scope, q.topic);
    SortSorted(Filter(Filter(st.entries, Live(now)), Matches(env, scope, q.topic)), le);
    forall i, j | 0 <= i < j < |ranked| && Scoped(scope)(ranked[j]) ensures Scoped(scope)(ranked[i]) {
      assert le(ranked[i], ranked[j]);
      assert Signal(env, scope, q.topic, ranked[i]) >= Signal(env, scope, q.topic, ranked[j]);
    }
    FilterTakesPrefix(ranked, Scoped(scope), q.limit);
  }

  // ---- The linked result ---------------------------------------------------

  lemma {:induction false} ExpandedFacts(st: Store, live: set<u64>, scope: Option<Text>, selected: set<u64>,
                                         ids: seq<u64>, room: nat)
    ensures var r := Expanded(st, live, scope, selected, ids, room);
            && DistinctNodes(r)
            && forall e :: e in r
                ==> e in st.entries && e.id in ids && e.id in live && InScope(scope, e) && e.id !in selected
  {
    if ids != [] {
      ExpandedFacts(st, live, scope, selected, Front(ids), room);
      var before := Expanded(st, live, scope, selected, Front(ids), room);
      assert forall e :: e in before ==> e.id in Ids(before);
    }
  }

  /** With room left over, the hop took every live in-scope neighbour it was shown. */
  lemma {:induction false} ExpandedMissesNothing(st: Store, live: set<u64>, scope: Option<Text>, selected: set<u64>,
                                                 ids: seq<u64>, room: nat, id: u64)
    requires |Expanded(st, live, scope, selected, ids, room)| < room
    requires id in ids && id in live && Find(st.entries, id).Some? && InScope(scope, Find(st.entries, id).value)
    ensures id in selected + Ids(Expanded(st, live, scope, selected, ids, room))
  {
    var before := Expanded(st, live, scope, selected, Front(ids), room);
    var r := Expanded(st, live, scope, selected, ids, room);
    assert forall e :: e in before ==> e in r;
    if id == Last(ids) {
      assert id !in selected + Ids(before) ==> r[|r| - 1] in r && r[|r| - 1].id == id;
    } else {
      assert ids == Front(ids) + [Last(ids)];
      ExpandedMissesNothing(st, live, scope, selected, Front(ids), room, id);
    }
  }

  lemma {:induction false} AllNeighboursMembers(matched: seq<Linked>, id: u64)
    ensures id in AllNeighbours(matched) <==> exists m :: m in matched && id in Neighbours(m)
  {
    hide Neighbours;
    if matched != [] {
      var before, last := Front(matched), Last(matched);
      AllNeighboursMembers(before, id);
      assert forall m :: m in matched <==> m in before || m == last;
    }
  }

  lemma DirectFacts(env: Env, st: Store, q: Query, now: u64)
    requires Increasing(st.entries)
    ensures var direct := DirectMatches(env, st, q, now);
            && |direct| <= q.limit
            && DistinctNodes(direct)
            && forall e :: e in direct ==> e in st.entries && Live(now)(e) && InScope(Scope(env, q), e)
  {
    var scope := Scope(env, q);
    var relevant := Relevant(env, st, q, now);
    RelevantFacts(env, st, q, now);
    FilterMembers(relevant, Scoped(scope));
    FilterKeepsNodesDistinct(relevant, Scoped(scope));
  }

  lemma {:induction false} FilterKeepsNodesDistinct(entries: seq<Entry>, p: Entry -> bool)
    requires DistinctNodes(entries)
    ensures DistinctNodes(Filter(entries, p))
  {
    if entries != [] {
      FilterKeepsNodesDistinct(Front(entries), p);
      FilterMembers(Front(entries), p);
      var kept := Filter(Front(entries), p);
      forall i | 0 <= i < |kept| ensures kept[i].id != Last(entries).id {
        assert kept[i] in Front(entries);
      }
    }
  }

  lemma RelevantFacts(env: Env, st: Store, q: Query, now: u64)
    requires Increasing(st.entries)
    ensures var r := Relevant(env, st, q, now);
            && |r| <= q.limit
            && DistinctNodes(r)
            && forall e :: e in r ==> e in st.entries && Live(now)(e)
  {
    var scope := Scope(env, q);
    var live := Filter(st.entries, Live(now));
    var matching := Filter(live, Matches(env, scope, q.topic));
    FilterMembers(st.entries, Live(now));
    FilterMembers(live, Matches(env, scope, q.topic));
    FilterIncreasing(st.entries, Live(now));
    FilterIncreasing(live, Matches(env, scope, q.topic));
    SortMembers(matching, RankedBefore(env, scope, q.topic));
    SortedNodesDistinct(matching, RankedBefore(env, scope, q.topic));
  }

  lemma SortedNodesDistinct(entries: seq<Entry>, le: (Entry, Entry) -> bool)
    requires Increasing(entries)
    ensures DistinctNodes(SortBy(entries, le))
  {
    var s := SortBy(entries, le);
    SortDistinct(entries, le);
    SortMembers(entries, le);
    forall i, j | 0 <= i < j < |s| ensures s[i].id != s[j].id {
      DifferentEntryDifferentId(entries, s[i], s[j]);
    }
  }

  function EntryOf(m: Linked): Entry { m.entry }

  /** `e` is one visible link away from a direct match, and the match's bounded view shows that link. */
  ghost predicate OneLinkAway(st: Store, cap: nat, now: u64, direct: seq<Entry>, e: Entry) {
    exists m :: m in direct && e.id in Neighbours(Viewed(st, LiveIds(st, now), cap, now)(m))
  }

  /** Nodes of the linked result. */
  function ResultNodes(env: Env, cfg: Config, st: Store, q: Query, now: u64): seq<Entry> {
    Map(RelevantLinked(env, cfg, st, q, now), EntryOf)
  }

  lemma ResultSplits(env: Env, cfg: Config, st: Store, q: Query, now: u64)
    requires !Unevaluable(q)
    ensures ResultNodes(env, cfg, st, q, now) == DirectMatches(env, st, q, now) + HopNodes(env, cfg, st, q, now)
  {
    var view := Viewed(st, LiveIds(st, now), cfg.maxLinksPerMemory, now);
    hide DirectMatches, HopNodes, Stale, ViewLinks, LiveIds;
    EntriesOfViews(DirectMatches(env, st, q, now), HopNodes(env, cfg, st, q, now), view);
  }

  lemma EntriesOfViews(a: seq<Entry>, b: seq<Entry>, view: Entry -> Linked)
    requires forall e :: view(e).entry == e
    ensures Map(Map(a, view) + Map(b, view), EntryOf) == a + b
  {
  }

  lemma HopFacts(env: Env, cfg: Config, st: Store, q: Query, now: u64)
    ensures var direct := DirectMatches(env, st, q, now);
            var hop := HopNodes(env, cfg, st, q, now);
            && |hop| <= SatSub(q.limit, |direct|)
            && DistinctNodes(hop)
            && forall e :: e in hop ==> && e in st.entries && e.id in LiveIds(st, now)
                                        && InScope(Scope(env, q), e) && e.id !in Ids(direct)
                                        && OneLinkAway(st, cfg.maxLinksPerMemory, now, direct, e)
  {
    var live := LiveIds(st, now);
    var direct := DirectMatches(env, st, q, now);
    var hop := HopNodes(env, cfg, st, q, now);
    ExpandedFacts(st, live, Scope(env, q), Ids(direct), HopIds(env, cfg, st, q, now), SatSub(q.limit, |direct|));
    forall e | e in hop ensures OneLinkAway(st, cfg.maxLinksPerMemory, now, direct, e) {
      HopIdIsOneLinkAway(env, cfg, st, q, now, e.id);
    }
  }

  lemma HopIdIsOneLinkAway(env: Env, cfg: Config, st: Store, q: Query, now: u64, id: u64)
    ensures id in HopIds(env, cfg, st, q, now) <==>
            exists m :: m in DirectMatches(env, st, q, now)
                        && id in Neighbours(Viewed(st, LiveIds(st, now), cfg.maxLinksPerMemory, now)(m))
  {
    var direct := DirectMatches(env, st, q, now);
    var view := Viewed(st, LiveIds(st, now), cfg.maxLinksPerMemory, now);
    AllNeighboursMembers(Map(direct, view), id);
    MapMembers(direct, view);
  }

  lemma MapMembers<T, U>(s: seq<T>, f: T -> U)
    ensures forall y :: y in Map(s, f) <==> exists x :: x in s && f(x) == y
  {
    forall x | x in s ensures f(x) in Map(s, f) {
      var i :| 0 <= i < |s| && s[i] == x;
      assert Map(s, f)[i] == f(x);
    }
  }

  /** The linked result: direct matches first, then nodes exactly one shown link away; all visible,
      all in the actor scope, none twice, and no more than the limit. */
  lemma LinkedResult(env: Env, cfg: Config, st: Store, q: Query, now: u64)
    requires Inv(cfg, st) && !Unevaluable(q)
    ensures var direct := DirectMatches(env, st, q, now);
            var r := ResultNodes(env, cfg, st, q, now);
            && |direct| <= |r| <= q.limit
            && r[..|direct|] == direct
            && DistinctNodes(r)
            && (forall e :: e in r ==> e in st.entries && e.id in LiveIds(st, now) && InScope(Scope(env, q), e))
            && (forall e :: e in r[|direct|..] ==> OneLinkAway(st, cfg.maxLinksPerMemory, now, direct, e))
  {
    var direct := DirectMatches(env, st, q, now);
    ResultSplits(env, cfg, st, q, now);
    DirectFacts(env, st, q, now);
    HopFacts(env, cfg, st, q, now);
    DirectAreLive(st, direct, now);
    DisjointAppend(direct, HopNodes(env, cfg, st, q, now));
  }

  lemma DirectAreLive(st: Store, direct: seq<Entry>, now: u64)
    requires forall e :: e in direct ==> e in st.entries && Live(now)(e)
    ensures forall e :: e in direct ==> e.id in LiveIds(st, now)
  {
    FilterMembers(st.entries, Live(now));
  }

  lemma DisjointAppend(a: seq<Entry>, b: seq<Entry>)
    requires DistinctNodes(a) && DistinctNodes(b) && forall e :: e in b ==> e.id !in Ids(a)
    ensures DistinctNodes(a + b)
  {
    forall i, j | 0 <= i < j < |a + b| ensures (a + b)[i].id != (a + b)[j].id {
      if i < |a| <= j {
        assert a[i] in a && b[j - |a|] in b;
      }
    }
  }

  /** A result below the limit holds every visible in-scope neighbour the direct matches' views show. */
  lemma LinkedResultMissesNothing(env: Env, cfg: Config, st: Store, q: Query, now: u64, e: Entry)
    requires Inv(cfg, st) && !Unevaluable(q) && |RelevantLinked(env, cfg, st, q, now)| < q.limit
    requires e in st.entries && e.id in LiveIds(st, now) && InScope(Scope(env, q), e)
    requires OneLinkAway(st, cfg.maxLinksPerMemory, now, DirectMatches(env, st, q, now), e)
    ensures e.id in Ids(ResultNodes(env, cfg, st, q, now))
  {
    var direct := DirectMatches(env, st, q, now);
    var hop := HopNodes(env, cfg, st, q, now);
    ResultSplits(env, cfg, st, q, now);
    assert e.id in HopIds(env, cfg, st, q, now) by {
      HopIdIsOneLinkAway(env, cfg, st, q, now, e.id);
    }
    FindById(st.entries, e);
    ExpandedMissesNothing(st, LiveIds(st, now), Scope(env, q), Ids(direct), HopIds(env, cfg, st, q, now),
                          SatSub(q.limit, |direct|), e.id);
    assert Ids(direct) + Ids(hop) <= Ids(direct + hop) by {
      assert forall x :: x in direct || x in hop ==> x in direct + hop;
    }
  }

  /** A visible link joins `m` and `e`, whatever a bounded view shows of it. */
  ghost predicate Joined(st: Store, now: u64, m: Entry, e: Entry) {
    exists l :: l in st.links && Incident(m.id, LiveIds(st, now), now)(l) && OtherEnd(m.id, l) == e.id
  }

  /** How many visible links touch a node. */
  function Degree(st: Store, id: u64, now: u64): nat {
    |Filter(st.links, Incident(id, LiveIds(st, now), now))|
  }

  /** A view as wide as the node's degree shows every link. */
  lemma WideViewShowsAll(st: Store, cap: nat, now: u64, m: Entry, e: Entry)
    requires Joined(st, now, m, e) && Degree(st, m.id, now) <= cap
    ensures e.id in Neighbours(Viewed(st, LiveIds(st, now), cap, now)(m))
  {
    var live := LiveIds(st, now);
    var l :| l in st.links && Incident(m.id, live, now)(l) && OtherEnd(m.id, l) == e.id;
    var incident := Filter(st.links, Incident(m.id, live, now));
    FilterMembers(st.links, Incident(m.id, live, now));
    OrderedViewHoldsAll(incident, l);
    OrderedViewSize(incident);
    hide LiveIds, Filter, OrderedView;
    var shown := ViewLinks(st.links, m.id, live, cap, now);
    assert shown == OrderedView(incident);
    var k :| 0 <= k < |shown| && shown[k] == l;
    assert Neighbours(Viewed(st, live, cap, now)(m))[k] == OtherEnd(m.id, l);
  }

  lemma OrderedViewHoldsAll(incident: seq<Link>, l: Link)
    requires l in incident
    ensures l in OrderedView(incident)
  {
    var s, c, t := Filter(incident, OfKind(Supersedes)), Filter(incident, OfKind(CausedBy)),
        Filter(incident, OfKind(TemporalBefore));
    FilterMembers(incident, OfKind(Supersedes));
    FilterMembers(incident, OfKind(CausedBy));
    FilterMembers(incident, OfKind(TemporalBefore));
    SortMembers(s, NewerLinkFirst);
    SortMembers(c, NewerLinkFirst);
  }

  lemma {:induction false} KindsPartition(links: seq<Link>)
    ensures |Filter(links, OfKind(Supersedes))| + |Filter(links, OfKind(CausedBy))|
            + |Filter(links, OfKind(TemporalBefore))| == |links|
  {
    if links != [] {
      KindsPartition(Front(links));
    }
  }

  /** A narrower view shows as many links as fit. */
  lemma ViewShowsAsManyAsFit(st: Store, cap: nat, now: u64, id: u64)
    ensures |ViewLinks(st.links, id, LiveIds(st, now), cap, now)| == Min(Degree(st, id, now), cap)
  {
    hide LiveIds, Filter;
    OrderedViewSize(Filter(st.links, Incident(id, LiveIds(st, now), now)));
  }

  lemma OrderedViewSize(incident: seq<Link>)
    ensures |OrderedView(incident)| == |incident|
  {
    KindsPartition(incident);
  }

  /** Completeness without the view: when the limit is not reached, every live node in scope that a
      visible link joins to a direct match is returned, unless that match has more visible links than
      one entry's view holds. */
  lemma LinkedResultIsComplete(env: Env, cfg: Config, st: Store, q: Query, now: u64, m: Entry, e: Entry)
    requires Inv(cfg, st) && !Unevaluable(q) && |RelevantLinked(env, cfg, st, q, now)| < q.limit
    requires e in st.entries && e.id in LiveIds(st, now) && InScope(Scope(env, q), e)
    requires m in DirectMatches(env, st, q, now) && Joined(st, now, m, e)
    requires Degree(st, m.id, now) <= cfg.maxLinksPerMemory
    ensures e.id in Ids(ResultNodes(env, cfg, st, q, now))
  {
    hide Inv, RelevantLinked, ResultNodes, DirectMatches, Joined, Degree, Viewed, LiveIds;
    WideViewShowsAll(st, cfg.maxLinksPerMemory, now, m, e);
    assert OneLinkAway(st, cfg.maxLinksPerMemory, now, DirectMatches(env, st, q, now), e);
    LinkedResultMissesNothing(env, cfg, st, q, now, e);
  }

  // ---- The generation context ----------------------------------------------

  /** Exactly the visible, unsuperseded claims the speaker may be given are ranked, each once. */
  lemma ContextContents(env: Env, st: Store, namespace: Text, actor: Option<Text>, topic: Option<Text>, now: u64,
                        e: Entry)
    requires Increasing(st.entries)
    ensures var live := LiveIds(st, now);
            var all := ContextOver(env, Filter(st.entries, Live(now)), CorrectionOf(st.links, live, now),
                                   Speaker(env, namespace, actor), topic);
            && (e in all <==> && e in st.entries && Live(now)(e) && !Stale(st.links, e.id, live, now)
                              && MayReach(Speaker(env, namespace, actor), e))
            && DistinctNodes(all)
  {
    var visible := Filter(st.entries, Live(now));
    var live := LiveIds(st, now);
    var corrections := CorrectionOf(st.links, live, now);
    var may := Deliverable(Speaker(env, namespace, actor), corrections);
    FilterMembers(st.entries, Live(now));
    FilterMembers(visible, may);
    FilterIncreasing(st.entries, Live(now));
    FilterIncreasing(visible, may);
    var le := ContextBefore(env, topic, Promoted(env, visible, topic, corrections));
    SortMembers(Filter(visible, may), le);
    SortedNodesDistinct(Filter(visible, may), le);
    if e in visible {
      DroppedExactlyWhenStale(st.links, live, now, e.id);
    }
  }

  /** Topic matches and promoted corrections lead; within a bucket the newest record leads. */
  lemma ContextRanking(env: Env, st: Store, namespace: Text, actor: Option<Text>, topic: Option<Text>,
                       limit: nat, now: u64, i: nat, j: nat)
    requires i < j < |ContextFor(env, st, namespace, actor, topic, limit, now)|
    ensures var r := ContextFor(env, st, namespace, actor, topic, limit, now);
            var promoted := Promoted(env, Filter(st.entries, Live(now)), topic,
                                     CorrectionOf(st.links, LiveIds(st, now), now));
            && (Priority(env, topic, promoted, r[j]) ==> Priority(env, topic, promoted, r[i]))
            && (Priority(env, topic, promoted, r[j]) == Priority(env, topic, promoted, r[i]) ==> NewerFirst(r[i], r[j]))
  {
    var visible := Filter(st.entries, Live(now));
    var corrections := CorrectionOf(st.links, LiveIds(st, now), now);
    var promoted := Promoted(env, visible, topic, corrections);
    ContextBeforeIsOrder(env, topic, promoted);
    SortSorted(Filter(visible, Deliverable(Speaker(env, namespace, actor), corrections)),
               ContextBefore(env, topic, promoted));
    var all := ContextOver(env, visible, corrections, Speaker(env, namespace, actor), topic);
    assert ContextBefore(env, topic, promoted)(all[i], all[j]);
  }

  /** Nobody else's words reach a speaker: a delivered claim is the speaker's own, or it is
      unattributed and of a shared class. */
  lemma ContextIsPrivate(env: Env, st: Store, namespace: Text, actor: Option<Text>, topic: Option<Text>,
                         limit: nat, now: u64, e: Entry)
    requires Increasing(st.entries) && e in ContextFor(env, st, namespace, actor, topic, limit, now)
    ensures e in st.entries && e.createdAt <= now < e.expiresAt && !Stale(st.links, e.id, LiveIds(st, now), now)
    ensures var speaker := Speaker(env, namespace, actor);
            (speaker.Some? && e.source.actor == speaker) || (e.source.actor.None? && SharedClass(e.source.class_))
  {
    ContextContents(env, st, namespace, actor, topic, now, e);
  }

  /** An operator record is ranked for a speaker exactly when it is visible, current and the
      speaker's own: ownership is the only door, since the class itself is never shared. */
  lemma OperatorRecordsReachOnlyTheirOwner(env: Env, st: Store, namespace: Text, actor: Option<Text>,
                                           topic: Option<Text>, now: u64, e: Entry)
    requires Increasing(st.entries) && e in st.entries && e.source.class_ == Operator
    ensures var live := LiveIds(st, now);
            var all := ContextOver(env, Filter(st.entries, Live(now)), CorrectionOf(st.links, live, now),
                                   Speaker(env, namespace, actor), topic);
            e in all <==> && Live(now)(e) && !Stale(st.links, e.id, live, now)
                          && actor.Some? && e.source.actor == Some(env.pseudonym(namespace, actor.value))
  {
    ContextContents(env, st, namespace, actor, topic, now, e);
  }
}
