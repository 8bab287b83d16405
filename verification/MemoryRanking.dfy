/** What each read returns, stated on entries, links and times alone: which are selected, how they are
    ordered, and what a limit cuts. */
module MemoryRanking {
  import opened Seqs
  import opened Utf8
  import opened Words
  import opened MemoryModel
  import opened MemoryInvariants
  import opened MemoryReads
  import opened MemoryReadTheorems
  import opened MemoryReadLimits

  // ---- The terms of a read -------------------------------------------------

  predicate VisibleAt(e: Entry, now: u64) { e.createdAt <= now < e.expiresAt }

  /** The entry's topic and the asked one are the same once normalised. */
  predicate OnTopic(env: Env, topic: Option<Text>, e: Entry) {
    match (topic, e.topic)
    case (Some(asked), Some(own)) => env.normalize(own) == env.normalize(asked)
    case _ => false
  }

  /** The entry belongs to the actor, under the pseudonym of that actor's namespace. */
  predicate OwnedBy(env: Env, namespace: Text, actor: Text, e: Entry) {
    e.source.actor == Some(env.pseudonym(namespace, actor))
  }

  predicate OwnedByAsked(env: Env, q: Query, e: Entry) {
    q.actor.Some? && q.namespace.Some? && OwnedBy(env, q.namespace.value, q.actor.value, e)
  }

  predicate Later(a: Entry, b: Entry) {
    if a.createdAt == b.createdAt then a.id >= b.id else a.createdAt > b.createdAt
  }

  // ---- Ranked retrieval ----------------------------------------------------

  /** A query that names neither actor nor topic asks for everything. */
  predicate AskedFor(env: Env, q: Query, e: Entry) {
    (q.actor.None? && q.topic.None?) || OwnedByAsked(env, q, e) || OnTopic(env, q.topic, e)
  }

  /** Owner first, then topic, then the later record. */
  predicate AheadFor(env: Env, q: Query, a: Entry, b: Entry) {
    if OwnedByAsked(env, q, a) != OwnedByAsked(env, q, b) then OwnedByAsked(env, q, a)
    else if OnTopic(env, q.topic, a) != OnTopic(env, q.topic, b) then OnTopic(env, q.topic, a)
    else Later(a, b)
  }

  /** A query answers with the first `limit` of the selected entries in that order. */
  ghost predicate TopAnswer(env: Env, q: Query, entries: seq<Entry>, now: u64, wanted: Entry -> bool, r: seq<Entry>) {
    && |r| <= q.limit
    && (forall e :: e in r ==> e in entries && VisibleAt(e, now) && AskedFor(env, q, e) && wanted(e))
    && (|r| < q.limit ==>
          forall e :: e in entries && VisibleAt(e, now) && AskedFor(env, q, e) && wanted(e) ==> e in r)
    && (forall i, j :: 0 <= i < j < |r| ==> AheadFor(env, q, r[i], r[j]))
    && (forall x, y :: && x in r && y in entries && VisibleAt(y, now) && AskedFor(env, q, y) && wanted(y) && y !in r
                       ==> AheadFor(env, q, x, y))
  }

  lemma MatchTerms(env: Env, q: Query, e: Entry, now: u64)
    requires !Unevaluable(q)
    ensures ActorMatch(Scope(env, q), e) <==> OwnedByAsked(env, q, e)
    ensures TopicMatch(env, q.topic, e) <==> OnTopic(env, q.topic, e)
    ensures Matches(env, Scope(env, q), q.topic)(e) <==> AskedFor(env, q, e)
    ensures Live(now)(e) <==> VisibleAt(e, now)
  {
  }

  lemma RankTerms(env: Env, q: Query, a: Entry, b: Entry)
    requires !Unevaluable(q)
    ensures RankedBefore(env, Scope(env, q), q.topic)(a, b) <==> AheadFor(env, q, a, b)
  {
    MatchTerms(env, q, a, 0);
    MatchTerms(env, q, b, 0);
    var scope := Scope(env, q);
    hide Scope, ActorMatch, TopicMatch, OwnedByAsked, OnTopic, Matches;
    var s, t := Signal(env, scope, q.topic, a), Signal(env, scope, q.topic, b);
    assert s == (if OwnedByAsked(env, q, a) then 2 else 0) + (if OnTopic(env, q.topic, a) then 1 else 0);
    assert t == (if OwnedByAsked(env, q, b) then 2 else 0) + (if OnTopic(env, q.topic, b) then 1 else 0);
    assert NewerFirst(a, b) <==> Later(a, b);
    assert RankedBefore(env, scope, q.topic)(a, b) <==> s > t || (s == t && NewerFirst(a, b));
  }

  function Both(p: Entry -> bool, w: Entry -> bool): Entry -> bool { (e: Entry) => p(e) && w(e) }

  /** The selection and the order behind a query. */
  function Selects(env: Env, q: Query, now: u64, wanted: Entry -> bool): Entry -> bool {
    Both(Both(Live(now), Matches(env, Scope(env, q), q.topic)), wanted)
  }

  lemma TopIsAnswer(env: Env, q: Query, entries: seq<Entry>, now: u64, wanted: Entry -> bool)
    requires !Unevaluable(q)
    ensures TopAnswer(env, q, entries, now, wanted,
                      Take(SortBy(Filter(entries, Selects(env, q, now, wanted)),
                                  RankedBefore(env, Scope(env, q), q.topic)),
                           q.limit))
  {
    var p, le := Selects(env, q, now, wanted), RankedBefore(env, Scope(env, q), q.topic);
    RankedBeforeIsOrder(env, Scope(env, q), q.topic);
    TopOfSelection(entries, p, le, q.limit);
    forall e ensures p(e) <==> VisibleAt(e, now) && AskedFor(env, q, e) && wanted(e) {
      MatchTerms(env, q, e, now);
    }
    forall a, b ensures le(a, b) <==> AheadFor(env, q, a, b) {
      RankTerms(env, q, a, b);
    }
    hide SortBy, Filter, AheadFor, AskedFor, VisibleAt, RankedBefore, Selects, Take;
  }

  /** `relevant`, exactly. A query that cannot be evaluated, or asks for none, has no answer. */
  lemma RelevantExactly(env: Env, st: Store, q: Query, now: u64)
    ensures (q.limit == 0 || (q.actor.Some? && q.namespace.None?)) ==> Relevant(env, st, q, now) == []
    ensures (q.actor.Some? ==> q.namespace.Some?) ==>
              TopAnswer(env, q, st.entries, now, (e: Entry) => true, Relevant(env, st, q, now))
  {
    if !Unevaluable(q) {
      var all := (e: Entry) => true;
      var m := Matches(env, Scope(env, q), q.topic);
      TopIsAnswer(env, q, st.entries, now, all);
      FilterFuse(st.entries, Live(now), m, Selects(env, q, now, all));
    }
  }

  /** Direct matches of the linked query, exactly: with an actor named, only that actor's entries. */
  lemma DirectExactly(env: Env, st: Store, q: Query, now: u64)
    requires q.actor.Some? ==> q.namespace.Some?
    ensures TopAnswer(env, q, st.entries, now, (e: Entry) => q.actor.Some? ==> OwnedByAsked(env, q, e),
                      DirectMatches(env, st, q, now))
  {
    var own := (e: Entry) => q.actor.Some? ==> OwnedByAsked(env, q, e);
    var scope := Scope(env, q);
    var m, le := Matches(env, scope, q.topic), RankedBefore(env, scope, q.topic);
    ScopeAfterLimitIsScopeBeforeLimit(env, st, q, now);
    RankedBeforeIsOrder(env, scope, q.topic);
    FilterSort(Filter(Filter(st.entries, Live(now)), m), le, Scoped(scope));
    FilterFuse(st.entries, Live(now), m, Both(Live(now), m));
    FilterFuse(st.entries, Both(Live(now), m), Scoped(scope), Selects(env, q, now, own));
    TopIsAnswer(env, q, st.entries, now, own);
  }

  // ---- Linked retrieval ----------------------------------------------------

  ghost predicate VisibleId(st: Store, now: u64, id: u64) {
    exists e :: e in st.entries && e.id == id && VisibleAt(e, now)
  }

  /** A link recorded by `now` between two nodes that are visible then. */
  ghost predicate Shows(st: Store, now: u64, l: Link) {
    l in st.links && l.createdAt <= now && VisibleId(st, now, l.from) && VisibleId(st, now, l.to)
  }

  predicate Between(l: Link, a: u64, b: u64) { (l.from == a && l.to == b) || (l.from == b && l.to == a) }

  lemma LiveIdsAreVisible(st: Store, now: u64, id: u64)
    ensures id in LiveIds(st, now) <==> VisibleId(st, now, id)
  {
    FilterMembers(st.entries, Live(now));
  }

  /** The link snapshot holds exactly the links that show. */
  lemma SnapshotExactly(st: Store, now: u64, l: Link)
    ensures l in LinkSnapshot(st, now) <==> Shows(st, now, l)
  {
    FilterMembers(st.links, VisibleLink(LiveIds(st, now), now));
    LiveIdsAreVisible(st, now, l.from);
    LiveIdsAreVisible(st, now, l.to);
  }

  lemma JoinedExactly(st: Store, now: u64, m: Entry, e: Entry)
    ensures Joined(st, now, m, e) <==> exists l :: Shows(st, now, l) && Between(l, m.id, e.id)
  {
    forall l | l in st.links
      ensures Incident(m.id, LiveIds(st, now), now)(l) && OtherEnd(m.id, l) == e.id
              <==> Shows(st, now, l) && Between(l, m.id, e.id)
    {
      LiveIdsAreVisible(st, now, l.from);
      LiveIdsAreVisible(st, now, l.to);
    }
  }

  /** Everything a linked query returns beyond its direct matches is joined to one of them by a link that
      shows, and belongs to the actor where one is named. */
  lemma LinkedNodesAreJoined(env: Env, cfg: Config, st: Store, q: Query, now: u64, e: Entry)
    requires Inv(cfg, st) && (q.actor.Some? ==> q.namespace.Some?)
    requires e in ResultNodes(env, cfg, st, q, now) && e !in DirectMatches(env, st, q, now)
    ensures e in st.entries && VisibleAt(e, now) && (q.actor.Some? ==> OwnedByAsked(env, q, e))
    ensures exists m, l :: m in DirectMatches(env, st, q, now) && Shows(st, now, l) && Between(l, m.id, e.id)
  {
    var direct, r := DirectMatches(env, st, q, now), ResultNodes(env, cfg, st, q, now);
    LinkedResult(env, cfg, st, q, now);
    InHeadOrTail(r, |direct|, e);
    var m := MatchBeside(st, cfg.maxLinksPerMemory, now, direct, e);
    JoinedExactly(st, now, m, e);
    LiveIdsAreVisible(st, now, e.id);
    VisibleById(cfg, st, now, e);
  }

  /** How many links that show touch a node. */
  ghost function ShownAt(st: Store, now: u64, id: u64): nat {
    |Filter(st.links, (l: Link) => Shows(st, now, l) && (l.from == id || l.to == id))|
  }

  /** With room left a linked query misses no visible entry of its actor that a link joins to a direct match,
      unless that match has more links than one view holds. */
  lemma LinkedNodesAreAllReturned(env: Env, cfg: Config, st: Store, q: Query, now: u64, m: Entry, l: Link, e: Entry)
    requires Inv(cfg, st) && (q.actor.Some? ==> q.namespace.Some?) && |RelevantLinked(env, cfg, st, q, now)| < q.limit
    requires m in DirectMatches(env, st, q, now) && Shows(st, now, l) && Between(l, m.id, e.id)
    requires e in st.entries && (q.actor.Some? ==> OwnedByAsked(env, q, e))
    requires ShownAt(st, now, m.id) <= cfg.maxLinksPerMemory
    ensures e in ResultNodes(env, cfg, st, q, now)
  {
    JoinedExactly(st, now, m, e);
    ShownAtExactly(st, now, m.id);
    LiveIdsAreVisible(st, now, e.id);
    MatchTerms(env, q, e, now);
    LinkedResult(env, cfg, st, q, now);
    hide ShownAt, Degree, Joined, Shows, Between, LiveIds, DirectMatches, ResultNodes, RelevantLinked, Inv;
    LinkedResultIsComplete(env, cfg, st, q, now, m, e);
    ReturnedById(cfg, st, ResultNodes(env, cfg, st, q, now), e);
  }

  lemma ShownAtExactly(st: Store, now: u64, id: u64)
    ensures ShownAt(st, now, id) == Degree(st, id, now)
  {
    var touching := (l: Link) => Shows(st, now, l) && (l.from == id || l.to == id);
    forall l | l in st.links ensures Incident(id, LiveIds(st, now), now)(l) == touching(l) {
      LiveIdsAreVisible(st, now, l.from);
      LiveIdsAreVisible(st, now, l.to);
    }
    FilterAgree(st.links, Incident(id, LiveIds(st, now), now), touching);
  }

  lemma VisibleById(cfg: Config, st: Store, now: u64, e: Entry)
    requires Inv(cfg, st) && e in st.entries && VisibleId(st, now, e.id)
    ensures VisibleAt(e, now)
  {
    var x :| x in st.entries && x.id == e.id && VisibleAt(x, now);
    SameIdSameEntry(st.entries, x, e);
  }

  lemma MatchBeside(st: Store, cap: nat, now: u64, direct: seq<Entry>, e: Entry) returns (m: Entry)
    requires OneLinkAway(st, cap, now, direct, e)
    ensures m in direct && Joined(st, now, m, e)
  {
    m :| m in direct && e.id in Neighbours(Viewed(st, LiveIds(st, now), cap, now)(m));
    var live := LiveIds(st, now);
    var view := ViewLinks(st.links, m.id, live, cap, now);
    var k :| 0 <= k < |view| && OtherEnd(m.id, view[k]) == e.id;
    assert view[k] in view;
    ViewMembers(st.links, m.id, live, cap, now);
  }

  /** A view holds links that touch the node and show. */
  lemma ViewMembers(links: seq<Link>, id: u64, live: set<u64>, cap: nat, now: u64)
    ensures forall l :: l in ViewLinks(links, id, live, cap, now) ==> l in links && Incident(id, live, now)(l)
  {
    var incident := Filter(links, Incident(id, live, now));
    FilterMembers(links, Incident(id, live, now));
    FilterMembers(incident, OfKind(Supersedes));
    FilterMembers(incident, OfKind(CausedBy));
    FilterMembers(incident, OfKind(TemporalBefore));
    SortMembers(Filter(incident, OfKind(Supersedes)), NewerLinkFirst);
    SortMembers(Filter(incident, OfKind(CausedBy)), NewerLinkFirst);
  }

  // ---- The link view -------------------------------------------------------

  /** Supersessions first, then causes, then the temporal spine. */
  function Place(l: Link): nat {
    match l.kind
    case Supersedes => 0
    case CausedBy => 1
    case TemporalBefore => 2
  }

  predicate LaterLink(a: Link, b: Link) {
    if a.createdAt != b.createdAt then a.createdAt > b.createdAt
    else if a.from != b.from then a.from > b.from
    else a.to >= b.to
  }

  predicate ShownBefore(a: Link, b: Link) {
    Place(a) < Place(b) || (Place(a) == Place(b) && (a.kind != TemporalBefore ==> LaterLink(a, b)))
  }

  /** A node's view, exactly up to the order among temporal links: every link is one that shows and touches
      the node, all of them where they fit the cap, in order of kind and then of time. */
  lemma ViewExactly(st: Store, cap: nat, now: u64, id: u64)
    ensures var view := ViewLinks(st.links, id, LiveIds(st, now), cap, now);
            && |view| <= cap
            && (forall l :: l in view ==> Shows(st, now, l) && (l.from == id || l.to == id))
            && (|view| < cap ==> forall l :: Shows(st, now, l) && (l.from == id || l.to == id) ==> l in view)
            && (forall i, j :: 0 <= i < j < |view| ==> ShownBefore(view[i], view[j]))
  {
    var live := LiveIds(st, now);
    var incident := Filter(st.links, Incident(id, live, now));
    forall l ensures l in incident <==> Shows(st, now, l) && (l.from == id || l.to == id) {
      FilterMembers(st.links, Incident(id, live, now));
      LiveIdsAreVisible(st, now, l.from);
      LiveIdsAreVisible(st, now, l.to);
    }
    OrderedViewMembers(incident);
    OrderedViewIsOrdered(incident);
    assert ViewLinks(st.links, id, live, cap, now) == Take(OrderedView(incident), cap);
    hide Shows, Filter, OrderedView, ShownBefore, LiveIds, ViewLinks;
    var all := OrderedView(incident);
    var view := Take(all, cap);
    forall l | l in view ensures l in all {
      var k :| 0 <= k < |view| && view[k] == l;
      assert all[k] == l;
    }
  }

  lemma OrderedViewMembers(incident: seq<Link>)
    ensures forall l :: l in OrderedView(incident) <==> l in incident
  {
    FilterMembers(incident, OfKind(Supersedes));
    FilterMembers(incident, OfKind(CausedBy));
    FilterMembers(incident, OfKind(TemporalBefore));
    SortMembers(Filter(incident, OfKind(Supersedes)), NewerLinkFirst);
    SortMembers(Filter(incident, OfKind(CausedBy)), NewerLinkFirst);
  }

  lemma OrderedViewIsOrdered(incident: seq<Link>)
    ensures var view := OrderedView(incident);
            forall i, j :: 0 <= i < j < |view| ==> ShownBefore(view[i], view[j])
  {
    var s, c, t := KindPart(incident, Supersedes), KindPart(incident, CausedBy),
        Filter(incident, OfKind(TemporalBefore));
    assert OrderedView(incident) == s + c + t;
    SortedKind(incident, Supersedes);
    SortedKind(incident, CausedBy);
    FilterMembers(incident, OfKind(TemporalBefore));
    forall k | 0 <= k < |t| ensures t[k].kind == TemporalBefore {
      assert t[k] in t;
    }
    hide KindPart, Filter, OrderedView, ShownBefore;
    ThreeParts(s, c, t);
  }

  function KindPart(incident: seq<Link>, kind: LinkKind): seq<Link> {
    SortBy(Filter(incident, OfKind(kind)), NewerLinkFirst)
  }

  lemma ThreeParts(s: seq<Link>, c: seq<Link>, t: seq<Link>)
    requires forall k :: 0 <= k < |s| ==> s[k].kind == Supersedes
    requires forall k :: 0 <= k < |c| ==> c[k].kind == CausedBy
    requires forall k :: 0 <= k < |t| ==> t[k].kind == TemporalBefore
    requires forall i, j :: 0 <= i < j < |s| ==> LaterLink(s[i], s[j])
    requires forall i, j :: 0 <= i < j < |c| ==> LaterLink(c[i], c[j])
    ensures forall i, j :: 0 <= i < j < |s + c + t| ==> ShownBefore((s + c + t)[i], (s + c + t)[j])
  {
    var view := s + c + t;
    forall i, j | 0 <= i < j < |view| ensures ShownBefore(view[i], view[j]) {
      assert view[i] == if i < |s| then s[i] else if i < |s| + |c| then c[i - |s|] else t[i - |s| - |c|];
      assert view[j] == if j < |s| then s[j] else if j < |s| + |c| then c[j - |s|] else t[j - |s| - |c|];
    }
  }

  lemma SortedKind(incident: seq<Link>, kind: LinkKind)
    ensures var s := KindPart(incident, kind);
            && (forall k :: 0 <= k < |s| ==> s[k].kind == kind)
            && (forall i, j :: 0 <= i < j < |s| ==> LaterLink(s[i], s[j]))
  {
    var found := Filter(incident, OfKind(kind));
    var s := SortBy(found, NewerLinkFirst);
    FilterMembers(incident, OfKind(kind));
    SortMembers(found, NewerLinkFirst);
    NewerLinkFirstIsOrder();
    SortSorted(found, NewerLinkFirst);
    forall k | 0 <= k < |s| ensures s[k].kind == kind {
      assert s[k] in s;
    }
  }

  // ---- The generation context ----------------------------------------------

  /** The speaker's own entry, or one that belongs to nobody and whose source is the stream's. */
  predicate MayHear(env: Env, namespace: Text, actor: Option<Text>, e: Entry) {
    || (actor.Some? && OwnedBy(env, namespace, actor.value, e))
    || (e.source.actor.None?
        && (e.source.class_ == System || e.source.class_ == Speech || e.source.class_ == Game
            || e.source.class_ == Stream || e.source.class_ == Timer))
  }

  /** The link corrects `id` at `now`: a supersession recorded by then whose newer node is visible. */
  ghost predicate Correcting(st: Store, now: u64, l: Link, id: u64) {
    l.kind == Supersedes && l.to == id && l.createdAt <= now && VisibleId(st, now, l.from)
  }

  ghost predicate Corrected(st: Store, now: u64, id: u64) {
    exists k :: 0 <= k < |st.links| && Correcting(st, now, st.links[k], id)
  }

  /** `newer` is the first recorded correction of `id`. */
  ghost predicate FirstCorrection(st: Store, now: u64, id: u64, newer: u64) {
    exists k :: && 0 <= k < |st.links| && Correcting(st, now, st.links[k], id) && st.links[k].from == newer
                && forall j :: 0 <= j < k ==> !Correcting(st, now, st.links[j], id)
  }

  lemma CorrectsExactly(st: Store, now: u64, l: Link, id: u64)
    ensures Corrects(LiveIds(st, now), now, l) && l.to == id <==> Correcting(st, now, l, id)
  {
    LiveIdsAreVisible(st, now, l.from);
  }

  /** The correction a read applies is the first recorded one. */
  lemma {:induction false} CorrectionIsFirst(st: Store, links: seq<Link>, now: u64, id: u64)
    ensures var live, at := LiveIds(st, now), st.(links := links);
            && (id in CorrectionOf(links, live, now) <==> Corrected(at, now, id))
            && (id in CorrectionOf(links, live, now)
                ==> FirstCorrection(at, now, id, CorrectionOf(links, live, now)[id]))
  {
    var live, at := LiveIds(st, now), st.(links := links);
    if links != [] {
      var n := |links| - 1;
      var before := st.(links := Front(links));
      CorrectionIsFirst(st, Front(links), now, id);
      CorrectsExactly(st, now, links[n], id);
      forall k | 0 <= k < |links|
        ensures Correcting(at, now, links[k], id) <==> Correcting(st, now, links[k], id)
        ensures k < n ==> (Correcting(before, now, before.links[k], id) <==> Correcting(st, now, links[k], id))
      {
        SameVisibility(st, before, now, links[k].from);
        SameVisibility(st, at, now, links[k].from);
      }
      hide Correcting, LiveIds;
      if Corrected(before, now, id) {
        var k :| && 0 <= k < n && Correcting(before, now, before.links[k], id)
                 && before.links[k].from == CorrectionOf(Front(links), live, now)[id]
                 && forall j :: 0 <= j < k ==> !Correcting(before, now, before.links[j], id);
        assert Correcting(at, now, at.links[k], id);
        assert forall j :: 0 <= j < k ==> !Correcting(at, now, at.links[j], id);
      } else {
        assert forall k :: 0 <= k < n ==> !Correcting(before, now, before.links[k], id);
        assert forall k :: 0 <= k < n ==> !Correcting(at, now, at.links[k], id);
      }
    }
  }

  lemma SameVisibility(a: Store, b: Store, now: u64, id: u64)
    requires a.entries == b.entries
    ensures VisibleId(a, now, id) <==> VisibleId(b, now, id)
  {
  }

  /** The entry is on the asked topic, or is the first recorded correction of a visible one that is. */
  ghost predicate Leads(env: Env, st: Store, topic: Option<Text>, now: u64, e: Entry) {
    || OnTopic(env, topic, e)
    || exists m :: m in st.entries && VisibleAt(m, now) && OnTopic(env, topic, m)
        && FirstCorrection(st, now, m.id, e.id)
  }

  /** Leaders first, then the later record. */
  ghost predicate AheadInContext(env: Env, st: Store, topic: Option<Text>, now: u64, a: Entry, b: Entry) {
    if Leads(env, st, topic, now, a) != Leads(env, st, topic, now, b) then Leads(env, st, topic, now, a)
    else Later(a, b)
  }

  /** What may be delivered: visible, not corrected, and meant for the speaker. */
  ghost predicate Eligible(env: Env, st: Store, namespace: Text, actor: Option<Text>, now: u64, e: Entry) {
    e in st.entries && VisibleAt(e, now) && !Corrected(st, now, e.id) && MayHear(env, namespace, actor, e)
  }

  lemma LeadsExactly(env: Env, st: Store, topic: Option<Text>, now: u64, e: Entry)
    ensures Priority(env, topic, PromotedAt(env, st, topic, now), e) <==> Leads(env, st, topic, now, e)
  {
    PromotedOnAccountOf(env, st, topic, now, e.id);
    assert st.(links := st.links) == st;
    forall m | m in st.entries
      ensures m.id in Corrections(st, now) && Corrections(st, now)[m.id] == e.id
              <==> FirstCorrection(st, now, m.id, e.id)
      ensures Live(now)(m) <==> VisibleAt(m, now)
      ensures TopicMatch(env, topic, m) <==> OnTopic(env, topic, m)
    {
      CorrectionIsFirst(st, st.links, now, m.id);
      FirstIsUnique(st, now, m.id);
    }
    hide FirstCorrection, Corrections, PromotedAt;
  }

  lemma FirstIsUnique(st: Store, now: u64, id: u64)
    ensures forall a, b :: FirstCorrection(st, now, id, a) && FirstCorrection(st, now, id, b) ==> a == b
    ensures forall a :: FirstCorrection(st, now, id, a) ==> Corrected(st, now, id)
  {
    hide Correcting;
    forall a, b | FirstCorrection(st, now, id, a) && FirstCorrection(st, now, id, b) ensures a == b {
      var i :| && 0 <= i < |st.links| && Correcting(st, now, st.links[i], id) && st.links[i].from == a
               && forall j :: 0 <= j < i ==> !Correcting(st, now, st.links[j], id);
      var k :| && 0 <= k < |st.links| && Correcting(st, now, st.links[k], id) && st.links[k].from == b
               && forall j :: 0 <= j < k ==> !Correcting(st, now, st.links[j], id);
      assert i == k;
    }
  }

  lemma EligibleExactly(env: Env, st: Store, namespace: Text, actor: Option<Text>, now: u64, e: Entry)
    ensures e in st.entries && Live(now)(e) && Deliverable(Speaker(env, namespace, actor), Corrections(st, now))(e)
            <==> Eligible(env, st, namespace, actor, now, e)
  {
    assert st.(links := st.links) == st;
    CorrectionIsFirst(st, st.links, now, e.id);
    hide Corrected, CorrectionOf;
  }

  /** `context_for`, exactly: the first `limit` of the eligible entries, leaders first. So a topic match is
      never cut while an entry that is neither on the topic nor a promoted correction is delivered. */
  lemma ContextExactly(env: Env, st: Store, namespace: Text, actor: Option<Text>, topic: Option<Text>,
                       limit: nat, now: u64)
    ensures var r := ContextFor(env, st, namespace, actor, topic, limit, now);
            && |r| <= limit
            && (forall e :: e in r ==> Eligible(env, st, namespace, actor, now, e))
            && (|r| < limit ==> forall e :: Eligible(env, st, namespace, actor, now, e) ==> e in r)
            && (forall i, j :: 0 <= i < j < |r| ==> AheadInContext(env, st, topic, now, r[i], r[j]))
            && (forall x, y :: x in r && Eligible(env, st, namespace, actor, now, y) && y !in r
                               ==> AheadInContext(env, st, topic, now, x, y))
  {
    var visible, may := Filter(st.entries, Live(now)),
        Deliverable(Speaker(env, namespace, actor), Corrections(st, now));
    var promoted := PromotedAt(env, st, topic, now);
    var le := ContextBefore(env, topic, promoted);
    ContextBeforeIsOrder(env, topic, promoted);
    TopOfSelection(visible, may, le, limit);
    FilterMembers(st.entries, Live(now));
    forall e ensures e in visible && may(e) <==> Eligible(env, st, namespace, actor, now, e) {
      EligibleExactly(env, st, namespace, actor, now, e);
    }
    forall a, b ensures le(a, b) <==> AheadInContext(env, st, topic, now, a, b) {
      LeadsExactly(env, st, topic, now, a);
      LeadsExactly(env, st, topic, now, b);
      assert NewerFirst(a, b) <==> Later(a, b);
    }
    assert ContextFor(env, st, namespace, actor, topic, limit, now) == Take(SortBy(Filter(visible, may), le), limit);
    hide SortBy, Filter, Take, ContextFor, Eligible, AheadInContext, ContextBefore, Deliverable, Live, PromotedAt;
  }

  /** In particular, ahead of a delivered topic match there are only topic matches and first corrections of
      visible topic matches, and no deliverable topic match is cut while another kind is delivered. */
  lemma TopicMatchesLead(env: Env, st: Store, namespace: Text, actor: Option<Text>, topic: Option<Text>,
                         limit: nat, now: u64)
    ensures var r := ContextFor(env, st, namespace, actor, topic, limit, now);
            && (forall i, j :: 0 <= i < j < |r| && OnTopic(env, topic, r[j]) ==> Leads(env, st, topic, now, r[i]))
            && (forall x, y ::
                  x in r && y !in r && Eligible(env, st, namespace, actor, now, y) && OnTopic(env, topic, y)
                  ==> Leads(env, st, topic, now, x))
  {
    hide ContextFor, Eligible;
    ContextExactly(env, st, namespace, actor, topic, limit, now);
  }

  // ---- Compaction ----------------------------------------------------------

  /** Unexpired entries after position `k`. */
  function LaterUnexpired(entries: seq<Entry>, k: nat, now: u64): nat
    requires k <= |entries|
    decreases |entries| - k
  {
    if k == |entries| then 0 else (if entries[k].expiresAt > now then 1 else 0) + LaterUnexpired(entries, k + 1, now)
  }

  /** Compaction, exactly: an entry stays if and only if it is unexpired and fewer than the bound of
      unexpired ones were stored after it. */
  lemma {:induction false} CompactionKeepsExactly(cfg: Config, entries: seq<Entry>, now: u64, k: nat)
    requires Increasing(entries) && k < |entries|
    ensures entries[k] in KeptEntries(cfg, entries, now)
            <==> entries[k].expiresAt > now && LaterUnexpired(entries, k + 1, now) < cfg.maxEntries
  {
    var live := Unexpired(now);
    var a, b := entries[..k], entries[k + 1..];
    FilterSplit(entries, k, live);
    LaterIsCount(entries, k + 1, now);
    FilterMembers(entries, live);
    FilterIncreasing(entries, live);
    var all, i := Filter(entries, live), |Filter(a, live)|;
    if live(entries[k]) {
      assert all == Filter(a, live) + [entries[k]] + Filter(b, live) && all[i] == entries[k];
      TailHolds(all, SatSub(|all|, cfg.maxEntries), i);
    }
  }

  lemma TailHolds(s: seq<Entry>, cut: nat, i: nat)
    requires Increasing(s) && i < |s| && cut <= |s|
    ensures s[i] in s[cut..] <==> i >= cut
  {
    if i >= cut {
      assert s[cut..][i - cut] == s[i];
    }
    if s[i] in s[cut..] {
      var j :| 0 <= j < |s[cut..]| && s[cut..][j] == s[i];
      assert s[cut + j].id == s[i].id;
    }
  }

  lemma {:induction false} LaterIsCount(entries: seq<Entry>, k: nat, now: u64)
    requires k <= |entries|
    ensures LaterUnexpired(entries, k, now) == |Filter(entries[k..], Unexpired(now))|
    decreases |entries| - k
  {
    if k < |entries| {
      LaterIsCount(entries, k + 1, now);
      assert entries[k..] == [entries[k]] + entries[k + 1..];
      FilterConcat([entries[k]], entries[k + 1..], Unexpired(now));
      assert Front([entries[k]]) == [];
    }
  }
}
