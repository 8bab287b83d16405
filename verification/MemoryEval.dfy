/** The long-range memory evaluation: a case is written through the real store, its delivery is
    measured, and an independent verifier re-derives what the report claims. */
module MemoryEval {
  import opened Seqs
  import opened Utf8
  import opened Words
  import opened MemoryModel
  import opened MemoryInvariants
  import opened MemoryWrites
  import opened MemoryReads
  import opened MemoryReadTheorems
  import opened WorkingMemoryStore

  const MAX_CONTEXT_ITEMS: nat := 12
  const MAX_TEXT_BYTES: nat := 4096
  const MAX_CONTEXT_BYTES: nat := 8192
  const TOLERANCE: real := 0.000000000001

  // ---- The fixture ---------------------------------------------------------

  datatype Claim = Claim(
    eventId: Text, actor: Option<Text>, text: Text, topic: Option<Text>, recordedAt: u64,
    eventAt: Option<u64>, supersedes: Option<Text>, causedBy: Option<Text>)

  datatype CaseQuery = CaseQuery(actor: Option<Text>, topic: Option<Text>, now: u64, chargedBytes: nat)

  datatype Case = Case(
    id: Text, cfg: Config, claims: seq<Claim>, query: CaseQuery,
    mustDeliver: seq<Text>, mustNotDeliver: seq<Text>, stale: seq<Text>)

  predicate Known(claims: seq<Claim>, id: Text) { exists c :: c in claims && c.eventId == id }

  predicate ValidCase(c: Case) {
    && c.id != [] && c.claims != []
    && (forall i, j :: 0 <= i < j < |c.claims| ==> c.claims[i].eventId != c.claims[j].eventId)
    && (forall x :: x in c.claims ==>
          && x.eventId != [] && x.text != []
          && (x.supersedes.Some? ==> Known(c.claims, x.supersedes.value))
          && (x.causedBy.Some? ==> Known(c.claims, x.causedBy.value)))
    && (forall id :: id in c.mustDeliver ==> Known(c.claims, id))
    && (forall id :: id in c.mustNotDeliver ==> Known(c.claims, id))
    && (forall id :: id in c.stale ==> id in c.mustNotDeliver)
    && (forall id :: id in c.mustDeliver ==> id !in c.mustNotDeliver)
  }

  predicate ValidFixture(cases: seq<Case>) {
    && cases != []
    && (forall i, j :: 0 <= i < j < |cases| ==> cases[i].id != cases[j].id)
    && forall c :: c in cases ==> ValidCase(c)
  }

  // ---- Writing a case through the store ------------------------------------

  const NAMESPACE: Text := [112, 117, 98, 108, 105, 99, 45, 99, 104, 97, 116]

  function AsList(t: Option<Text>): seq<Text> { if t.Some? then [t.value] else [] }

  function ClaimRequest(c: Claim): Request {
    Request(Origin(c.eventId, NAMESPACE, PublicChat, Untrusted, c.actor, Some(c.text)), AllowedMemoryAdmin,
            c.text, c.topic, AsList(c.supersedes), AsList(c.causedBy))
  }

  function WriteOne(env: Env, cfg: Config, st: Store, c: Claim): (Store, Result<Entry, WriteError>) {
    MemoryModel.RememberDurable(env, cfg, st, ClaimRequest(c), c.recordedAt)
  }

  /** The store after all claims, if the store accepted every one. */
  function WriteClaims(env: Env, cfg: Config, claims: seq<Claim>): Option<Store> {
    if claims == [] then (if ValidConfig(cfg) then Some(EMPTY) else None)
    else
      var before := WriteClaims(env, cfg, Front(claims));
      if before.None? then None
      else
        var (after, r) := WriteOne(env, cfg, before.value, Last(claims));
        if r.Ok? then Some(after) else None
  }

  /** The same through the object the runtime holds. */
  method WriteCaseClaims(env: Env, c: Case) returns (r: Option<WorkingMemory>)
    ensures r.Some? <==> WriteClaims(env, c.cfg, c.claims).Some?
    ensures r.Some? ==> fresh(r.value) && r.value.Valid() && r.value.cfg == c.cfg && r.value.env == env
                        && r.value.State() == WriteClaims(env, c.cfg, c.claims).value
  {
    hide Inv, MemoryModel.RememberDurable;
    var m := WorkingMemory.New(c.cfg, env);
    if m.None? {
      WritesNeedConfig(env, c.cfg, c.claims);
      return None;
    }
    for i := 0 to |c.claims|
      invariant fresh(m.value) && m.value.Valid() && m.value.cfg == c.cfg && m.value.env == env
      invariant WriteClaims(env, c.cfg, c.claims[..i]) == Some(m.value.State())
    {
      assert Front(c.claims[..i + 1]) == c.claims[..i];
      var written := m.value.RememberDurable(ClaimRequest(c.claims[i]), c.claims[i].recordedAt);
      if written.Err? {
        WritesStayRefused(env, c.cfg, c.claims, i + 1);
        return None;
      }
    }
    assert c.claims[..|c.claims|] == c.claims;
    r := m;
  }

  lemma {:induction false} WritesNeedConfig(env: Env, cfg: Config, claims: seq<Claim>)
    requires !ValidConfig(cfg)
    ensures WriteClaims(env, cfg, claims).None?
  {
    if claims != [] {
      WritesNeedConfig(env, cfg, Front(claims));
    }
  }

  lemma {:induction false} WritesStayRefused(env: Env, cfg: Config, claims: seq<Claim>, i: nat)
    requires i <= |claims| && WriteClaims(env, cfg, claims[..i]).None?
    ensures WriteClaims(env, cfg, claims).None?
  {
    if i == |claims| {
      assert claims[..i] == claims;
    } else {
      assert Front(claims)[..i] == claims[..i];
      WritesStayRefused(env, cfg, Front(claims), i);
    }
  }

  /** What a store written from `claims` may hold: their entries, each claim once, and causal links
      only where a claim declared them. */
  ghost predicate WrittenFrom(st: Store, claims: seq<Claim>) {
    && (forall e :: e in st.entries ==> Known(claims, e.source.eventId))
    && DistinctClaims(st.entries)
    && (forall l :: l in st.links && l.kind == CausedBy ==> DeclaredLink(st.entries, claims, l))
  }

  ghost predicate DeclaredLink(entries: seq<Entry>, claims: seq<Claim>, l: Link) {
    forall f, t :: f in entries && t in entries && f.id == l.from && t.id == l.to ==>
      Declares(claims, f.source.eventId, t.source.eventId)
  }

  predicate Declares(claims: seq<Claim>, effect: Text, cause: Text) {
    exists c :: c in claims && c.eventId == effect && c.causedBy == Some(cause)
  }

  lemma MoreClaims(claims: seq<Claim>, c: Claim, effect: Text, cause: Text, id: Text)
    ensures Declares(claims, effect, cause) ==> Declares(claims + [c], effect, cause)
    ensures Known(claims, id) ==> Known(claims + [c], id)
    ensures Known(claims + [c], c.eventId)
  {
    assert c in claims + [c];
    assert forall x :: x in claims ==> x in claims + [c];
  }

  /** The causal links after a stored write: old ones, or the new node pointing at the claim's cause. */
  lemma CausalLinksAfter(env: Env, cfg: Config, st: Store, c: Claim, l: Link)
    requires Inv(cfg, st) && WriteOne(env, cfg, st, c).1.Ok?
    requires l in WriteOne(env, cfg, st, c).0.links && l.kind == CausedBy
    ensures l in st.links
            || (l.from == st.nextId && c.causedBy.Some?
                && NamesTarget(st.entries, l.to, c.causedBy.value, c.recordedAt))
  {
    var req, now := ClaimRequest(c), c.recordedAt;
    var plan := PlanDurable(env, cfg, st, req, now).value;
    var after := MemoryModel.RememberDurable(env, cfg, st, req, now).0;
    DurableWriteOutcome(env, cfg, st, req, now);
    PlanFacts(env, cfg, st, req, now);
    InsertionKeepsProjection(cfg, st, plan.entry, now);
    LinkedStore(env, cfg, st, plan.entry, now, plan.targets, plan.causes);
    var pushed := PushBounded(cfg, st, plan.entry, now).0;
    var survivors := Ids(ProjectedEntries(cfg, st.entries, now));
    FilterMembers(after.links, Explicit);
    FilterMembers(st.links, ExplicitAlive(survivors));
    FilterMembers(DeclaredEdges(st.nextId, plan.targets, plan.causes, now), ExplicitAlive(Ids(pushed.entries)));
    assert l in Filter(after.links, Explicit);
    if l !in st.links {
      assert l in DeclaredEdges(st.nextId, plan.targets, plan.causes, now);
      CauseOfEdge(st, c, plan.causes, plan.targets, now, l);
    }
  }

  lemma CauseOfEdge(st: Store, c: Claim, causes: seq<u64>, targets: seq<u64>, now: u64, l: Link)
    requires l in DeclaredEdges(st.nextId, targets, causes, now) && l.kind == CausedBy
    requires NamesTargets(st.entries, causes, Unique(AsList(c.causedBy)), now)
    ensures l.from == st.nextId && c.causedBy.Some? && NamesTarget(st.entries, l.to, c.causedBy.value, now)
  {
    assert l in EdgesTo(st.nextId, causes, CausedBy, now);
    var k :| 0 <= k < |causes| && EdgesTo(st.nextId, causes, CausedBy, now)[k] == l;
    UniqueFacts(AsList(c.causedBy));
    assert Unique(AsList(c.causedBy))[k] in AsList(c.causedBy);
    assert NamesTarget(st.entries, causes[k], Unique(AsList(c.causedBy))[k], now);
  }

  lemma WriteOneOutcome(env: Env, cfg: Config, st: Store, c: Claim)
    requires Inv(cfg, st) && WriteOne(env, cfg, st, c).1.Ok?
    ensures var (after, stored) := WriteOne(env, cfg, st, c);
            && Inv(cfg, after)
            && after.entries == ProjectedEntries(cfg, st.entries, c.recordedAt) + [stored.value]
            && stored.value.source.eventId == c.eventId && stored.value.id == st.nextId
  {
    DurableWriteOutcome(env, cfg, st, ClaimRequest(c), c.recordedAt);
    PlanFacts(env, cfg, st, ClaimRequest(c), c.recordedAt);
  }

  /** The entries kept by an insertion are entries of the store, still one per claim. */
  lemma KeptFromClaims(cfg: Config, st: Store, claims: seq<Claim>, now: u64)
    requires EntriesOk(st.entries, st.nextId) && WrittenFrom(st, claims)
    ensures var kept := ProjectedEntries(cfg, st.entries, now);
            DistinctClaims(kept) && forall e :: e in kept ==> e in st.entries && Known(claims, e.source.eventId)
  {
    ProjectedEntriesFacts(cfg, st.entries, now);
    KeptEntriesFacts(cfg, st.entries, now);
    KeptClaimsDistinct(cfg, st.entries, now);
  }

  lemma WriteKeepsProvenance(env: Env, cfg: Config, st: Store, claims: seq<Claim>, c: Claim)
    requires Inv(cfg, st) && WrittenFrom(st, claims) && !Known(claims, c.eventId)
    requires WriteOne(env, cfg, st, c).1.Ok?
    ensures WrittenFrom(WriteOne(env, cfg, st, c).0, claims + [c])
  {
    hide WriteOne, ProjectedEntries;
    var (after, stored) := WriteOne(env, cfg, st, c);
    var kept := ProjectedEntries(cfg, st.entries, c.recordedAt);
    WriteOneOutcome(env, cfg, st, c);
    KeptFromClaims(cfg, st, claims, c.recordedAt);
    AppendedClaims(kept, stored.value, claims, c);
    forall l | l in after.links && l.kind == CausedBy ensures DeclaredLink(after.entries, claims + [c], l) {
      CausalLinksAfter(env, cfg, st, c, l);
      LinkStaysDeclared(st, after.entries, stored.value, claims, c, l);
    }
  }

  lemma AppendedClaims(kept: seq<Entry>, e: Entry, claims: seq<Claim>, c: Claim)
    requires DistinctClaims(kept) && forall x :: x in kept ==> Known(claims, x.source.eventId)
    requires e.source.eventId == c.eventId && !Known(claims, c.eventId)
    ensures DistinctClaims(kept + [e])
    ensures forall x :: x in kept + [e] ==> Known(claims + [c], x.source.eventId)
  {
    forall x | x in kept + [e] ensures Known(claims + [c], x.source.eventId) {
      MoreClaims(claims, c, [], [], x.source.eventId);
    }
    forall i | 0 <= i < |kept| ensures kept[i].source.eventId != e.source.eventId {
      assert kept[i] in kept;
    }
  }

  ghost predicate DistinctClaims(entries: seq<Entry>) {
    forall i, j :: 0 <= i < j < |entries| ==> entries[i].source.eventId != entries[j].source.eventId
  }

  lemma {:induction false} FilterKeepsClaimsDistinct(entries: seq<Entry>, p: Entry -> bool)
    requires DistinctClaims(entries)
    ensures DistinctClaims(Filter(entries, p))
  {
    if entries != [] {
      FilterKeepsClaimsDistinct(Front(entries), p);
      FilterMembers(Front(entries), p);
      var kept := Filter(Front(entries), p);
      forall i | 0 <= i < |kept| ensures kept[i].source.eventId != Last(entries).source.eventId {
        assert kept[i] in Front(entries);
      }
    }
  }

  lemma SuffixClaimsDistinct(entries: seq<Entry>, k: nat)
    requires DistinctClaims(entries) && k <= |entries|
    ensures DistinctClaims(entries[k..])
  {
  }

  lemma KeptClaimsDistinct(cfg: Config, entries: seq<Entry>, now: u64)
    requires DistinctClaims(entries)
    ensures DistinctClaims(ProjectedEntries(cfg, entries, now))
  {
    var live := Filter(entries, Unexpired(now));
    FilterKeepsClaimsDistinct(entries, Unexpired(now));
    SuffixClaimsDistinct(live, SatSub(|live|, cfg.maxEntries));
    var kept := KeptEntries(cfg, entries, now);
    SuffixClaimsDistinct(kept, Min(|kept|, SatSub(|kept| + 1, cfg.maxEntries)));
  }

  lemma LinkStaysDeclared(st: Store, entries: seq<Entry>, new_: Entry, claims: seq<Claim>, c: Claim, l: Link)
    requires EntriesOk(st.entries, st.nextId) && WrittenFrom(st, claims) && l.kind == CausedBy
    requires forall e :: e in entries && e != new_ ==> e in st.entries
    requires new_.id == st.nextId && new_.source.eventId == c.eventId
    requires NoneDangles(st.entries, st.links)
    requires l in st.links
             || (l.from == st.nextId && c.causedBy.Some?
                 && NamesTarget(st.entries, l.to, c.causedBy.value, c.recordedAt))
    ensures DeclaredLink(entries, claims + [c], l)
  {
    forall f, t | f in entries && t in entries && f.id == l.from && t.id == l.to
      ensures Declares(claims + [c], f.source.eventId, t.source.eventId)
    {
      MoreClaims(claims, c, f.source.eventId, t.source.eventId, []);
      if l in st.links {
        OldLinksAvoid(st);
        assert DeclaredLink(st.entries, claims, l);
      } else {
        var x :| x in st.entries && x.id == l.to && Target(x, c.causedBy.value, c.recordedAt);
        assert f == new_ && t != new_;
        SameIdSameEntry(st.entries, x, t);
        assert c in claims + [c];
      }
    }
  }

  lemma LastIsNew(claims: seq<Claim>)
    requires claims != [] && forall i, j :: 0 <= i < j < |claims| ==> claims[i].eventId != claims[j].eventId
    ensures !Known(Front(claims), Last(claims).eventId)
  {
    forall x | x in Front(claims) ensures x.eventId != Last(claims).eventId {
      var i :| 0 <= i < |Front(claims)| && Front(claims)[i] == x;
      assert claims[i] == x;
    }
  }

  lemma NothingWritten(cfg: Config)
    requires ValidConfig(cfg)
    ensures Inv(cfg, EMPTY) && WrittenFrom(EMPTY, [])
  {
  }

  /** A written store is sound and holds nothing the claims do not account for. */
  lemma {:induction false} WrittenStores(env: Env, cfg: Config, claims: seq<Claim>)
    requires forall i, j :: 0 <= i < j < |claims| ==> claims[i].eventId != claims[j].eventId
    requires WriteClaims(env, cfg, claims).Some?
    ensures Inv(cfg, WriteClaims(env, cfg, claims).value)
    ensures WrittenFrom(WriteClaims(env, cfg, claims).value, claims)
  {
    hide WriteOne, WrittenFrom;
    if claims == [] {
      NothingWritten(cfg);
    } else {
      var before := WriteClaims(env, cfg, Front(claims)).value;
      WrittenStores(env, cfg, Front(claims));
      LastIsNew(claims);
      WriteOneOutcome(env, cfg, before, Last(claims));
      WriteKeepsProvenance(env, cfg, before, Front(claims), Last(claims));
      assert claims == Front(claims) + [Last(claims)];
    }
  }

  // ---- Causal edges --------------------------------------------------------

  datatype Edge = Edge(effect: Text, cause: Text)

  function HasCause(c: Claim): bool { c.causedBy.Some? }

  function DeclaredEdge(c: Claim): Edge { Edge(c.eventId, if c.causedBy.Some? then c.causedBy.value else []) }

  function DeclaredCausalEdges(claims: seq<Claim>): seq<Edge> { Map(Filter(claims, HasCause), DeclaredEdge) }

  function BothDelivered(delivered: seq<Text>): Edge -> bool {
    (e: Edge) => e.effect in delivered && e.cause in delivered
  }

  function DeclaredPairsDelivered(claims: seq<Claim>, delivered: seq<Text>): nat {
    |Filter(DeclaredCausalEdges(claims), BothDelivered(delivered))|
  }

  function ClaimIdOf(entries: seq<Entry>, id: u64): Text {
    var e := Find(entries, id);
    if e.Some? then e.value.source.eventId else []
  }

  function EdgeOf(entries: seq<Entry>): Link -> Edge {
    (l: Link) => Edge(ClaimIdOf(entries, l.from), ClaimIdOf(entries, l.to))
  }

  /** The causal edges the store retains and would hand out, named by claim. */
  function RetainedCausalEdges(st: Store, now: u64): seq<Edge> {
    Map(Filter(LinkSnapshot(st, now), OfKind(CausedBy)), EdgeOf(st.entries))
  }

  lemma {:induction false} DistinctWithin<T>(s: seq<T>, t: seq<T>)
    requires Distinct(s) && forall x :: x in s ==> x in t
    ensures |s| <= |t|
    decreases |s|
  {
    if s != [] {
      var x := Last(s);
      assert x in s;
      var k :| 0 <= k < |t| && t[k] == x;
      var rest := t[..k] + t[k + 1..];
      forall y | y in Front(s) ensures y in rest {
        var i :| 0 <= i < |Front(s)| && Front(s)[i] == y;
        assert s[i] == y;
        assert y in t && y != x;
        var j :| 0 <= j < |t| && t[j] == y;
        assert if j < k then rest[j] == y else rest[j - 1] == y;
      }
      DistinctWithin(Front(s), rest);
    }
  }

  /** Two causal links of a written store that name the same claims are the same link. */
  lemma EdgeDeterminesLink(st: Store, claims: seq<Claim>, cfg: Config, a: Link, b: Link)
    requires Inv(cfg, st) && WrittenFrom(st, claims)
    requires a in st.links && b in st.links && EdgeOf(st.entries)(a) == EdgeOf(st.entries)(b)
    ensures a.from == b.from && a.to == b.to
  {
    SameClaimSameNode(st, a.from, b.from);
    SameClaimSameNode(st, a.to, b.to);
  }

  lemma SameClaimSameNode(st: Store, a: u64, b: u64)
    requires DistinctClaims(st.entries) && a in Ids(st.entries) && b in Ids(st.entries)
    requires ClaimIdOf(st.entries, a) == ClaimIdOf(st.entries, b)
    ensures a == b
  {
    var x, y := Find(st.entries, a).value, Find(st.entries, b).value;
    var i :| 0 <= i < |st.entries| && st.entries[i] == x;
    var j :| 0 <= j < |st.entries| && st.entries[j] == y;
    assert i == j;
  }

  /** A retained causal edge is one a claim declared. */
  lemma EdgeIsDeclared(st: Store, claims: seq<Claim>, cfg: Config, l: Link)
    requires Inv(cfg, st) && WrittenFrom(st, claims) && l in st.links && l.kind == CausedBy
    ensures EdgeOf(st.entries)(l) in DeclaredCausalEdges(claims)
  {
    var f, t := Find(st.entries, l.from).value, Find(st.entries, l.to).value;
    assert DeclaredLink(st.entries, claims, l);
    assert Declares(claims, f.source.eventId, t.source.eventId);
    var c :| c in claims && c.eventId == f.source.eventId && c.causedBy == Some(t.source.eventId);
    FilterMembers(claims, HasCause);
    MapMembers(Filter(claims, HasCause), DeclaredEdge);
    assert DeclaredEdge(c) in DeclaredCausalEdges(claims);
  }

  lemma RetainedLinksDistinct(st: Store, now: u64)
    requires NoDuplicateEdges(st.links)
    ensures var links := Filter(LinkSnapshot(st, now), OfKind(CausedBy));
            && NoDuplicateEdges(links)
            && forall l :: l in links ==> l in st.links && l.kind == CausedBy
  {
    var visible := VisibleLink(LiveIds(st, now), now);
    FilterKeepsEdgesDistinct(st.links, visible);
    FilterKeepsEdgesDistinct(LinkSnapshot(st, now), OfKind(CausedBy));
    FilterMembers(st.links, visible);
    FilterMembers(LinkSnapshot(st, now), OfKind(CausedBy));
  }

  lemma RetainedEdgesDistinct(st: Store, claims: seq<Claim>, cfg: Config, now: u64)
    requires Inv(cfg, st) && WrittenFrom(st, claims)
    ensures Distinct(RetainedCausalEdges(st, now))
  {
    var links := Filter(LinkSnapshot(st, now), OfKind(CausedBy));
    var edges := RetainedCausalEdges(st, now);
    RetainedLinksDistinct(st, now);
    hide Inv, WrittenFrom, LinkSnapshot, Filter;
    forall i, j | 0 <= i < j < |edges| ensures edges[i] != edges[j] {
      assert links[i] in st.links && links[j] in st.links && !SameEdge(links[i], links[j]);
      if edges[i] == edges[j] {
        EdgeDeterminesLink(st, claims, cfg, links[i], links[j]);
      }
    }
  }

  lemma RetainedEdgesDeclared(st: Store, claims: seq<Claim>, cfg: Config, now: u64)
    requires Inv(cfg, st) && WrittenFrom(st, claims)
    ensures forall e :: e in RetainedCausalEdges(st, now) ==> e in DeclaredCausalEdges(claims)
  {
    var links := Filter(LinkSnapshot(st, now), OfKind(CausedBy));
    var edges := RetainedCausalEdges(st, now);
    RetainedLinksDistinct(st, now);
    hide Inv, WrittenFrom, LinkSnapshot, Filter, DeclaredCausalEdges;
    forall e | e in edges ensures e in DeclaredCausalEdges(claims) {
      var k :| 0 <= k < |edges| && edges[k] == e;
      assert links[k] in links;
      EdgeIsDeclared(st, claims, cfg, links[k]);
    }
  }

  /** The retained causal edges inject into the fixture's declared pairs. */
  lemma RetainedEdgesInject(st: Store, claims: seq<Claim>, cfg: Config, now: u64)
    requires Inv(cfg, st) && WrittenFrom(st, claims)
    ensures Distinct(RetainedCausalEdges(st, now))
    ensures forall e :: e in RetainedCausalEdges(st, now) ==> e in DeclaredCausalEdges(claims)
  {
    hide Inv, WrittenFrom, RetainedCausalEdges, DeclaredCausalEdges, Distinct;
    RetainedEdgesDistinct(st, claims, cfg, now);
    RetainedEdgesDeclared(st, claims, cfg, now);
  }

  /** So the delivered retained edges never outnumber the delivered declared pairs. */
  lemma SpansAreSupported(st: Store, claims: seq<Claim>, cfg: Config, now: u64, delivered: seq<Text>)
    requires Inv(cfg, st) && WrittenFrom(st, claims)
    ensures |Filter(RetainedCausalEdges(st, now), BothDelivered(delivered))|
            <= DeclaredPairsDelivered(claims, delivered)
  {
    var edges, p := RetainedCausalEdges(st, now), BothDelivered(delivered);
    RetainedEdgesInject(st, claims, cfg, now);
    FilterDistinct(edges, p);
    FilterMembers(edges, p);
    FilterMembers(DeclaredCausalEdges(claims), p);
    DistinctWithin(Filter(edges, p), Filter(DeclaredCausalEdges(claims), p));
  }

  // ---- Delivery ------------------------------------------------------------

  /** Whole claims in rank order while they fit; one past its own bound is skipped. */
  function BoundedPrefix(entries: seq<Entry>, used: nat, taken: nat): seq<Entry> {
    if entries == [] || taken >= MAX_CONTEXT_ITEMS then []
    else
      var size := |entries[0].claim|;
      if size > MAX_TEXT_BYTES then BoundedPrefix(entries[1..], used, taken)
      else if used + size > MAX_CONTEXT_BYTES then []
      else [entries[0]] + BoundedPrefix(entries[1..], used + size, taken + 1)
  }

  /** The loop form. */
  method BoundedContext(entries: seq<Entry>, charged: nat) returns (r: seq<Entry>)
    ensures r == BoundedPrefix(entries, charged, 0)
  {
    r := [];
    var used: nat := charged;
    var i := 0;
    while i < |entries| && |r| < MAX_CONTEXT_ITEMS
      invariant 0 <= i <= |entries|
      invariant r + BoundedPrefix(entries[i..], used, |r|) == BoundedPrefix(entries, charged, 0)
    {
      var size := |entries[i].claim|;
      assert entries[i..][1..] == entries[i + 1..];
      if size <= MAX_TEXT_BYTES {
        if used + size > MAX_CONTEXT_BYTES {
          return;
        }
        used := used + size;
        r := r + [entries[i]];
      }
      i := i + 1;
    }
  }

  function Bytes(entries: seq<Entry>): nat {
    if entries == [] then 0 else |entries[0].claim| + Bytes(entries[1..])
  }

  /** The request bounds hold of what is delivered, and what is delivered was ranked. */
  lemma {:induction false} BoundedPrefixFits(entries: seq<Entry>, used: nat, taken: nat)
    ensures var r := BoundedPrefix(entries, used, taken);
            && (taken <= MAX_CONTEXT_ITEMS ==> taken + |r| <= MAX_CONTEXT_ITEMS)
            && (r == [] || used + Bytes(r) <= MAX_CONTEXT_BYTES)
            && (forall e :: e in r ==> e in entries && |e.claim| <= MAX_TEXT_BYTES)
  {
    if entries != [] && taken < MAX_CONTEXT_ITEMS {
      var size := |entries[0].claim|;
      assert forall e :: e in entries[1..] ==> e in entries;
      if size > MAX_TEXT_BYTES {
        BoundedPrefixFits(entries[1..], used, taken);
      } else if used + size <= MAX_CONTEXT_BYTES {
        BoundedPrefixFits(entries[1..], used + size, taken + 1);
        var rest := BoundedPrefix(entries[1..], used + size, taken + 1);
        assert ([entries[0]] + rest)[1..] == rest;
      }
    }
  }

  /** What generation is given for a case. */
  function Delivered(env: Env, st: Store, q: CaseQuery): seq<Entry> {
    BoundedPrefix(ContextFor(env, st, NAMESPACE, q.actor, q.topic, MAX_CONTEXT_ITEMS, q.now), q.chargedBytes, 0)
  }

  datatype DeliveredClaim = DeliveredClaim(claimId: Text, deliveredText: Text, retainedText: Text)

  datatype Delivery = Delivery(claims: seq<DeliveredClaim>, refused: nat, causalEdges: seq<Edge>)

  /** The text retained under an event id: the first entry that carries it. */
  function StoredClaim(entries: seq<Entry>, id: Text): Text {
    if entries == [] then []
    else if entries[0].source.eventId == id then entries[0].claim
    else StoredClaim(entries[1..], id)
  }

  function AsDelivered(st: Store): Entry -> DeliveredClaim {
    (e: Entry) => DeliveredClaim(e.source.eventId, e.claim, StoredClaim(st.entries, e.source.eventId))
  }

  function RuntimeDelivery(env: Env, st: Store, q: CaseQuery): Delivery {
    Delivery(Map(Delivered(env, st, q), AsDelivered(st)), 0, RetainedCausalEdges(st, q.now))
  }

  // ---- Measuring -----------------------------------------------------------

  datatype CaseReport = CaseReport(
    id: Text, delivered: seq<Text>, mustDeliver: seq<Text>, refusedClaims: seq<Text>, staleClaims: seq<Text>,
    causalSpans: nat, correctness: real, staleUse: nat, absentViolations: nat, refusedItems: nat,
    temporalErrors: nat, contextItems: nat, claimBytes: nat, requestBytes: nat,
    withinItems: bool, withinBytes: bool, truncated: nat)

  function ClaimId(d: DeliveredClaim): Text { d.claimId }

  function In(ids: seq<Text>): Text -> bool { (id: Text) => id in ids }

  predicate Shortened(d: DeliveredClaim) { d.deliveredText != d.retainedText }

  function EventAt(claims: seq<Claim>, id: Text): nat {
    if claims == [] then 0
    else if claims[0].eventId == id
    then (if claims[0].eventAt.Some? then claims[0].eventAt.value else claims[0].recordedAt)
    else EventAt(claims[1..], id)
  }

  /** Neighbours delivered newest-record first whose events happened the other way round. */
  function TemporalErrors(claims: seq<Claim>, delivered: seq<Text>): nat {
    if |delivered| < 2 then 0
    else TemporalErrors(claims, Front(delivered))
         + (if EventAt(claims, Last(delivered)) > EventAt(claims, delivered[|delivered| - 2]) then 1 else 0)
  }

  function Correctness(mustDeliver: seq<Text>, delivered: seq<Text>): real {
    if mustDeliver == [] then 1.0
    else |Filter(mustDeliver, In(delivered))| as real / |mustDeliver| as real
  }

  function TextBytes(claims: seq<DeliveredClaim>): nat {
    if claims == [] then 0 else |claims[0].deliveredText| + TextBytes(claims[1..])
  }

  /** The row a delivery measures to. */
  function RowOf(c: Case, d: Delivery): CaseReport {
    var delivered := Map(d.claims, ClaimId);
    var bytes := TextBytes(d.claims);
    CaseReport(
      c.id, delivered, c.mustDeliver, c.mustNotDeliver, c.stale,
      |Filter(d.causalEdges, BothDelivered(delivered))|, Correctness(c.mustDeliver, delivered),
      |Filter(delivered, In(c.stale))|, |Filter(delivered, In(c.mustNotDeliver))|, d.refused,
      TemporalErrors(c.claims, delivered), |d.claims|, bytes, c.query.chargedBytes + bytes,
      |d.claims| <= MAX_CONTEXT_ITEMS && (forall x :: x in d.claims ==> |x.deliveredText| <= MAX_TEXT_BYTES),
      c.query.chargedBytes + bytes <= MAX_CONTEXT_BYTES, |Filter(d.claims, Shortened)|)
  }

  predicate AllKnown(claims: seq<Claim>, ids: seq<Text>) { forall id :: id in ids ==> Known(claims, id) }

  /** Measuring looks up the event time of every id in a delivery of two or more claims, and stops at one
      the fixture does not declare. */
  function MeasureCase(c: Case, d: Delivery): Option<CaseReport> {
    if |d.claims| >= 2 && !AllKnown(c.claims, Map(d.claims, ClaimId)) then None else Some(RowOf(c, d))
  }

  /** One case, run: none when the store refuses a claim or delivers an undeclared one. */
  function RunCase(env: Env, c: Case): Option<CaseReport> {
    var st := WriteClaims(env, c.cfg, c.claims);
    if st.None? then None
    else
      var d := RuntimeDelivery(env, st.value, c.query);
      if !AllKnown(c.claims, Map(d.claims, ClaimId)) then None else MeasureCase(c, d)
  }

  datatype Totals = Totals(cases: nat, correctness: real, staleUse: nat, absentViolations: nat, causalSpans: nat,
                           refusedItems: nat, temporalErrors: nat, truncated: nat)

  function SumOf(reports: seq<CaseReport>, f: CaseReport -> nat): nat {
    if reports == [] then 0 else SumOf(Front(reports), f) + f(Last(reports))
  }

  function CorrectnessSum(reports: seq<CaseReport>): real {
    if reports == [] then 0.0 else CorrectnessSum(Front(reports)) + Last(reports).correctness
  }

  function StaleUse(r: CaseReport): nat { r.staleUse }
  function AbsentViolations(r: CaseReport): nat { r.absentViolations }
  function CausalSpans(r: CaseReport): nat { r.causalSpans }
  function RefusedItems(r: CaseReport): nat { r.refusedItems }
  function TemporalErrorsOf(r: CaseReport): nat { r.temporalErrors }
  function TruncatedClaims(r: CaseReport): nat { r.truncated }

  function TotalsFor(reports: seq<CaseReport>): Totals
    requires reports != []
  {
    Totals(|reports|, CorrectnessSum(reports) / |reports| as real, SumOf(reports, StaleUse),
           SumOf(reports, AbsentViolations), SumOf(reports, CausalSpans), SumOf(reports, RefusedItems),
           SumOf(reports, TemporalErrorsOf), SumOf(reports, TruncatedClaims))
  }

  /** `digest` names the fixture document. */
  datatype Report = Report(digest: Text, totals: Totals, cases: seq<CaseReport>)

  // ---- The verifier --------------------------------------------------------

  function Abs(x: real): real { if x < 0.0 then -x else x }

  /** A row agrees with the fixture's case and with its own delivered list. */
  predicate CaseAccepted(c: Case, r: CaseReport) {
    && r.mustDeliver == c.mustDeliver && r.refusedClaims == c.mustNotDeliver && r.staleClaims == c.stale
    && (forall id :: id in r.delivered ==> Known(c.claims, id))
    && 0.0 <= r.correctness <= 1.0
    && Abs(Correctness(r.mustDeliver, r.delivered) - r.correctness) <= TOLERANCE
    && |Filter(r.delivered, In(r.staleClaims))| == r.staleUse
    && |Filter(r.delivered, In(r.refusedClaims))| == r.absentViolations
    && r.causalSpans <= DeclaredPairsDelivered(c.claims, r.delivered)
  }

  predicate Close(sum: nat, declared: nat) { Abs(sum as real - declared as real) <= TOLERANCE }

  predicate TotalsAccepted(t: Totals, reports: seq<CaseReport>)
    requires reports != []
  {
    && Abs(CorrectnessSum(reports) / |reports| as real - t.correctness) <= TOLERANCE
    && Close(SumOf(reports, StaleUse), t.staleUse)
    && Close(SumOf(reports, AbsentViolations), t.absentViolations)
    && Close(SumOf(reports, TemporalErrorsOf), t.temporalErrors)
    && Close(SumOf(reports, RefusedItems), t.refusedItems)
    && Close(SumOf(reports, TruncatedClaims), t.truncated)
    && Close(SumOf(reports, CausalSpans), t.causalSpans)
  }

  predicate Accepted(cases: seq<Case>, digest: Text, report: Report) {
    && report.digest == digest
    && |report.cases| == |cases| && report.cases != []
    && report.totals.cases == |report.cases|
    && (forall i, j :: 0 <= i < j < |report.cases| ==> report.cases[i].id != report.cases[j].id)
    && (forall i :: 0 <= i < |cases| ==> report.cases[i].id == cases[i].id && CaseAccepted(cases[i], report.cases[i]))
    && TotalsAccepted(report.totals, report.cases)
  }

  /** The verifier's walk over the rows, with its set of case ids seen. */
  method ValidateReport(cases: seq<Case>, digest: Text, report: Report) returns (ok: bool)
    ensures ok <==> Accepted(cases, digest, report)
  {
    if report.digest != digest || |report.cases| != |cases| || report.cases == []
       || report.totals.cases != |report.cases| {
      return false;
    }
    var seen: set<Text> := {};
    for i := 0 to |cases|
      invariant seen == set k | 0 <= k < i :: report.cases[k].id
      invariant forall a, b :: 0 <= a < b < i ==> report.cases[a].id != report.cases[b].id
      invariant forall k :: 0 <= k < i ==> report.cases[k].id == cases[k].id && CaseAccepted(cases[k], report.cases[k])
    {
      var row := report.cases[i];
      if row.id in seen {
        return false;
      }
      seen := seen + {row.id};
      if row.id != cases[i].id || !CaseAccepted(cases[i], row) {
        return false;
      }
    }
    ok := TotalsAccepted(report.totals, report.cases);
  }

  // ---- Honest reports are accepted -----------------------------------------

  lemma DeliveredAreStored(env: Env, st: Store, q: CaseQuery)
    requires Increasing(st.entries)
    ensures forall e :: e in Delivered(env, st, q) ==> e in st.entries
  {
    var context := ContextFor(env, st, NAMESPACE, q.actor, q.topic, MAX_CONTEXT_ITEMS, q.now);
    BoundedPrefixFits(context, q.chargedBytes, 0);
    forall e | e in context ensures e in st.entries {
      ContextIsPrivate(env, st, NAMESPACE, q.actor, q.topic, MAX_CONTEXT_ITEMS, q.now, e);
    }
  }

  lemma {:induction false} StoredClaimFound(entries: seq<Entry>, e: Entry)
    requires DistinctClaims(entries) && e in entries
    ensures StoredClaim(entries, e.source.eventId) == e.claim
  {
    if entries[0] != e {
      assert e in entries[1..];
      var k :| 0 < k < |entries| && entries[k] == e;
      StoredClaimFound(entries[1..], e);
    }
  }

  lemma CorrectnessInRange(mustDeliver: seq<Text>, delivered: seq<Text>)
    ensures 0.0 <= Correctness(mustDeliver, delivered) <= 1.0
  {
    if mustDeliver != [] {
      RatioInRange(|Filter(mustDeliver, In(delivered))|, |mustDeliver|);
    }
  }

  lemma RatioInRange(a: nat, b: nat)
    requires a <= b && b > 0
    ensures 0.0 <= a as real / b as real <= 1.0
  {
  }

  lemma RuntimeClaimsAreKnown(env: Env, st: Store, claims: seq<Claim>, q: CaseQuery)
    requires Increasing(st.entries) && WrittenFrom(st, claims)
    ensures forall id :: id in Map(RuntimeDelivery(env, st, q).claims, ClaimId) ==> Known(claims, id)
  {
    hide Delivered;
    var given := Delivered(env, st, q);
    DeliveredAreStored(env, st, q);
    var ids := Map(RuntimeDelivery(env, st, q).claims, ClaimId);
    forall id | id in ids ensures Known(claims, id) {
      var k :| 0 <= k < |ids| && ids[k] == id;
      assert given[k] in given && id == given[k].source.eventId;
    }
  }

  /** Delivery hands on whole retained claims: none is shortened on the way. */
  lemma RuntimeNeverShortens(env: Env, st: Store, q: CaseQuery)
    requires Increasing(st.entries) && DistinctClaims(st.entries)
    ensures Filter(RuntimeDelivery(env, st, q).claims, Shortened) == []
  {
    hide Delivered;
    var given := Delivered(env, st, q);
    var claims := RuntimeDelivery(env, st, q).claims;
    DeliveredAreStored(env, st, q);
    forall x | x in claims ensures !Shortened(x) {
      var k :| 0 <= k < |claims| && claims[k] == x;
      assert given[k] in given;
      StoredClaimFound(st.entries, given[k]);
    }
    FilterNone(claims, Shortened);
  }

  /** A case's honest row: accepted, and no delivered claim was shortened. */
  lemma HonestRowAccepted(env: Env, c: Case, r: CaseReport)
    requires ValidCase(c) && RunCase(env, c) == Some(r)
    ensures CaseAccepted(c, r) && r.id == c.id && r.truncated == 0
  {
    hide WriteClaims, RetainedCausalEdges, Delivered, WrittenFrom, DeclaredPairsDelivered, Correctness, TemporalErrors;
    var st := WriteClaims(env, c.cfg, c.claims).value;
    assert Inv(c.cfg, st) && WrittenFrom(st, c.claims) by {
      WrittenStores(env, c.cfg, c.claims);
    }
    WrittenAreDistinct(st, c.claims);
    RuntimeClaimsAreKnown(env, st, c.claims, c.query);
    RuntimeNeverShortens(env, st, c.query);
    CorrectnessInRange(c.mustDeliver, r.delivered);
    SpansAreSupported(st, c.claims, c.cfg, c.query.now, r.delivered);
  }

  lemma {:induction false} DeliveredBytes(st: Store, given: seq<Entry>)
    ensures TextBytes(Map(given, AsDelivered(st))) == Bytes(given)
  {
    if given != [] {
      DeliveredBytes(st, given[1..]);
      assert Map(given, AsDelivered(st))[1..] == Map(given[1..], AsDelivered(st));
    }
  }

  /** The runtime's own delivery keeps the item bound always, and the byte bound exactly when the
      request had not spent it before retrieval. */
  lemma HonestRowIsWithinBounds(env: Env, c: Case, r: CaseReport)
    requires RunCase(env, c) == Some(r)
    ensures r.withinItems
    ensures r.withinBytes <==> c.query.chargedBytes <= MAX_CONTEXT_BYTES
  {
    hide WriteClaims, ContextFor, RetainedCausalEdges, DeclaredPairsDelivered, Correctness, TemporalErrors;
    var st, q := WriteClaims(env, c.cfg, c.claims).value, c.query;
    var given := Delivered(env, st, q);
    var claims := RuntimeDelivery(env, st, q).claims;
    BoundedPrefixFits(ContextFor(env, st, NAMESPACE, q.actor, q.topic, MAX_CONTEXT_ITEMS, q.now), q.chargedBytes, 0);
    DeliveredBytes(st, given);
    forall x | x in claims ensures |x.deliveredText| <= MAX_TEXT_BYTES {
      var k :| 0 <= k < |claims| && claims[k] == x;
      assert given[k] in given;
    }
  }

  /** The runtime's own run of a valid case gives a row whenever the store takes the claims: what it
      delivers is declared, so measuring never stops. */
  lemma RunCaseMeasures(env: Env, c: Case)
    requires ValidCase(c)
    ensures RunCase(env, c).Some? <==> WriteClaims(env, c.cfg, c.claims).Some?
  {
    hide WriteClaims, RetainedCausalEdges, Delivered, WrittenFrom, RowOf, Known;
    if WriteClaims(env, c.cfg, c.claims).Some? {
      var st := WriteClaims(env, c.cfg, c.claims).value;
      assert Inv(c.cfg, st) && WrittenFrom(st, c.claims) by {
        WrittenStores(env, c.cfg, c.claims);
      }
      RuntimeClaimsAreKnown(env, st, c.claims, c.query);
    }
  }

  lemma WrittenAreDistinct(st: Store, claims: seq<Claim>)
    requires WrittenFrom(st, claims)
    ensures DistinctClaims(st.entries)
  {
  }

  lemma TotalsAcceptTheirRows(reports: seq<CaseReport>)
    requires reports != []
    ensures TotalsAccepted(TotalsFor(reports), reports)
  {
  }

  /** Every report honestly built from a valid fixture is accepted by the verifier. */
  lemma HonestReportAccepted(env: Env, cases: seq<Case>, digest: Text, reports: seq<CaseReport>)
    requires ValidFixture(cases) && |reports| == |cases|
    requires forall i :: 0 <= i < |cases| ==> RunCase(env, cases[i]) == Some(reports[i])
    ensures Accepted(cases, digest, Report(digest, TotalsFor(reports), reports))
  {
    hide CaseAccepted, RunCase, ValidCase, TotalsAccepted;
    forall i | 0 <= i < |cases| ensures reports[i].id == cases[i].id && CaseAccepted(cases[i], reports[i]) {
      assert cases[i] in cases;
      HonestRowAccepted(env, cases[i], reports[i]);
    }
    TotalsAcceptTheirRows(reports);
  }

  /** Any delivery, a service's answer as much as the runtime's own: it can be measured and its row is
      accepted exactly when it names only declared claims and no more spans than the declared pairs it
      delivers. */
  lemma MeasuredRowAcceptedExactlyWhen(c: Case, d: Delivery)
    ensures var delivered := Map(d.claims, ClaimId);
            (MeasureCase(c, d).Some? && CaseAccepted(c, MeasureCase(c, d).value))
            <==> && (forall id :: id in delivered ==> Known(c.claims, id))
                 && |Filter(d.causalEdges, BothDelivered(delivered))| <= DeclaredPairsDelivered(c.claims, delivered)
  {
    hide Correctness, TemporalErrors, DeclaredPairsDelivered, Filter;
    CorrectnessInRange(c.mustDeliver, Map(d.claims, ClaimId));
  }

  /** So a report measured from answers that carry no edges, as a service's do, is accepted whenever the
      answers name only claims of the fixture. */
  lemma MeasuredReportAccepted(cases: seq<Case>, digest: Text, answers: seq<Delivery>, reports: seq<CaseReport>)
    requires ValidFixture(cases) && |answers| == |reports| == |cases|
    requires forall i :: 0 <= i < |cases| ==> MeasureCase(cases[i], answers[i]) == Some(reports[i])
    requires forall i :: 0 <= i < |cases| ==> answers[i].causalEdges == []
    requires forall i, d :: 0 <= i < |cases| && d in answers[i].claims ==> Known(cases[i].claims, d.claimId)
    ensures Accepted(cases, digest, Report(digest, TotalsFor(reports), reports))
  {
    hide CaseAccepted, ValidCase, TotalsAccepted, Known, DeclaredPairsDelivered;
    forall i | 0 <= i < |cases| ensures reports[i].id == cases[i].id && CaseAccepted(cases[i], reports[i]) {
      MeasuredRowAcceptedExactlyWhen(cases[i], answers[i]);
      var delivered := Map(answers[i].claims, ClaimId);
      forall id | id in delivered ensures Known(cases[i].claims, id) {
        var k :| 0 <= k < |delivered| && delivered[k] == id;
        assert answers[i].claims[k] in answers[i].claims;
      }
    }
    TotalsAcceptTheirRows(reports);
  }

  /** An accepted report's integer totals are exactly the sums of its rows, and each row's correctness,
      stale use and refused claims are those of its own delivered list. */
  lemma AcceptedNumbersAreDerived(cases: seq<Case>, digest: Text, report: Report)
    requires Accepted(cases, digest, report)
    ensures var t, rows := report.totals, report.cases;
            && t.staleUse == SumOf(rows, StaleUse) && t.absentViolations == SumOf(rows, AbsentViolations)
            && t.temporalErrors == SumOf(rows, TemporalErrorsOf) && t.refusedItems == SumOf(rows, RefusedItems)
            && t.truncated == SumOf(rows, TruncatedClaims) && t.causalSpans == SumOf(rows, CausalSpans)
    ensures forall i :: 0 <= i < |cases| ==>
              var r := report.cases[i];
              && Abs(Correctness(cases[i].mustDeliver, r.delivered) - r.correctness) <= TOLERANCE
              && r.staleUse == |Filter(r.delivered, In(cases[i].stale))|
              && r.absentViolations == |Filter(r.delivered, In(cases[i].mustNotDeliver))|
  {
    var t, rows := report.totals, report.cases;
    CloseIsEqual(SumOf(rows, StaleUse), t.staleUse);
    CloseIsEqual(SumOf(rows, AbsentViolations), t.absentViolations);
    CloseIsEqual(SumOf(rows, TemporalErrorsOf), t.temporalErrors);
    CloseIsEqual(SumOf(rows, RefusedItems), t.refusedItems);
    CloseIsEqual(SumOf(rows, TruncatedClaims), t.truncated);
    CloseIsEqual(SumOf(rows, CausalSpans), t.causalSpans);
  }

  lemma CloseIsEqual(a: nat, b: nat)
    ensures Close(a, b) <==> a == b
  {
    if a != b {
      assert a as real - b as real >= 1.0 || a as real - b as real <= -1.0;
    }
  }

  // ---- The comparison ------------------------------------------------------

  datatype Verdict = Improvement | NoImprovement | RejectedCandidate

  /** A row no candidate may have: stale or refused content delivered, a shortened claim, an item the
      project had to refuse, or a broken request bound. */
  predicate Regresses(r: CaseReport) {
    || r.staleUse > 0 || r.absentViolations > 0 || r.truncated > 0 || r.refusedItems > 0
    || !r.withinItems || !r.withinBytes
  }

  predicate Wins(runtime: Totals, candidate: Totals) {
    || candidate.temporalErrors as real + TOLERANCE < runtime.temporalErrors as real
    || candidate.correctness > runtime.correctness + TOLERANCE
  }

  /** No verdict unless the fixture is valid and both reports are accepted under it. */
  function Compare(cases: seq<Case>, digest: Text, runtime: Report, candidate: Report): Option<Verdict> {
    if !ValidFixture(cases) || !Accepted(cases, digest, runtime) || !Accepted(cases, digest, candidate) then None
    else if exists r :: r in candidate.cases && Regresses(r) then Some(RejectedCandidate)
    else if Wins(runtime.totals, candidate.totals) then Some(Improvement)
    else Some(NoImprovement)
  }

  /** The comparison's walk: any one row is enough to reject the candidate, whatever the totals say. */
  method CompareReports(cases: seq<Case>, digest: Text, runtime: Report, candidate: Report) returns (r: Option<Verdict>)
    ensures r == Compare(cases, digest, runtime, candidate)
  {
    hide ValidCase, CaseAccepted, TotalsAccepted, Regresses, Wins;
    if !ValidFixture(cases) {
      return None;
    }
    var runtimeOk := ValidateReport(cases, digest, runtime);
    var candidateOk := ValidateReport(cases, digest, candidate);
    if !runtimeOk || !candidateOk {
      return None;
    }
    var regression := false;
    for i := 0 to |candidate.cases|
      invariant regression <==> exists k :: 0 <= k < i && Regresses(candidate.cases[k])
    {
      regression := regression || Regresses(candidate.cases[i]);
    }
    assert regression <==> exists x :: x in candidate.cases && Regresses(x);
    r := Some(if regression then RejectedCandidate
              else if Wins(runtime.totals, candidate.totals) then Improvement
              else NoImprovement);
  }

  /** A verdict of improvement rests on the rows: fewer order errors declared in total, or a mean
      correctness that is higher up to the tolerance, with every row free of stale and refused
      content. In particular no report improves on itself. */
  lemma ImprovementRestsOnTheRows(cases: seq<Case>, digest: Text, runtime: Report, candidate: Report)
    requires Compare(cases, digest, runtime, candidate) == Some(Improvement)
    ensures runtime != candidate
    ensures var rows, base := candidate.cases, runtime.cases;
            || SumOf(rows, TemporalErrorsOf) < SumOf(base, TemporalErrorsOf)
            || CorrectnessSum(rows) / |rows| as real > CorrectnessSum(base) / |base| as real - TOLERANCE
    ensures forall i :: 0 <= i < |cases| ==>
              forall id :: id in candidate.cases[i].delivered
                  ==> id !in cases[i].stale && id !in cases[i].mustNotDeliver
  {
    AcceptedNumbersAreDerived(cases, digest, runtime);
    AcceptedNumbersAreDerived(cases, digest, candidate);
    forall i, id | 0 <= i < |cases| && id in candidate.cases[i].delivered
      ensures id !in cases[i].stale && id !in cases[i].mustNotDeliver
    {
      var r := candidate.cases[i];
      assert r in candidate.cases && !Regresses(r);
      FilterMembers(r.delivered, In(cases[i].stale));
      FilterMembers(r.delivered, In(cases[i].mustNotDeliver));
      assert Filter(r.delivered, In(cases[i].stale)) == [] && Filter(r.delivered, In(cases[i].mustNotDeliver)) == [];
    }
  }

  // ---- What the verifier takes on trust ------------------------------------

  /** A row's figures that no delivered list determines. */
  datatype Declared = Declared(temporalErrors: nat, refusedItems: nat, truncated: nat,
                               withinItems: bool, withinBytes: bool, causalSpans: nat)

  function Redeclared(r: CaseReport, d: Declared): CaseReport {
    r.(temporalErrors := d.temporalErrors, refusedItems := d.refusedItems, truncated := d.truncated,
       withinItems := d.withinItems, withinBytes := d.withinBytes, causalSpans := d.causalSpans)
  }

  function RedeclaredRows(rows: seq<CaseReport>, ds: seq<Declared>): (r: seq<CaseReport>)
    requires |rows| == |ds|
    ensures |r| == |rows| && forall i :: 0 <= i < |rows| ==> r[i] == Redeclared(rows[i], ds[i])
  {
    if rows == [] then [] else RedeclaredRows(Front(rows), Front(ds)) + [Redeclared(Last(rows), Last(ds))]
  }

  /** The report with other declared figures, totalled anew; what was delivered is untouched. */
  function Redeclare(report: Report, ds: seq<Declared>): Report
    requires |report.cases| == |ds| > 0
  {
    var rows := RedeclaredRows(report.cases, ds);
    Report(report.digest, TotalsFor(rows), rows)
  }

  /** Order errors, refused items, shortened claims and the bound flags are free: any other figures in
      their place are accepted as well; only a span count is held to what the row delivers. */
  lemma DeclaredFiguresAreFree(cases: seq<Case>, digest: Text, report: Report, ds: seq<Declared>)
    requires Accepted(cases, digest, report) && |ds| == |cases|
    ensures Accepted(cases, digest, Redeclare(report, ds))
            <==> forall i :: 0 <= i < |cases| ==>
                   ds[i].causalSpans <= DeclaredPairsDelivered(cases[i].claims, report.cases[i].delivered)
  {
    hide DeclaredPairsDelivered, TotalsAccepted, Correctness;
    var rows, after := report.cases, RedeclaredRows(report.cases, ds);
    TotalsAcceptTheirRows(after);
    forall i | 0 <= i < |cases|
      ensures CaseAccepted(cases[i], after[i])
              <==> ds[i].causalSpans <= DeclaredPairsDelivered(cases[i].claims, rows[i].delivered)
    {
      RedeclaredRow(cases[i], rows[i], ds[i]);
    }
    assert forall i :: 0 <= i < |cases| ==> after[i].id == rows[i].id == cases[i].id;
    hide CaseAccepted, RedeclaredRows;
    var redeclared := Redeclare(report, ds);
    assert redeclared.cases == after && redeclared.totals.cases == |after|;
    if Accepted(cases, digest, redeclared) {
      forall i | 0 <= i < |cases|
        ensures ds[i].causalSpans <= DeclaredPairsDelivered(cases[i].claims, rows[i].delivered)
      {
        assert CaseAccepted(cases[i], redeclared.cases[i]);
      }
    }
  }

  lemma RedeclaredRow(c: Case, r: CaseReport, d: Declared)
    requires CaseAccepted(c, r)
    ensures CaseAccepted(c, Redeclared(r, d)) <==> d.causalSpans <= DeclaredPairsDelivered(c.claims, r.delivered)
  {
  }

  const FLATTERED: Declared := Declared(0, 0, 0, true, true, 0)

  function Flattering(n: nat): (ds: seq<Declared>)
    ensures |ds| == n && forall i :: 0 <= i < n ==> ds[i] == FLATTERED
  {
    if n == 0 then [] else Flattering(n - 1) + [FLATTERED]
  }

  lemma {:induction false} NoErrorsDeclared(rows: seq<CaseReport>)
    requires forall i :: 0 <= i < |rows| ==> rows[i].temporalErrors == 0
    ensures SumOf(rows, TemporalErrorsOf) == 0
  {
    if rows != [] {
      NoErrorsDeclared(Front(rows));
    }
  }

  /** So a report can improve on paper while delivering the same: against a report with any order error,
      every accepted candidate that delivers nothing stale or refused is declared an improvement once
      its other figures are overwritten. In particular a report so overwritten beats itself. */
  lemma ImprovementOnPaper(cases: seq<Case>, digest: Text, runtime: Report, candidate: Report)
    requires ValidFixture(cases) && Accepted(cases, digest, runtime) && Accepted(cases, digest, candidate)
    requires runtime.totals.temporalErrors > 0
    requires forall i :: 0 <= i < |cases| ==>
               candidate.cases[i].staleUse == 0 && candidate.cases[i].absentViolations == 0
    ensures var better := Redeclare(candidate, Flattering(|cases|));
            && Compare(cases, digest, runtime, better) == Some(Improvement)
            && (forall i :: 0 <= i < |cases| ==> better.cases[i].delivered == candidate.cases[i].delivered)
  {
    hide ValidFixture, DeclaredPairsDelivered, Accepted;
    var ds := Flattering(|cases|);
    assert |candidate.cases| == |cases| > 0 by { SameLength(cases, digest, candidate); }
    var better := Redeclare(candidate, ds);
    DeclaredFiguresAreFree(cases, digest, candidate, ds);
    NoErrorsDeclared(better.cases);
    forall x | x in better.cases ensures !Regresses(x) {
      var k :| 0 <= k < |better.cases| && better.cases[k] == x;
    }
    assert Wins(runtime.totals, better.totals);
  }

  lemma SameLength(cases: seq<Case>, digest: Text, report: Report)
    requires Accepted(cases, digest, report)
    ensures |report.cases| == |cases| > 0
  {
  }

  /** Order errors of what the rows say was delivered. */
  function MeasuredErrors(cases: seq<Case>, rows: seq<CaseReport>): nat
    requires |cases| == |rows|
  {
    if rows == [] then 0
    else MeasuredErrors(Front(cases), Front(rows)) + TemporalErrors(Last(cases).claims, Last(rows).delivered)
  }

  /** Each row declares the order errors of its own delivered list. */
  ghost predicate Truthful(cases: seq<Case>, rows: seq<CaseReport>)
    requires |cases| == |rows|
  {
    forall i :: 0 <= i < |rows| ==> rows[i].temporalErrors == TemporalErrors(cases[i].claims, rows[i].delivered)
  }

  ghost predicate NowhereOverstated(cases: seq<Case>, rows: seq<CaseReport>)
    requires |cases| == |rows|
  {
    forall i :: 0 <= i < |rows| ==> rows[i].temporalErrors <= TemporalErrors(cases[i].claims, rows[i].delivered)
  }

  lemma {:induction false} DeclaredAgainstMeasured(cases: seq<Case>, rows: seq<CaseReport>)
    requires |cases| == |rows| && NowhereOverstated(cases, rows)
    ensures SumOf(rows, TemporalErrorsOf) <= MeasuredErrors(cases, rows)
    ensures SumOf(rows, TemporalErrorsOf) == MeasuredErrors(cases, rows) <==> Truthful(cases, rows)
  {
    hide TemporalErrors;
    if rows != [] {
      var n := |rows| - 1;
      assert forall i :: 0 <= i < n ==> rows[i] == Front(rows)[i] && cases[i] == Front(cases)[i];
      DeclaredAgainstMeasured(Front(cases), Front(rows));
      assert rows[n].temporalErrors <= TemporalErrors(cases[n].claims, rows[n].delivered);
      assert Truthful(cases, rows)
             <==> Truthful(Front(cases), Front(rows))
                  && rows[n].temporalErrors == TemporalErrors(cases[n].claims, rows[n].delivered);
    }
  }

  /** When an accepted report's order-error total may be trusted: always if every row is truthful, and
      where no row overstates its errors, only then. */
  lemma TotalTrustedExactlyWhenTruthful(cases: seq<Case>, digest: Text, report: Report)
    requires Accepted(cases, digest, report)
    ensures Truthful(cases, report.cases) ==> report.totals.temporalErrors == MeasuredErrors(cases, report.cases)
    ensures NowhereOverstated(cases, report.cases) ==>
              (report.totals.temporalErrors == MeasuredErrors(cases, report.cases) <==> Truthful(cases, report.cases))
  {
    AcceptedNumbersAreDerived(cases, digest, report);
    hide TemporalErrors, Accepted;
    if Truthful(cases, report.cases) || NowhereOverstated(cases, report.cases) {
      assert NowhereOverstated(cases, report.cases);
      DeclaredAgainstMeasured(cases, report.cases);
    }
  }

  /** Between truthful reports an improvement is one of what was delivered: fewer order errors measured,
      or a mean correctness higher up to the tolerance. */
  lemma TruthfulImprovementIsReal(cases: seq<Case>, digest: Text, runtime: Report, candidate: Report)
    requires Compare(cases, digest, runtime, candidate) == Some(Improvement)
    requires Truthful(cases, runtime.cases) && Truthful(cases, candidate.cases)
    ensures var rows, base := candidate.cases, runtime.cases;
            || MeasuredErrors(cases, rows) < MeasuredErrors(cases, base)
            || CorrectnessSum(rows) / |rows| as real > CorrectnessSum(base) / |base| as real - TOLERANCE
  {
    hide TemporalErrors, MeasuredErrors, Truthful;
    ImprovementRestsOnTheRows(cases, digest, runtime, candidate);
    TotalTrustedExactlyWhenTruthful(cases, digest, runtime);
    TotalTrustedExactlyWhenTruthful(cases, digest, candidate);
    AcceptedNumbersAreDerived(cases, digest, runtime);
    AcceptedNumbersAreDerived(cases, digest, candidate);
  }

  /** Measured rows are truthful, whoever answered. */
  lemma MeasuredRowsAreTruthful(cases: seq<Case>, answers: seq<Delivery>, rows: seq<CaseReport>)
    requires |answers| == |rows| == |cases|
    requires forall i :: 0 <= i < |cases| ==> MeasureCase(cases[i], answers[i]) == Some(rows[i])
    ensures Truthful(cases, rows)
  {
  }
}
