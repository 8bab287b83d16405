/** The retained-memory store: its values and, as functions on them, what one write does.
    The class in WorkingMemory.dfy performs the same steps in place. */
module MemoryModel {
  import opened Seqs
  import opened Utf8
  import opened Words

  function SatMul(a: u64, b: u64): u64 { if a * b <= U64_MAX then a * b else U64_MAX }

  // ---- Values --------------------------------------------------------------

  datatype Retention = Working | Durable

  datatype SourceClass = PublicChat | Donation | Speech | Game | Stream | Timer | Operator | System

  datatype Trust = Untrusted | SemiTrusted | Trusted

  datatype GateDecision = WorkingOnly | AllowedSystemSource | AllowedMemoryAdmin

  datatype Epistemic = VerifiedFact | ViewerClaim | PerformerExperience | PersonaOpinion | Observation

  datatype Source = Source(
    eventId: Text, namespace: Text, class_: SourceClass, trust: Trust, actor: Option<Text>)

  datatype Entry = Entry(
    source: Source, claim: Text, topic: Option<Text>, createdAt: u64, expiresAt: u64,
    retention: Retention, decision: GateDecision, epistemic: Epistemic, id: u64)

  datatype LinkKind = TemporalBefore | Supersedes | CausedBy

  datatype Link = Link(from: u64, to: u64, kind: LinkKind, createdAt: u64)

  datatype Config = Config(
    maxEntries: nat, workingTtl: u64, durableTtl: u64, maxClaimBytes: nat, maxTopicBytes: nat,
    maxCompactionRecords: nat, maxLinks: nat, maxLinksPerMemory: u64)

  /** The constructor's configuration check. */
  predicate ValidConfig(cfg: Config) {
    && cfg.maxEntries > 0 && cfg.workingTtl > 0 && cfg.durableTtl > 0
    && cfg.maxClaimBytes > 0 && cfg.maxTopicBytes > 0 && cfg.maxCompactionRecords > 0
    && cfg.maxLinks > 0 && cfg.maxLinksPerMemory > 0
    && cfg.maxLinks >= cfg.maxLinksPerMemory
  }

  /** Text normalisation and keyed pseudonyms: any total functions. */
  datatype Env = Env(normalize: Text -> Text, pseudonym: (Text, Text) -> Text)

  datatype Compaction = Compaction(at: u64, expired: nat, evicted: nat, remaining: nat)

  /** Retained compaction records and the retention metrics. */
  datatype Log = Log(
    compactions: seq<Compaction>, compactionsHighWater: nat, compactionsEvicted: u64,
    entriesHighWater: nat, linksHighWater: nat)

  datatype Store = Store(entries: seq<Entry>, links: seq<Link>, nextId: u64, log: Log)

  const EMPTY: Store := Store([], [], 1, Log([], 0, 0, 0, 0))

  /** The event or permit a claim is written under. */
  datatype Origin = Origin(
    eventId: Text, namespace: Text, class_: SourceClass, trust: Trust, actor: Option<Text>,
    claimText: Option<Text>)

  datatype Request = Request(
    origin: Origin, decision: GateDecision, claim: Text, topic: Option<Text>,
    supersedes: seq<Text>, causedBy: seq<Text>)

  datatype Relation = Supersession | Causal

  datatype TargetError = Missing | Expired | Ambiguous | FromTheFuture

  datatype WriteError =
    | TooManyDeclarations
    | LinkBudgetExceeded
    | Unresolved(relation: Relation, why: TargetError)
    | LinkCapacity
    | VerifiedTooLong
    | EmptyClaim
    | EmptyTopic
    | IdSpaceExhausted
    | Disappeared

  // ---- Selections ----------------------------------------------------------

  function Ids(entries: seq<Entry>): set<u64> { set e | e in entries :: e.id }

  function NodeId(e: Entry): u64 { e.id }

  function Unexpired(now: u64): Entry -> bool { (e: Entry) => e.expiresAt > now }

  function BothAlive(alive: set<u64>): Link -> bool { (l: Link) => l.from in alive && l.to in alive }

  predicate Explicit(l: Link) { l.kind != TemporalBefore }

  predicate Derived(l: Link) { l.kind == TemporalBefore }

  function ExplicitAlive(alive: set<u64>): Link -> bool {
    (l: Link) => Explicit(l) && l.from in alive && l.to in alive
  }

  function Member(alive: set<u64>): u64 -> bool { (id: u64) => id in alive }

  /** Drop edges that lost an endpoint. */
  function Prune(links: seq<Link>, alive: set<u64>): seq<Link> { Filter(links, BothAlive(alive)) }

  /** Drop from the front until at most `n` entries are left. */
  function Newest<T>(s: seq<T>, n: nat): seq<T> { s[SatSub(|s|, n)..] }

  // ---- Compaction and insertion --------------------------------------------

  function KeptEntries(cfg: Config, entries: seq<Entry>, now: u64): seq<Entry> {
    Newest(Filter(entries, Unexpired(now)), cfg.maxEntries)
  }

  function CompactionRecord(cfg: Config, entries: seq<Entry>, now: u64): (r: Compaction)
    ensures r.remaining == |KeptEntries(cfg, entries, now)| <= cfg.maxEntries
  {
    var live := Filter(entries, Unexpired(now));
    var kept := KeptEntries(cfg, entries, now);
    Compaction(now, |entries| - |live|, |live| - |kept|, |kept|)
  }

  /** Note a compaction: keep the newest records, count the others as evicted. */
  function Note(cfg: Config, log: Log, record: Compaction): Log {
    var seen := log.(entriesHighWater := Max(log.entriesHighWater, record.remaining));
    if record.expired == 0 && record.evicted == 0 then seen
    else
      var all := log.compactions + [record];
      var kept := Newest(all, cfg.maxCompactionRecords);
      seen.(compactions := kept,
            compactionsEvicted := SatAdd(log.compactionsEvicted, Min(|all| - |kept|, U64_MAX)),
            compactionsHighWater := Max(log.compactionsHighWater, |kept|))
  }

  function Compact(cfg: Config, st: Store, now: u64): Store {
    var kept := KeptEntries(cfg, st.entries, now);
    Store(kept, Prune(st.links, Ids(kept)), st.nextId,
          Note(cfg, st.log, CompactionRecord(cfg, st.entries, now)))
  }

  /** Assign the next node id, compact, append, compact again. */
  function PushBounded(cfg: Config, st: Store, entry: Entry, now: u64): (Store, Result<Entry, WriteError>) {
    if st.nextId == U64_MAX then (st, Err(IdSpaceExhausted))
    else
      var first := Compact(cfg, st.(nextId := st.nextId + 1), now);
      var second := Compact(cfg, first.(entries := first.entries + [entry.(id := st.nextId)]), now);
      (second, if second.entries == [] then Err(Disappeared) else Ok(Last(second.entries)))
  }

  /** What insertion at `now` is predicted to leave of the present entries. */
  function ProjectedSurvivors(cfg: Config, entries: seq<Entry>, now: u64): seq<u64> {
    var ids := Map(Filter(entries, Unexpired(now)), NodeId);
    var bounded := ids[SatSub(|ids|, cfg.maxEntries)..];
    bounded[Min(|bounded|, SatSub(|bounded| + 1, cfg.maxEntries))..]
  }

  function IdSet(ids: seq<u64>): set<u64> { set id | id in ids }

  // ---- Links ---------------------------------------------------------------

  predicate SameEdge(a: Link, b: Link) { a.kind == b.kind && a.from == b.from && a.to == b.to }

  function PushLink(links: seq<Link>, l: Link): seq<Link> {
    if exists x :: x in links && SameEdge(x, l) then links else links + [l]
  }

  function PushLinks(links: seq<Link>, new_: seq<Link>): seq<Link> {
    if new_ == [] then links else PushLink(PushLinks(links, Front(new_)), Last(new_))
  }

  function EdgesTo(newId: u64, targets: seq<u64>, kind: LinkKind, now: u64): seq<Link> {
    Map(targets, (t: u64) => Link(newId, t, kind, now))
  }

  function DeclaredEdges(newId: u64, targets: seq<u64>, causes: seq<u64>, now: u64): seq<Link> {
    EdgesTo(newId, targets, Supersedes, now) + EdgesTo(newId, causes, CausedBy, now)
  }

  /** Durable memories of the topic recorded no later than `now`, other than the new one. */
  function SameTopicBefore(env: Env, newId: u64, topic: Text, now: u64): Entry -> bool {
    (e: Entry) =>
      && e.retention == Durable && e.id != newId
      && e.topic.Some? && env.normalize(e.topic.value) == env.normalize(topic)
      && e.createdAt <= now
  }

  /** Newest record first, higher node id first among equals. */
  predicate NewerFirst(a: Entry, b: Entry) {
    a.createdAt > b.createdAt || (a.createdAt == b.createdAt && a.id >= b.id)
  }

  function Predecessors(env: Env, entries: seq<Entry>, newId: u64, topic: Option<Text>, now: u64, budget: nat)
    : seq<Entry>
  {
    if topic.None? then []
    else Take(SortBy(Filter(entries, SameTopicBefore(env, newId, topic.value, now)), NewerFirst), budget)
  }

  function TemporalEdges(older: seq<Entry>, newId: u64, now: u64): seq<Link> {
    Map(older, (e: Entry) => Link(e.id, newId, TemporalBefore, now))
  }

  /** All edges of one write appended and pruned, before the store bound is applied. */
  function LinkedUnbounded(env: Env, cfg: Config, st: Store, newId: u64, topic: Option<Text>, now: u64,
                           targets: seq<u64>, causes: seq<u64>): seq<Link>
  {
    var declared := Take(DeclaredEdges(newId, targets, causes, now), cfg.maxLinksPerMemory);
    var older := Predecessors(env, st.entries, newId, topic, now, cfg.maxLinksPerMemory - |declared|);
    var all := PushLinks(PushLinks(st.links, declared), TemporalEdges(older, newId, now));
    Prune(all, Ids(st.entries))
  }

  /** Position of the oldest derived edge, or the length when there is none. */
  function FirstDerived(links: seq<Link>): (i: nat)
    ensures i <= |links|
    ensures i < |links| ==> Derived(links[i])
    ensures forall k :: 0 <= k < i ==> Explicit(links[k])
  {
    if links == [] || Derived(links[0]) then 0 else 1 + FirstDerived(links[1..])
  }

  /** Shed derived edges, oldest first, until the bound holds or none is left. */
  function Shed(links: seq<Link>, maxLinks: nat): seq<Link>
    decreases |links|
  {
    if |links| <= maxLinks || FirstDerived(links) == |links| then links
    else Shed(RemoveAt(links, FirstDerived(links)), maxLinks)
  }

  function LinkNew(env: Env, cfg: Config, st: Store, newId: u64, topic: Option<Text>, now: u64,
                   targets: seq<u64>, causes: seq<u64>): Store
  {
    var links := Shed(LinkedUnbounded(env, cfg, st, newId, topic, now, targets, causes), cfg.maxLinks);
    st.(links := links, log := st.log.(linksHighWater := Max(st.log.linksHighWater, |links|)))
  }

  // ---- The durable write ---------------------------------------------------

  /** First occurrences, in order. */
  function Unique(s: seq<Text>): (r: seq<Text>)
    ensures |r| <= |s|
  {
    if s == [] then [] else Unique(Front(s)) + (if Last(s) in Front(s) then [] else [Last(s)])
  }

  function DurableWith(eventId: Text): Entry -> bool {
    (e: Entry) => e.source.eventId == eventId && e.retention == Durable
  }

  function Resolve(entries: seq<Entry>, eventId: Text, now: u64): Result<u64, TargetError> {
    var retained := Filter(entries, DurableWith(eventId));
    var live := Filter(retained, Unexpired(now));
    if retained == [] then Err(Missing)
    else if live == [] then Err(Expired)
    else if |live| > 1 then Err(Ambiguous)
    else if live[0].createdAt > now then Err(FromTheFuture)
    else Ok(live[0].id)
  }

  function ResolveAll(entries: seq<Entry>, eventIds: seq<Text>, now: u64, relation: Relation)
    : (r: Result<seq<u64>, WriteError>)
    ensures r.Ok? ==> |r.value| == |eventIds|
  {
    if eventIds == [] then Ok([])
    else
      var before := ResolveAll(entries, Front(eventIds), now, relation);
      if before.Err? then before
      else
        var last := Resolve(entries, Last(eventIds), now);
        if last.Err? then Err(Unresolved(relation, last.error)) else Ok(before.value + [last.value])
  }

  /** Whether the explicit evidence this write would leave retained fits the link bound. */
  predicate EvidenceFits(cfg: Config, st: Store, now: u64, targets: seq<u64>, causes: seq<u64>) {
    var survivors := IdSet(ProjectedSurvivors(cfg, st.entries, now));
    |Filter(st.links, ExplicitAlive(survivors))| + |Filter(targets + causes, Member(survivors))| <= cfg.maxLinks
  }

  function Derive(class_: SourceClass, trust: Trust, bound: bool): Epistemic {
    match (class_, trust)
    case (System, Trusted) => if bound then VerifiedFact else Observation
    case (PublicChat, _) => ViewerClaim
    case (Donation, _) => ViewerClaim
    case (Speech, Trusted) => PerformerExperience
    case (Operator, _) => PersonaOpinion
    case _ => Observation
  }

  function ClassOf(env: Env, origin: Origin, claim: Text): Epistemic {
    Derive(origin.class_, origin.trust,
           origin.claimText.Some? && env.normalize(origin.claimText.value) == env.normalize(claim))
  }

  /** The entry a write would store: normalised, bounded text; a verified fact only in full. */
  function BuildEntry(env: Env, cfg: Config, origin: Origin, decision: GateDecision, claim: Text,
                      topic: Option<Text>, now: u64, retention: Retention): Result<Entry, WriteError>
  {
    var class_ := ClassOf(env, origin, claim);
    var text := env.normalize(claim);
    var ttl := if retention == Working then cfg.workingTtl else cfg.durableTtl;
    if class_ == VerifiedFact && |text| > cfg.maxClaimBytes then Err(VerifiedTooLong)
    else if text == [] then Err(EmptyClaim)
    else if topic.Some? && env.normalize(topic.value) == [] then Err(EmptyTopic)
    else
      Ok(Entry(
        Source(origin.eventId, origin.namespace, origin.class_, origin.trust,
               if origin.actor.Some? then Some(env.pseudonym(origin.namespace, origin.actor.value)) else None),
        Truncated(text, cfg.maxClaimBytes),
        if topic.Some? then Some(Truncated(env.normalize(topic.value), cfg.maxTopicBytes)) else None,
        now, SatAdd(now, ttl), retention, decision, class_, 0))
  }

  datatype Plan = Plan(entry: Entry, targets: seq<u64>, causes: seq<u64>)

  /** Every check a durable write makes before it stores anything, in the source's order. */
  function PlanDurable(env: Env, cfg: Config, st: Store, req: Request, now: u64): Result<Plan, WriteError> {
    var bound := SatMul(cfg.maxLinksPerMemory, 8);
    if |req.supersedes| > bound || |req.causedBy| > bound then Err(TooManyDeclarations)
    else if |Unique(req.supersedes)| + |Unique(req.causedBy)| > cfg.maxLinksPerMemory then Err(LinkBudgetExceeded)
    else
      var targets := ResolveAll(st.entries, Unique(req.supersedes), now, Supersession);
      if targets.Err? then Err(targets.error)
      else
        var causes := ResolveAll(st.entries, Unique(req.causedBy), now, Causal);
        if causes.Err? then Err(causes.error)
        else if !EvidenceFits(cfg, st, now, targets.value, causes.value) then Err(LinkCapacity)
        else
          var entry := BuildEntry(env, cfg, req.origin, req.decision, req.claim, req.topic, now, Durable);
          if entry.Err? then Err(entry.error) else Ok(Plan(entry.value, targets.value, causes.value))
  }

  function RememberDurable(env: Env, cfg: Config, st: Store, req: Request, now: u64)
    : (Store, Result<Entry, WriteError>)
  {
    var plan := PlanDurable(env, cfg, st, req, now);
    if plan.Err? then (st, Err(plan.error))
    else
      var (pushed, stored) := PushBounded(cfg, st, plan.value.entry, now);
      if stored.Err? then (pushed, stored)
      else
        var linked := LinkNew(env, cfg, pushed, stored.value.id, plan.value.entry.topic, now,
                              plan.value.targets, plan.value.causes);
        (linked, stored)
  }

  function RememberWorking(env: Env, cfg: Config, st: Store, origin: Origin, claim: Text,
                           topic: Option<Text>, now: u64): (Store, Result<Entry, WriteError>)
  {
    var entry := BuildEntry(env, cfg, origin, WorkingOnly, claim, topic, now, Working);
    if entry.Err? then (st, Err(entry.error)) else PushBounded(cfg, st, entry.value, now)
  }
}
