/** The store's reads: ranking, the link view, the one-hop expansion and the generation context. */
module MemoryReads {
  import opened Seqs
  import opened Utf8
  import opened Words
  import opened MemoryModel
  import opened MemoryInvariants

  datatype Query = Query(namespace: Option<Text>, actor: Option<Text>, topic: Option<Text>, limit: nat)

  /** Visible at `now`: recorded by then and not yet expired. */
  function Live(now: u64): Entry -> bool { (e: Entry) => e.expiresAt > now && e.createdAt <= now }

  function LiveIds(st: Store, now: u64): set<u64> { Ids(Filter(st.entries, Live(now))) }

  function VisibleLink(live: set<u64>, now: u64): Link -> bool {
    (l: Link) => l.createdAt <= now && l.from in live && l.to in live
  }

  function LinkSnapshot(st: Store, now: u64): seq<Link> {
    Filter(st.links, VisibleLink(LiveIds(st, now), now))
  }

  // ---- Ranked matches ------------------------------------------------------

  /** The pseudonym a query's actor is filed under. */
  function Scope(env: Env, q: Query): Option<Text> {
    if q.namespace.Some? && q.actor.Some? then Some(env.pseudonym(q.namespace.value, q.actor.value)) else None
  }

  predicate Unevaluable(q: Query) { q.actor.Some? && q.namespace.None? }

  predicate ActorMatch(scope: Option<Text>, e: Entry) { scope.Some? && e.source.actor == scope }

  predicate TopicMatch(env: Env, topic: Option<Text>, e: Entry) {
    topic.Some? && e.topic.Some? && env.normalize(topic.value) == env.normalize(e.topic.value)
  }

  function Matches(env: Env, scope: Option<Text>, topic: Option<Text>): Entry -> bool {
    (e: Entry) => (scope.None? && topic.None?) || ActorMatch(scope, e) || TopicMatch(env, topic, e)
  }

  function Signal(env: Env, scope: Option<Text>, topic: Option<Text>, e: Entry): nat {
    (if ActorMatch(scope, e) then 2 else 0) + (if TopicMatch(env, topic, e) then 1 else 0)
  }

  /** Actor match, then topic match, then newest record, then highest node id. */
  function RankedBefore(env: Env, scope: Option<Text>, topic: Option<Text>): (Entry, Entry) -> bool {
    (a: Entry, b: Entry) =>
      var s, t := Signal(env, scope, topic, a), Signal(env, scope, topic, b);
      s > t || (s == t && NewerFirst(a, b))
  }

  function Ranked(env: Env, st: Store, scope: Option<Text>, topic: Option<Text>, now: u64): seq<Entry> {
    SortBy(Filter(Filter(st.entries, Live(now)), Matches(env, scope, topic)), RankedBefore(env, scope, topic))
  }

  function Relevant(env: Env, st: Store, q: Query, now: u64): seq<Entry> {
    if q.limit == 0 || Unevaluable(q) then []
    else Take(Ranked(env, st, Scope(env, q), q.topic, now), q.limit)
  }

  // ---- The link view -------------------------------------------------------

  function Incident(id: u64, live: set<u64>, now: u64): Link -> bool {
    (l: Link) => (l.from == id || l.to == id) && l.createdAt <= now && l.from in live && l.to in live
  }

  function OfKind(kind: LinkKind): Link -> bool { (l: Link) => l.kind == kind }

  predicate NewerLinkFirst(a: Link, b: Link) {
    || a.createdAt > b.createdAt
    || (a.createdAt == b.createdAt && (a.from > b.from || (a.from == b.from && a.to >= b.to)))
  }

  /** Supersessions first, then causes, each newest first, then the temporal spine. */
  function OrderedView(incident: seq<Link>): seq<Link> {
    SortBy(Filter(incident, OfKind(Supersedes)), NewerLinkFirst)
    + SortBy(Filter(incident, OfKind(CausedBy)), NewerLinkFirst)
    + Filter(incident, OfKind(TemporalBefore))
  }

  predicate Stale(links: seq<Link>, id: u64, live: set<u64>, now: u64) {
    exists l :: l in links && Incident(id, live, now)(l) && l.kind == Supersedes && l.to == id
  }

  function ViewLinks(links: seq<Link>, id: u64, live: set<u64>, cap: nat, now: u64): seq<Link> {
    Take(OrderedView(Filter(links, Incident(id, live, now))), cap)
  }

  datatype Linked = Linked(entry: Entry, stale: bool, links: seq<Link>)

  function Viewed(st: Store, live: set<u64>, cap: nat, now: u64): Entry -> Linked {
    (e: Entry) => Linked(e, Stale(st.links, e.id, live, now), ViewLinks(st.links, e.id, live, cap, now))
  }

  // ---- The one-hop expansion -----------------------------------------------

  predicate InScope(scope: Option<Text>, e: Entry) { scope.None? || e.source.actor == scope }

  function Scoped(scope: Option<Text>): Entry -> bool { (e: Entry) => InScope(scope, e) }

  function OtherEnd(id: u64, l: Link): u64 { if l.from == id then l.to else l.from }

  function Neighbours(m: Linked): seq<u64> { Map(m.links, (l: Link) => OtherEnd(m.entry.id, l)) }

  function AllNeighbours(matched: seq<Linked>): seq<u64> {
    if matched == [] then [] else AllNeighbours(Front(matched)) + Neighbours(Last(matched))
  }

  /** First retained entry with the node id. */
  function Find(entries: seq<Entry>, id: u64): (r: Option<Entry>)
    ensures r.Some? ==> r.value in entries && r.value.id == id
    ensures r.None? ==> id !in Ids(entries)
  {
    if entries == [] then None
    else if entries[0].id == id then Some(entries[0])
    else Find(entries[1..], id)
  }

  /** Nodes the hop adds for the ids in order: live, in scope, not already selected, while there is room. */
  function Expanded(st: Store, live: set<u64>, scope: Option<Text>, selected: set<u64>, ids: seq<u64>, room: nat)
    : (r: seq<Entry>)
    ensures |r| <= room
  {
    if ids == [] then []
    else
      var before := Expanded(st, live, scope, selected, Front(ids), room);
      var node := Find(st.entries, Last(ids));
      if |before| < room && Last(ids) in live && node.Some? && InScope(scope, node.value)
         && Last(ids) !in selected + Ids(before)
      then before + [node.value]
      else before
  }

  function DirectMatches(env: Env, st: Store, q: Query, now: u64): seq<Entry> {
    Filter(Relevant(env, st, q, now), Scoped(Scope(env, q)))
  }

  /** Ids one shown link away from the direct matches, in the order the hop meets them. */
  function HopIds(env: Env, cfg: Config, st: Store, q: Query, now: u64): seq<u64> {
    AllNeighbours(Map(DirectMatches(env, st, q, now), Viewed(st, LiveIds(st, now), cfg.maxLinksPerMemory, now)))
  }

  function HopNodes(env: Env, cfg: Config, st: Store, q: Query, now: u64): seq<Entry> {
    var direct := DirectMatches(env, st, q, now);
    Expanded(st, LiveIds(st, now), Scope(env, q), Ids(direct), HopIds(env, cfg, st, q, now),
             SatSub(q.limit, |direct|))
  }

  function RelevantLinked(env: Env, cfg: Config, st: Store, q: Query, now: u64): seq<Linked> {
    if Unevaluable(q) then []
    else
      var view := Viewed(st, LiveIds(st, now), cfg.maxLinksPerMemory, now);
      Map(DirectMatches(env, st, q, now), view) + Map(HopNodes(env, cfg, st, q, now), view)
  }

  // ---- The generation context ----------------------------------------------

  predicate SharedClass(class_: SourceClass) {
    class_ in {System, Speech, Game, Stream, Timer}
  }

  /** A supersession at work: recorded by `now`, its superseding node visible. */
  predicate Corrects(live: set<u64>, now: u64, l: Link) {
    l.kind == Supersedes && l.createdAt <= now && l.from in live
  }

  /** The first recorded live correction of each superseded node. */
  function CorrectionOf(links: seq<Link>, live: set<u64>, now: u64): map<u64, u64> {
    if links == [] then map[]
    else
      var before := CorrectionOf(Front(links), live, now);
      var l := Last(links);
      if Corrects(live, now, l) && l.to !in before then before[l.to := l.from] else before
  }

  function Promoted(env: Env, visible: seq<Entry>, topic: Option<Text>, correctionOf: map<u64, u64>): set<u64> {
    set e | e in visible && TopicMatch(env, topic, e) && e.id in correctionOf :: correctionOf[e.id]
  }

  predicate MayReach(speaker: Option<Text>, e: Entry) {
    var own := speaker.Some? && e.source.actor == speaker;
    var shared := SharedClass(e.source.class_) && (e.source.actor.None? || e.source.actor == speaker);
    own || shared
  }

  function Deliverable(speaker: Option<Text>, correctionOf: map<u64, u64>): Entry -> bool {
    (e: Entry) => e.id !in correctionOf && MayReach(speaker, e)
  }

  predicate Priority(env: Env, topic: Option<Text>, promoted: set<u64>, e: Entry) {
    TopicMatch(env, topic, e) || e.id in promoted
  }

  function ContextBefore(env: Env, topic: Option<Text>, promoted: set<u64>): (Entry, Entry) -> bool {
    (a: Entry, b: Entry) =>
      var p, q := Priority(env, topic, promoted, a), Priority(env, topic, promoted, b);
      (p && !q) || (p == q && NewerFirst(a, b))
  }

  function Speaker(env: Env, namespace: Text, actor: Option<Text>): Option<Text> {
    if actor.Some? then Some(env.pseudonym(namespace, actor.value)) else None
  }

  function ContextOver(env: Env, visible: seq<Entry>, correctionOf: map<u64, u64>, speaker: Option<Text>,
                       topic: Option<Text>): seq<Entry>
  {
    SortBy(Filter(visible, Deliverable(speaker, correctionOf)),
           ContextBefore(env, topic, Promoted(env, visible, topic, correctionOf)))
  }

  function ContextFor(env: Env, st: Store, namespace: Text, actor: Option<Text>, topic: Option<Text>,
                      limit: nat, now: u64): seq<Entry>
  {
    var visible := Filter(st.entries, Live(now));
    var correctionOf := CorrectionOf(st.links, LiveIds(st, now), now);
    Take(ContextOver(env, visible, correctionOf, Speaker(env, namespace, actor), topic), limit)
  }
}
