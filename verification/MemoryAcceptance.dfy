/** When a durable write is accepted, and why a declared target is refused, on entries and numbers alone. */
module MemoryAcceptance {
  import opened Seqs
  import opened Utf8
  import opened Words
  import opened MemoryModel
  import opened MemoryInvariants
  import opened MemoryWrites

  /** A durable entry written for the event. */
  predicate WrittenFor(e: Entry, eventId: Text) { e.retention == Durable && e.source.eventId == eventId }

  /** Exactly one entry written for the event has not expired, and it was not recorded later. */
  ghost predicate ClearTarget(entries: seq<Entry>, eventId: Text, now: u64) {
    exists e :: && e in entries && WrittenFor(e, eventId) && e.createdAt <= now < e.expiresAt
                && forall x :: x in entries && WrittenFor(x, eventId) && now < x.expiresAt ==> x == e
  }

  /** An entry written for the event that has not expired. */
  predicate Current(e: Entry, eventId: Text, now: u64) { WrittenFor(e, eventId) && now < e.expiresAt }

  function Retained(entries: seq<Entry>, eventId: Text): seq<Entry> { Filter(entries, DurableWith(eventId)) }

  function CurrentOnes(entries: seq<Entry>, eventId: Text, now: u64): seq<Entry> {
    Filter(Retained(entries, eventId), Unexpired(now))
  }

  lemma RetainedMembers(entries: seq<Entry>, eventId: Text, now: u64)
    ensures forall e :: e in Retained(entries, eventId) <==> e in entries && WrittenFor(e, eventId)
    ensures forall e :: e in CurrentOnes(entries, eventId, now) <==> e in entries && Current(e, eventId, now)
  {
    FilterMembers(entries, DurableWith(eventId));
    FilterMembers(Retained(entries, eventId), Unexpired(now));
  }

  lemma EmptyExactly(s: seq<Entry>)
    ensures s == [] <==> forall x :: x !in s
  {
    if s != [] {
      assert s[0] in s;
    }
  }

  lemma SeveralExactly(s: seq<Entry>)
    requires Increasing(s)
    ensures |s| > 1 <==> exists x, y :: x in s && y in s && x != y
  {
    if |s| > 1 {
      assert s[0] in s && s[1] in s && s[0].id < s[1].id;
    }
  }

  /** A declared target resolves exactly when it is clear. */
  lemma TargetAcceptedExactly(entries: seq<Entry>, eventId: Text, now: u64)
    requires Increasing(entries)
    ensures Resolve(entries, eventId, now).Ok? <==> ClearTarget(entries, eventId, now)
  {
    if Resolve(entries, eventId, now).Ok? {
      ResolveIsExact(entries, eventId, now, Resolve(entries, eventId, now).value);
    }
    if ClearTarget(entries, eventId, now) {
      var e :| && e in entries && WrittenFor(e, eventId) && e.createdAt <= now < e.expiresAt
               && forall x :: x in entries && WrittenFor(x, eventId) && now < x.expiresAt ==> x == e;
      ResolveIsExact(entries, eventId, now, e.id);
    }
  }

  /** Why a declared target does not resolve: there is no entry for its event; all have expired; more than
      one has not; otherwise the one that has not was recorded later. */
  lemma TargetRefusedExactly(entries: seq<Entry>, eventId: Text, now: u64)
    requires Increasing(entries)
    ensures var r := Resolve(entries, eventId, now);
            && (r == Err(Missing) <==> forall e :: e in entries ==> !WrittenFor(e, eventId))
            && (r == Err(TargetError.Expired) <==>
                  && (exists e :: e in entries && WrittenFor(e, eventId))
                  && forall e :: e in entries ==> !Current(e, eventId, now))
            && (r == Err(Ambiguous) <==>
                  exists x, y :: x in entries && y in entries && x != y && Current(x, eventId, now)
                      && Current(y, eventId, now))
  {
    var retained, current := Retained(entries, eventId), CurrentOnes(entries, eventId, now);
    assert Resolve(entries, eventId, now)
           == if retained == [] then Err(Missing) else if current == [] then Err(TargetError.Expired)
              else if |current| > 1 then Err(Ambiguous) else if current[0].createdAt > now then Err(FromTheFuture)
              else Ok(current[0].id);
    RetainedMembers(entries, eventId, now);
    FilterIncreasing(entries, DurableWith(eventId));
    FilterIncreasing(retained, Unexpired(now));
    hide Resolve, Retained, CurrentOnes, Increasing, WrittenFor, Current;
    EmptyExactly(retained);
    EmptyExactly(current);
    SeveralExactly(current);
    hide Filter;
    assert retained == [] ==> current == [] by {
      CurrentAreRetained(entries, eventId, now);
    }
  }

  lemma CurrentAreRetained(entries: seq<Entry>, eventId: Text, now: u64)
    ensures Retained(entries, eventId) == [] ==> CurrentOnes(entries, eventId, now) == []
  {
  }

  lemma {:induction false} AllResolveExactly(entries: seq<Entry>, eventIds: seq<Text>, now: u64, relation: Relation)
    requires Increasing(entries)
    ensures ResolveAll(entries, eventIds, now, relation).Ok? <==>
            forall x :: x in eventIds ==> ClearTarget(entries, x, now)
  {
    if eventIds != [] {
      AllResolveExactly(entries, Front(eventIds), now, relation);
      TargetAcceptedExactly(entries, Last(eventIds), now);
      assert forall x :: x in eventIds <==> x in Front(eventIds) || x == Last(eventIds);
    }
    hide Increasing, ClearTarget, Resolve;
  }

  lemma {:induction false} DistinctCount(s: seq<Text>)
    ensures |Unique(s)| == |set x | x in s|
  {
    if s != [] {
      DistinctCount(Front(s));
      assert (set x | x in s) == (set x | x in Front(s)) + {Last(s)};
      assert Last(s) in Front(s) <==> Last(s) in (set x | x in Front(s));
    }
  }

  /** The declared relations are few enough, each list and both together, and every target is clear. */
  ghost predicate Declarable(cfg: Config, entries: seq<Entry>, req: Request, now: u64) {
    && |req.supersedes| <= Min(8 * cfg.maxLinksPerMemory, U64_MAX)
        && |req.causedBy| <= Min(8 * cfg.maxLinksPerMemory, U64_MAX)
    && |set x | x in req.supersedes| + |set x | x in req.causedBy| <= cfg.maxLinksPerMemory
    && (forall x :: x in req.supersedes ==> ClearTarget(entries, x, now))
    && (forall x :: x in req.causedBy ==> ClearTarget(entries, x, now))
  }

  /** There is a claim, a topic if one is given, and a fact to be verified is not too long. */
  predicate Storable(env: Env, cfg: Config, req: Request) {
    && env.normalize(req.claim) != [] && (req.topic.Some? ==> env.normalize(req.topic.value) != [])
    && (req.origin.class_ == System && req.origin.trust == Trusted && req.origin.claimText.Some?
        && env.normalize(req.origin.claimText.value) == env.normalize(req.claim)
        ==> |env.normalize(req.claim)| <= cfg.maxClaimBytes)
  }

  /** The explicit evidence the write would leave fits the link bound, whichever ids its targets resolve to. */
  ghost predicate LeavesRoom(cfg: Config, st: Store, req: Request, now: u64) {
    forall targets, causes ::
      ResolveAll(st.entries, Unique(req.supersedes), now, Supersession) == Ok(targets)
      && ResolveAll(st.entries, Unique(req.causedBy), now, Causal) == Ok(causes)
      ==> EvidenceFits(cfg, st, now, targets, causes)
  }

  lemma PlannedExactly(env: Env, cfg: Config, st: Store, req: Request, now: u64)
    requires Increasing(st.entries)
    ensures PlanDurable(env, cfg, st, req, now).Ok?
            <==> Declarable(cfg, st.entries, req, now) && LeavesRoom(cfg, st, req, now) && Storable(env, cfg, req)
  {
    DistinctCount(req.supersedes);
    DistinctCount(req.causedBy);
    UniqueFacts(req.supersedes);
    UniqueFacts(req.causedBy);
    AllResolveExactly(st.entries, Unique(req.supersedes), now, Supersession);
    AllResolveExactly(st.entries, Unique(req.causedBy), now, Causal);
    StorableExactly(env, cfg, req, now);
    PlannedInSteps(env, cfg, st, req, now);
    hide Increasing, ClearTarget, ResolveAll, Unique, EvidenceFits, BuildEntry, Storable, LeavesRoom, PlanDurable,
        Distinct;
  }

  lemma PlannedInSteps(env: Env, cfg: Config, st: Store, req: Request, now: u64)
    ensures var supersedes := ResolveAll(st.entries, Unique(req.supersedes), now, Supersession);
            var causes := ResolveAll(st.entries, Unique(req.causedBy), now, Causal);
            PlanDurable(env, cfg, st, req, now).Ok?
            <==> && |req.supersedes| <= Min(8 * cfg.maxLinksPerMemory, U64_MAX)
                 && |req.causedBy| <= Min(8 * cfg.maxLinksPerMemory, U64_MAX)
                 && |Unique(req.supersedes)| + |Unique(req.causedBy)| <= cfg.maxLinksPerMemory
                 && supersedes.Ok? && causes.Ok? && LeavesRoom(cfg, st, req, now)
                 && BuildEntry(env, cfg, req.origin, req.decision, req.claim, req.topic, now, Durable).Ok?
  {
    hide ResolveAll, Unique, EvidenceFits, BuildEntry;
    assert SatMul(cfg.maxLinksPerMemory, 8) == Min(8 * cfg.maxLinksPerMemory, U64_MAX);
  }

  lemma StorableExactly(env: Env, cfg: Config, req: Request, now: u64)
    ensures BuildEntry(env, cfg, req.origin, req.decision, req.claim, req.topic, now, Durable).Ok?
            <==> Storable(env, cfg, req)
  {
    hide Truncated;
  }

  /** A durable write is accepted if and only if its declarations are few and clear, the evidence it leaves
      fits, there is something to store, and neither the clock nor the ids have run out. */
  lemma AcceptedExactly(env: Env, cfg: Config, st: Store, req: Request, now: u64)
    requires Inv(cfg, st)
    ensures RememberDurable(env, cfg, st, req, now).1.Ok?
            <==> && Declarable(cfg, st.entries, req, now) && LeavesRoom(cfg, st, req, now) && Storable(env, cfg, req)
                 && now < U64_MAX && st.nextId < U64_MAX
  {
    DurableWriteOutcome(env, cfg, st, req, now);
    PlannedExactly(env, cfg, st, req, now);
    hide Inv, RememberDurable, PlanDurable, Declarable, LeavesRoom, Storable;
  }
}
