/** Every store any sequence of operations can reach. */
module MemoryRuns {
  import opened Seqs
  import opened Utf8
  import opened Words
  import opened MemoryModel
  import opened MemoryInvariants
  import opened MemoryWrites

  datatype Op =
    | WriteDurable(req: Request, now: u64)
    | WriteWorking(origin: Origin, claim: Text, topic: Option<Text>, now: u64)
    | CompactAt(now: u64)

  function Step(env: Env, cfg: Config, st: Store, op: Op): Store {
    match op
    case WriteDurable(req, now) => RememberDurable(env, cfg, st, req, now).0
    case WriteWorking(origin, claim, topic, now) => RememberWorking(env, cfg, st, origin, claim, topic, now).0
    case CompactAt(now) => Compact(cfg, st, now)
  }

  function RunFrom(env: Env, cfg: Config, st: Store, ops: seq<Op>): Store {
    if ops == [] then st else Step(env, cfg, RunFrom(env, cfg, st, Front(ops)), Last(ops))
  }

  function Run(env: Env, cfg: Config, ops: seq<Op>): Store { RunFrom(env, cfg, EMPTY, ops) }

  lemma {:induction false} RunConcat(env: Env, cfg: Config, st: Store, a: seq<Op>, b: seq<Op>)
    ensures RunFrom(env, cfg, st, a + b) == RunFrom(env, cfg, RunFrom(env, cfg, st, a), b)
  {
    if b == [] {
      assert a + b == a;
    } else {
      assert a + b == (a + Front(b)) + [Last(b)];
      assert Front(a + b) == a + Front(b);
      RunConcat(env, cfg, st, a, Front(b));
    }
  }

  // ---- Every reachable store is sound --------------------------------------

  lemma WorkingWriteKeepsInv(env: Env, cfg: Config, st: Store, origin: Origin, claim: Text, topic: Option<Text>,
                             now: u64)
    requires Inv(cfg, st)
    ensures Inv(cfg, RememberWorking(env, cfg, st, origin, claim, topic, now).0)
  {
    WorkingWriteOutcome(env, cfg, st, origin, claim, topic, now);
  }

  lemma StepKeepsInv(env: Env, cfg: Config, st: Store, op: Op)
    requires Inv(cfg, st)
    ensures Inv(cfg, Step(env, cfg, st, op))
  {
    match op
    case WriteDurable(req, now) => DurableWriteOutcome(env, cfg, st, req, now);
    case WriteWorking(origin, claim, topic, now) => WorkingWriteKeepsInv(env, cfg, st, origin, claim, topic, now);
    case CompactAt(now) => CompactKeepsInv(cfg, st, now);
  }

  lemma {:induction false} RunFromKeepsInv(env: Env, cfg: Config, st: Store, ops: seq<Op>)
    requires Inv(cfg, st)
    ensures Inv(cfg, RunFrom(env, cfg, st, ops))
  {
    if ops != [] {
      RunFromKeepsInv(env, cfg, st, Front(ops));
      StepKeepsInv(env, cfg, RunFrom(env, cfg, st, Front(ops)), Last(ops));
    }
  }

  /** In every reachable store the entries and links are within their bounds, no link dangles or
      repeats, and each link agrees with the record times and insertion order of its endpoints. */
  lemma ReachableStoresAreSound(env: Env, cfg: Config, ops: seq<Op>)
    requires ValidConfig(cfg)
    ensures var st := Run(env, cfg, ops);
            && Inv(cfg, st)
            && |st.entries| <= cfg.maxEntries && |st.links| <= cfg.maxLinks
            && forall l :: l in st.links
                ==> l.from in Ids(st.entries) && l.to in Ids(st.entries) && Agrees(st.entries, l)
  {
    assert Inv(cfg, EMPTY);
    RunFromKeepsInv(env, cfg, EMPTY, ops);
  }

  // ---- Node ids ------------------------------------------------------------

  /** `after` only drops entries of `st` and adds ones under ids not handed out before. */
  ghost predicate Extends(st: Store, after: Store) {
    && st.nextId <= after.nextId
    && forall e :: e in after.entries ==> e in st.entries || st.nextId <= e.id
  }

  lemma KeptWithin(cfg: Config, entries: seq<Entry>, now: u64)
    ensures forall e :: e in KeptEntries(cfg, entries, now) ==> e in entries
  {
    FilterMembers(entries, Unexpired(now));
  }

  /** Whatever the time, insertion leaves kept entries and possibly the new one. */
  lemma PushedWithin(cfg: Config, st: Store, entry: Entry, now: u64)
    requires st.nextId < U64_MAX
    ensures var after := PushBounded(cfg, st, entry, now).0;
            var kept := KeptEntries(cfg, st.entries, now);
            && after.nextId == st.nextId + 1
            && after.links == Prune(Prune(st.links, Ids(kept)), Ids(after.entries))
            && forall e :: e in after.entries ==> e in kept || e.id == st.nextId
  {
    KeptWithin(cfg, KeptEntries(cfg, st.entries, now) + [entry.(id := st.nextId)], now);
  }

  lemma InsertExtends(cfg: Config, st: Store, entry: Entry, now: u64)
    ensures Extends(st, PushBounded(cfg, st, entry, now).0)
  {
    if st.nextId < U64_MAX {
      PushedWithin(cfg, st, entry, now);
      KeptWithin(cfg, st.entries, now);
    }
  }

  lemma StepExtends(env: Env, cfg: Config, st: Store, op: Op)
    requires Inv(cfg, st)
    ensures Extends(st, Step(env, cfg, st, op))
  {
    match op
    case WriteDurable(req, now) =>
      var plan := PlanDurable(env, cfg, st, req, now);
      if plan.Ok? {
        InsertExtends(cfg, st, plan.value.entry, now);
      }
    case WriteWorking(origin, claim, topic, now) =>
      var built := BuildEntry(env, cfg, origin, WorkingOnly, claim, topic, now, Working);
      if built.Ok? {
        InsertExtends(cfg, st, built.value, now);
      }
    case CompactAt(now) => KeptEntriesFacts(cfg, st.entries, now);
  }

  lemma {:induction false} RunFromExtends(env: Env, cfg: Config, st: Store, ops: seq<Op>)
    requires Inv(cfg, st)
    ensures Extends(st, RunFrom(env, cfg, st, ops))
  {
    if ops != [] {
      RunFromExtends(env, cfg, st, Front(ops));
      RunFromKeepsInv(env, cfg, st, Front(ops));
      StepExtends(env, cfg, RunFrom(env, cfg, st, Front(ops)), Last(ops));
    }
  }

  /** The write is accepted, and this is the entry it stored. */
  predicate Accepts(env: Env, cfg: Config, st: Store, op: Op, stored: Entry) {
    match op
    case WriteDurable(req, now) => RememberDurable(env, cfg, st, req, now).1 == Ok(stored)
    case WriteWorking(origin, claim, topic, now) =>
      RememberWorking(env, cfg, st, origin, claim, topic, now).1 == Ok(stored)
    case CompactAt(_) => false
  }

  lemma AcceptedTakesNextId(env: Env, cfg: Config, st: Store, op: Op, stored: Entry)
    requires Inv(cfg, st) && Accepts(env, cfg, st, op, stored)
    ensures stored.id == st.nextId
  {
    hide Inv, RememberDurable, RememberWorking;
    match op {
      case WriteDurable(req, now) => DurableWriteOutcome(env, cfg, st, req, now);
      case WriteWorking(origin, claim, topic, now) => WorkingWriteOutcome(env, cfg, st, origin, claim, topic, now);
      case CompactAt(_) =>
    }
  }

  /** An accepted write, durable or working, gets a larger id than every entry any earlier store held. */
  lemma AcceptedIdsGrow(env: Env, cfg: Config, ops: seq<Op>, more: seq<Op>, e: Entry, op: Op, stored: Entry)
    requires ValidConfig(cfg) && e in Run(env, cfg, ops).entries
    requires Accepts(env, cfg, Run(env, cfg, ops + more), op, stored)
    ensures e.id < stored.id
  {
    ReachableStoresAreSound(env, cfg, ops);
    ReachableStoresAreSound(env, cfg, ops + more);
    RunConcat(env, cfg, EMPTY, ops, more);
    RunFromExtends(env, cfg, Run(env, cfg, ops), more);
    AcceptedTakesNextId(env, cfg, Run(env, cfg, ops + more), op, stored);
  }

  // ---- Explicit evidence ---------------------------------------------------

  lemma InsertKeepsLinks(cfg: Config, st: Store, entry: Entry, now: u64, l: Link)
    requires Inv(cfg, st) && l in st.links
    requires var alive := Ids(PushBounded(cfg, st, entry, now).0.entries); l.from in alive && l.to in alive
    ensures l in PushBounded(cfg, st, entry, now).0.links
  {
    if st.nextId < U64_MAX {
      OldLinksAvoid(st);
      PushedWithin(cfg, st, entry, now);
      PrunedTwiceKeeps(st.links, Ids(KeptEntries(cfg, st.entries, now)),
                       Ids(PushBounded(cfg, st, entry, now).0.entries), l);
    }
  }

  lemma PrunedTwiceKeeps(links: seq<Link>, first: set<u64>, second: set<u64>, l: Link)
    requires l in links && l.from in first && l.to in first && l.from in second && l.to in second
    ensures l in Prune(Prune(links, first), second)
  {
    FilterMembers(links, BothAlive(first));
    FilterMembers(Prune(links, first), BothAlive(second));
  }

  lemma DurableWriteKeepsEvidence(env: Env, cfg: Config, st: Store, req: Request, now: u64, l: Link)
    requires Inv(cfg, st) && l in st.links && Explicit(l)
    requires var alive := Ids(RememberDurable(env, cfg, st, req, now).0.entries); l.from in alive && l.to in alive
    ensures l in RememberDurable(env, cfg, st, req, now).0.links
  {
    var plan := PlanDurable(env, cfg, st, req, now);
    DurableWriteOutcome(env, cfg, st, req, now);
    if plan.Ok? && st.nextId < U64_MAX {
      var entry := plan.value.entry;
      if now == U64_MAX {
        InsertAtTheLastInstantEmptiesTheStore(cfg, st, entry);
      } else {
        PlanFacts(env, cfg, st, req, now);
        LinkedStore(env, cfg, st, entry, now, plan.value.targets, plan.value.causes);
        InsertionKeepsProjection(cfg, st, entry, now);
        EvidenceKept(env, cfg, st, entry, now, plan.value.targets, plan.value.causes, l);
      }
    }
  }

  lemma EvidenceKept(env: Env, cfg: Config, st: Store, entry: Entry, now: u64, targets: seq<u64>, causes: seq<u64>,
                     l: Link)
    requires Ready(cfg, st, entry, now, targets, causes) && EvidenceFits(cfg, st, now, targets, causes)
    requires l in st.links && Explicit(l)
    requires var alive := Ids(PushBounded(cfg, st, entry, now).0.entries); l.from in alive && l.to in alive
    ensures var pushed := PushBounded(cfg, st, entry, now).0;
            l in LinkNew(env, cfg, pushed, st.nextId, entry.topic, now, targets, causes).links
  {
    var after := LinkNew(env, cfg, PushBounded(cfg, st, entry, now).0, st.nextId, entry.topic, now, targets, causes);
    var survivors := Ids(ProjectedEntries(cfg, st.entries, now));
    assert l.from in survivors && l.to in survivors by {
      AliveAfterInsertion(cfg, st, entry, now);
      OldLinksAvoid(st);
    }
    assert l in Filter(st.links, ExplicitAlive(survivors)) by {
      FilterMembers(st.links, ExplicitAlive(survivors));
    }
    assert l in Filter(after.links, Explicit) by {
      LinkedStore(env, cfg, st, entry, now, targets, causes);
    }
    FilterMembers(after.links, Explicit);
  }

  lemma StepKeepsEvidence(env: Env, cfg: Config, st: Store, op: Op, l: Link)
    requires Inv(cfg, st) && l in st.links && Explicit(l)
    requires var alive := Ids(Step(env, cfg, st, op).entries); l.from in alive && l.to in alive
    ensures l in Step(env, cfg, st, op).links
  {
    match op
    case WriteDurable(req, now) => DurableWriteKeepsEvidence(env, cfg, st, req, now, l);
    case WriteWorking(origin, claim, topic, now) =>
      var built := BuildEntry(env, cfg, origin, WorkingOnly, claim, topic, now, Working);
      if built.Ok? {
        InsertKeepsLinks(cfg, st, built.value, now, l);
      }
    case CompactAt(now) =>
      FilterMembers(st.links, BothAlive(Ids(KeptEntries(cfg, st.entries, now))));
  }

  lemma {:induction false} RunFromKeepsEvidence(env: Env, cfg: Config, st: Store, ops: seq<Op>, l: Link)
    requires Inv(cfg, st) && l in st.links && Explicit(l)
    requires var alive := Ids(RunFrom(env, cfg, st, ops).entries); l.from in alive && l.to in alive
    ensures l in RunFrom(env, cfg, st, ops).links
  {
    if ops != [] {
      var before := RunFrom(env, cfg, st, Front(ops));
      RunFromKeepsInv(env, cfg, st, Front(ops));
      RunFromExtends(env, cfg, st, Front(ops));
      StepExtends(env, cfg, before, Last(ops));
      OldLinksAvoid(st);
      RunFromKeepsEvidence(env, cfg, st, Front(ops), l);
      StepKeepsEvidence(env, cfg, before, Last(ops), l);
    }
  }

  /** Explicit evidence is never shed: over any run, a supersession or causal edge once stored is
      there in every later store that still retains both of its endpoints. */
  lemma ExplicitEvidenceIsNeverShed(env: Env, cfg: Config, ops: seq<Op>, more: seq<Op>, l: Link)
    requires ValidConfig(cfg) && l in Run(env, cfg, ops).links && Explicit(l)
    requires var alive := Ids(Run(env, cfg, ops + more).entries); l.from in alive && l.to in alive
    ensures l in Run(env, cfg, ops + more).links
  {
    ReachableStoresAreSound(env, cfg, ops);
    RunConcat(env, cfg, EMPTY, ops, more);
    RunFromKeepsEvidence(env, cfg, Run(env, cfg, ops), more, l);
  }
}
