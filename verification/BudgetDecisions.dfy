/** The governor's decisions over whole runs, in terms of what was admitted within the last interval. */
module BudgetDecisions {
  import opened Seqs
  import opened Words
  import opened Budget

  /** Charged admissions within the interval that ends at `now`. */
  function RecentCalls(p: Policy, history: seq<Charged>, now: nat): nat {
    |Filter(history, Recent(p.intervalMs, now))|
  }

  /** After trimming at `now` a call ledger holds exactly the admissions of the last interval. */
  lemma TrimmedIsRecent(p: Policy, limit: nat, history: seq<Charged>, ledger: seq<u64>, clock: nat, now: nat)
    requires Tracks(p, limit, history, ledger, clock) && clock <= now
    ensures |Trim(ledger, Horizon(p, now))| == RecentCalls(p, history, now)
  {
    var trimmed := Trim(ledger, Horizon(p, now));
    TrimKeepsTracks(p, limit, history, ledger, clock, now);
    RecentAreTracked(p, limit, history, trimmed, now);
    TrackedAreRecent(p, limit, history, trimmed, now);
  }

  lemma TrackedAreRecent(p: Policy, limit: nat, history: seq<Charged>, ledger: seq<u64>, now: nat)
    requires Tracks(p, limit, history, ledger, now)
    requires forall k :: 0 <= k < |ledger| ==> ledger[k] + p.intervalMs >= now
    ensures RecentCalls(p, history, now) >= |ledger|
  {
    hide Admissible;
    var cut, recent := |history| - |ledger|, Recent(p.intervalMs, now);
    var tail := history[cut..];
    forall c | c in tail ensures recent(c) {
      var k :| 0 <= k < |tail| && tail[k] == c;
      LedgerAt(p, history, ledger, now, k);
    }
    FilterAll(tail, recent);
    FilterOfTail(history, cut, recent);
  }

  lemma CallLedger(p: Policy, ops: seq<Op>, clock: nat, now: u64, tts: bool)
    requires InOrder(ops, clock) && clock <= now && CallLimit(p, tts).Some?
    ensures var l := TrimAll(p, Run(p, ops).ledgers, now);
            |if tts then l.ttsCalls else l.llmCalls| == RecentCalls(p, Run(p, ops).history, now)
  {
    hide Run, Tracks;
    RunKeepsTracking(p, ops, clock);
    var st := Run(p, ops);
    TrimmedIsRecent(p, CallLimit(p, tts).value, st.history, if tts then st.ledgers.ttsCalls
                    else st.ledgers.llmCalls, clock, now);
  }

  /** What a priority may use of a limit, in numbers: all of it, or all but the reserved percentage. */
  lemma ShareInNumbers(p: Policy, priority: Priority, limit: u64)
    requires ValidPolicy(p)
    ensures Effective(p, priority, limit)
            == if priority == High then limit else limit - Min(limit * p.reservePercent, U64_MAX) / 100
  {
    PercentOf(limit, p.reservePercent);
  }

  /** A call limit's share needs no cap: a 32-bit limit times a percentage fits a word. */
  function CallShare(p: Policy, priority: Priority, limit: u32): int {
    if priority == High then limit else limit - limit * p.reservePercent / 100
  }

  lemma CallShareInNumbers(p: Policy, priority: Priority, limit: u32)
    requires ValidPolicy(p)
    ensures Effective(p, priority, limit) == CallShare(p, priority, limit)
  {
    ShareInNumbers(p, priority, limit);
    PercentOf(limit, p.reservePercent);
  }

  /** The checks of a request, each in its own terms. */
  predicate NoSlot(p: Policy, inFlight: nat) { p.maxConcurrent.Some? && inFlight >= p.maxConcurrent.value }

  predicate CallsSpent(p: Policy, priority: Priority, limit: Option<u32>, recent: nat) {
    limit.Some? && recent >= CallShare(p, priority, limit.value)
  }

  predicate CharsSpent(p: Policy, a: Admission, held: u64) {
    p.maxTtsChars.Some?
    && Min(held + a.estimatedChars, U64_MAX)
       > (if a.priority == High then p.maxTtsChars.value
          else p.maxTtsChars.value - Min(p.maxTtsChars.value * p.reservePercent, U64_MAX) / 100)
  }

  predicate CostSpent(p: Policy, a: Admission, held: u64) {
    p.maxCost.Some? && Min(held + a.estimatedCost, U64_MAX) > p.maxCost.value
  }

  /** What a request meets after a run: the recent calls and what the amount ledgers still sum to. */
  datatype Meets = Meets(calls: nat, chars: u64, cost: u64)

  function MeetsAt(p: Policy, st: State, now: u64): Meets {
    Meets(RecentCalls(p, st.history, now), Held(Trim(st.ledgers.ttsChars, SatSub(now, p.intervalMs))),
          Held(Trim(st.ledgers.cost, SatSub(now, p.intervalMs))))
  }

  /** The decision on a request after any run in time order, exactly: it is refused for the first of its
      checks that fails, and admitted if none does. A call limit is spent when the admissions of the last
      interval reach the limit, less the reserved percentage for all but high priority. */
  lemma DecidedExactly(p: Policy, ops: seq<Op>, clock: nat, now: u64, inFlight: nat, a: Admission)
    requires ValidPolicy(p) && InOrder(ops, clock) && clock <= now
    ensures var m := MeetsAt(p, Run(p, ops), now);
            Refusal(p, TrimAll(p, Run(p, ops).ledgers, now), inFlight, a)
            == if NoSlot(p, inFlight) then Some(ConcurrentExhausted)
               else if CallsSpent(p, a.priority, p.maxLlmCalls, m.calls) then Some(LlmCallsExhausted)
               else if CallsSpent(p, a.priority, p.maxTtsCalls, m.calls) then Some(TtsCallsExhausted)
               else if CharsSpent(p, a, m.chars) then Some(TtsCharsExhausted)
               else if CostSpent(p, a, m.cost) then Some(CostExhausted)
               else None
  {
    hide Run, Effective, CallShare, RecentCalls, Trim, Held;
    UnitsAreNeverCharged(p, ops);
    assert Trim([], Horizon(p, now)) == [] && Held([]) == 0 by { NothingHeld(Horizon(p, now)); }
    CallTest(p, ops, clock, now, a.priority, false);
    CallTest(p, ops, clock, now, a.priority, true);
    if p.maxTtsChars.Some? {
      ShareInNumbers(p, a.priority, p.maxTtsChars.value);
    }
  }

  lemma NothingHeld(horizon: nat)
    ensures Trim([], horizon) == [] && Held([]) == 0
  {
  }

  /** The test of one call limit on the trimmed ledger is the one on recent calls. */
  lemma CallTest(p: Policy, ops: seq<Op>, clock: nat, now: u64, priority: Priority, tts: bool)
    requires ValidPolicy(p) && InOrder(ops, clock) && clock <= now
    ensures var l := TrimAll(p, Run(p, ops).ledgers, now);
            CallLimit(p, tts).Some? ==>
              (|if tts then l.ttsCalls else l.llmCalls| >= Effective(p, priority, CallLimit(p, tts).value)
               <==> CallsSpent(p, priority, CallLimit(p, tts), RecentCalls(p, Run(p, ops).history, now)))
  {
    hide Run, Effective, CallShare, RecentCalls, TrimAll;
    if CallLimit(p, tts).Some? {
      CallLedger(p, ops, clock, now, tts);
      CallShareInNumbers(p, priority, CallLimit(p, tts).value);
    }
  }

  /** The reserve is reachable: a high-priority request is refused for a call limit only when the last
      interval holds the whole limit, at least the whole reserve of it of high priority. */
  lemma RefusedWithTheReserveSpent(p: Policy, ops: seq<Op>, clock: nat, now: u64, inFlight: nat, a: Admission,
                                   tts: bool)
    requires ValidPolicy(p) && InOrder(ops, clock) && clock <= now && a.priority == High
    requires Refusal(p, TrimAll(p, Run(p, ops).ledgers, now), inFlight, a)
             == Some(if tts then TtsCallsExhausted else LlmCallsExhausted)
    ensures CallLimit(p, tts).Some?
    ensures var history, limit := Run(p, ops).history, CallLimit(p, tts).value;
            && RecentCalls(p, history, now) >= limit
            && |Filter(history, HighWithin(SatSub(now, p.intervalMs), p.intervalMs))| >= limit * p.reservePercent / 100
  {
    DecidedExactly(p, ops, clock, now, inFlight, a);
    CallLedger(p, ops, clock, now, tts);
    ReserveIsReachable(p, ops, clock, now, tts);
    PercentOf(CallLimit(p, tts).value, p.reservePercent);
    hide Run;
  }

  /** And ordinary requests cannot keep it from a high-priority one: while fewer calls than the limit are
      recent, no call limit refuses high priority. */
  lemma HighPriorityUsesTheReserve(p: Policy, ops: seq<Op>, clock: nat, now: u64, inFlight: nat, a: Admission)
    requires ValidPolicy(p) && InOrder(ops, clock) && clock <= now && a.priority == High
    requires p.maxLlmCalls.Some? ==> RecentCalls(p, Run(p, ops).history, now) < p.maxLlmCalls.value
    requires p.maxTtsCalls.Some? ==> RecentCalls(p, Run(p, ops).history, now) < p.maxTtsCalls.value
    ensures Refusal(p, TrimAll(p, Run(p, ops).ledgers, now), inFlight, a) !in {Some(LlmCallsExhausted),
            Some(TtsCallsExhausted)}
  {
    DecidedExactly(p, ops, clock, now, inFlight, a);
  }
}
