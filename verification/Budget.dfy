/** The generative budget governor: sliding-window call limits with a reserve, and concurrency slots. */
module Budget {
  import opened Seqs
  import opened Words

  const U32_WRAP: nat := 0x1_0000_0000

  type u32 = x: int | 0 <= x < U32_WRAP

  datatype Priority = High | Ordinary | Shadow

  datatype Policy = Policy(
    enabled: bool, maxConcurrent: Option<u32>, maxLlmCalls: Option<u32>, maxTtsCalls: Option<u32>,
    maxLlmUnits: Option<u64>, maxTtsChars: Option<u64>, maxCost: Option<u64>,
    intervalMs: u64, reservePercent: nat, chargeShadow: bool)

  predicate ValidPolicy(p: Policy) {
    && p.intervalMs > 0 && p.reservePercent <= 100
    && p.maxConcurrent != Some(0) && p.maxLlmCalls != Some(0) && p.maxTtsCalls != Some(0)
    && p.maxLlmUnits != Some(0) && p.maxTtsChars != Some(0) && p.maxCost != Some(0)
  }

  function ReserveShare(p: Policy, limit: nat): nat {
    (if limit * p.reservePercent <= U64_MAX then limit * p.reservePercent else U64_MAX) / 100
  }

  /** What ordinary requests may use of a call limit. */
  function OrdinaryShare(p: Policy, limit: nat): nat { SatSub(limit, ReserveShare(p, limit)) }

  lemma SharesAddUp(p: Policy, limit: u32)
    requires p.reservePercent <= 100
    ensures OrdinaryShare(p, limit) + ReserveShare(p, limit) == limit
  {
    PercentOf(limit, p.reservePercent);
    var part := limit * p.reservePercent;
    assert part <= U64_MAX && part / 100 <= limit;
  }

  lemma PercentOf(limit: nat, percent: nat)
    requires percent <= 100
    ensures 0 <= limit * percent <= 100 * limit
  {
    var rest := 100 - percent;
    assert limit * percent + limit * rest == limit * (percent + rest);
  }

  datatype Admission = Admission(priority: Priority, estimatedChars: u64, estimatedCost: u64)

  datatype Denial = ConcurrentExhausted | LlmCallsExhausted | TtsCallsExhausted
                  | LlmUnitsExhausted | TtsCharsExhausted | CostExhausted

  /** Call ledgers hold times; the unit, character and cost ledgers hold amounts. */
  datatype Ledgers = Ledgers(llmCalls: seq<u64>, ttsCalls: seq<u64>, llmUnits: seq<u64>,
                             ttsChars: seq<u64>, cost: seq<u64>)

  const EMPTY: Ledgers := Ledgers([], [], [], [], [])

  function Sum(s: seq<u64>): nat { if s == [] then 0 else Sum(Front(s)) + Last(s) }

  /** The program's own sum of a ledger, in a 64-bit word that wraps. */
  function Held(s: seq<u64>): u64 { if s == [] then 0 else (Held(Front(s)) + Last(s)) % (U64_MAX + 1) }

  lemma {:induction false} HeldIsSumInAWord(s: seq<u64>)
    ensures Held(s) == Sum(s) % (U64_MAX + 1)
  {
    if s != [] {
      HeldIsSumInAWord(Front(s));
      WrapAdds(Sum(Front(s)), Last(s));
    }
  }

  lemma WrapAdds(a: nat, b: nat)
    ensures (a % (U64_MAX + 1) + b) % (U64_MAX + 1) == (a + b) % (U64_MAX + 1)
  {
    var k := a / (U64_MAX + 1);
    assert a + b == (U64_MAX + 1) * k + (a % (U64_MAX + 1) + b);
  }

  // ---- Admission on values -------------------------------------------------

  /** Drop from the front while the front is below the horizon. */
  function Trim(ledger: seq<u64>, horizon: nat): seq<u64> {
    if ledger != [] && ledger[0] < horizon then Trim(ledger[1..], horizon) else ledger
  }

  function Horizon(p: Policy, now: nat): nat { SatSub(now, p.intervalMs) }

  function TrimAll(p: Policy, l: Ledgers, now: u64): Ledgers {
    var h := Horizon(p, now);
    Ledgers(Trim(l.llmCalls, h), Trim(l.ttsCalls, h), Trim(l.llmUnits, h), Trim(l.ttsChars, h), Trim(l.cost, h))
  }

  /** How much of a limit this priority may use. */
  function Effective(p: Policy, priority: Priority, limit: nat): nat {
    if priority == High then limit else OrdinaryShare(p, limit)
  }

  /** Why a charged request is refused against trimmed ledgers. */
  function Refusal(p: Policy, l: Ledgers, inFlight: nat, a: Admission): Option<Denial> {
    if p.maxConcurrent.Some? && inFlight >= p.maxConcurrent.value then Some(ConcurrentExhausted)
    else if p.maxLlmCalls.Some? && |l.llmCalls| >= Effective(p, a.priority, p.maxLlmCalls.value)
    then Some(LlmCallsExhausted)
    else if p.maxTtsCalls.Some? && |l.ttsCalls| >= Effective(p, a.priority, p.maxTtsCalls.value)
    then Some(TtsCallsExhausted)
    else if p.maxLlmUnits.Some? && Held(l.llmUnits) >= p.maxLlmUnits.value then Some(LlmUnitsExhausted)
    else if p.maxTtsChars.Some?
            && SatAdd(Held(l.ttsChars), a.estimatedChars) > Effective(p, a.priority, p.maxTtsChars.value)
    then Some(TtsCharsExhausted)
    else if p.maxCost.Some? && SatAdd(Held(l.cost), a.estimatedCost) > p.maxCost.value then Some(CostExhausted)
    else None
  }

  function Push(ledger: seq<u64>, amount: u64, charged: bool): seq<u64> {
    if charged then ledger + [amount] else ledger
  }

  function Charge(p: Policy, l: Ledgers, a: Admission, now: u64): Ledgers {
    Ledgers(Push(l.llmCalls, now, p.maxLlmCalls.Some?), Push(l.ttsCalls, now, p.maxTtsCalls.Some?), l.llmUnits,
            Push(l.ttsChars, a.estimatedChars, p.maxTtsChars.Some? && a.estimatedChars > 0),
            Push(l.cost, a.estimatedCost, p.maxCost.Some? && a.estimatedCost > 0))
  }

  predicate Billable(p: Policy, priority: Priority) { p.enabled && (priority == Shadow ==> p.chargeShadow) }

  function Settled(p: Policy, l: Ledgers, extraChars: u64, extraCost: u64): Ledgers {
    l.(ttsChars := Push(l.ttsChars, extraChars, p.maxTtsChars.Some? && extraChars > 0),
       cost := Push(l.cost, extraCost, p.maxCost.Some? && extraCost > 0))
  }

  // ---- Runs ----------------------------------------------------------------

  /** A charged admission. */
  datatype Charged = Charged(at: u64, priority: Priority)

  /** An amount charged: by an admission of some priority, or by a settlement topping up to actual use. */
  datatype Spend = Spend(at: u64, amount: u64, who: Option<Priority>)

  /** One thing that happens: a request, meeting any number of requests in flight, or a settlement. */
  datatype Op = Admit(a: Admission, now: u64, inFlight: nat) | Settle(extraChars: u64, extraCost: u64, now: u64)

  /** The ledgers, and the model's own record of what was charged and when. */
  datatype State = State(ledgers: Ledgers, history: seq<Charged>, chars: seq<Spend>, costs: seq<Spend>)

  const INITIAL: State := State(EMPTY, [], [], [])

  function Record(spends: seq<Spend>, at: u64, amount: u64, who: Option<Priority>, charged: bool): seq<Spend> {
    if charged then spends + [Spend(at, amount, who)] else spends
  }

  function Step(p: Policy, st: State, op: Op): State {
    match op
    case Settle(chars, cost, now) =>
      State(Settled(p, st.ledgers, chars, cost), st.history,
            Record(st.chars, now, chars, None, p.maxTtsChars.Some? && chars > 0),
            Record(st.costs, now, cost, None, p.maxCost.Some? && cost > 0))
    case Admit(a, now, inFlight) =>
      if !Billable(p, a.priority) then st
      else
        var l := TrimAll(p, st.ledgers, now);
        if Refusal(p, l, inFlight, a).Some? then st.(ledgers := l)
        else
          State(Charge(p, l, a, now), st.history + [Charged(now, a.priority)],
                Record(st.chars, now, a.estimatedChars, Some(a.priority), p.maxTtsChars.Some? && a.estimatedChars > 0),
                Record(st.costs, now, a.estimatedCost, Some(a.priority), p.maxCost.Some? && a.estimatedCost > 0))
  }

  function Run(p: Policy, ops: seq<Op>): State {
    if ops == [] then INITIAL else Step(p, Run(p, Front(ops)), Last(ops))
  }

  /** Times do not decrease, and `clock` is no earlier than any of them. */
  ghost predicate InOrder(ops: seq<Op>, clock: nat) {
    && (forall i :: 0 <= i < |ops| ==> ops[i].now <= clock)
    && (forall i, j :: 0 <= i < j < |ops| ==> ops[i].now <= ops[j].now)
  }

  function Within(start: nat, length: nat): Charged -> bool {
    (c: Charged) => start <= c.at <= start + length
  }

  function OrdinaryWithin(start: nat, length: nat): Charged -> bool {
    (c: Charged) => start <= c.at <= start + length && c.priority != High
  }

  function HighWithin(start: nat, length: nat): Charged -> bool {
    (c: Charged) => start <= c.at <= start + length && c.priority == High
  }

  /** Charged no more than an interval before `now`. */
  function Recent(interval: nat, now: nat): Charged -> bool { (c: Charged) => c.at + interval >= now }

  function Times(history: seq<Charged>): seq<u64> { Map(history, (c: Charged) => c.at) }

  /** Each admission found fewer recent ones than its priority may use. */
  ghost predicate Admissible(p: Policy, limit: nat, history: seq<Charged>) {
    forall m :: 0 <= m < |history| ==>
      |Filter(history[..m], Recent(p.intervalMs, history[m].at))| < Effective(p, history[m].priority, limit)
  }

  /** The ledger holds the latest admissions; those dropped are more than an interval old. */
  ghost predicate Tracks(p: Policy, limit: nat, history: seq<Charged>, ledger: seq<u64>, clock: nat) {
    && HoldsLatest(p, history, ledger, clock)
    && Chronological(history, clock)
    && Admissible(p, limit, history)
  }

  ghost predicate HoldsLatest(p: Policy, history: seq<Charged>, ledger: seq<u64>, clock: nat) {
    && |ledger| <= |history| && ledger == Times(history)[|history| - |ledger|..]
    && forall k :: 0 <= k < |history| - |ledger| ==> history[k].at + p.intervalMs < clock
  }

  ghost predicate Chronological(history: seq<Charged>, clock: nat) {
    && (forall k :: 0 <= k < |history| ==> history[k].at <= clock)
    && (forall i, j :: 0 <= i < j < |history| ==> history[i].at <= history[j].at)
  }

  lemma LedgerAt(p: Policy, history: seq<Charged>, ledger: seq<u64>, clock: nat, k: nat)
    requires HoldsLatest(p, history, ledger, clock) && k < |ledger|
    ensures ledger[k] == history[|history| - |ledger| + k].at
  {
    assert ledger[k] == Times(history)[|history| - |ledger| + k];
  }

  /** An expired front may go. */
  lemma DropFront(p: Policy, history: seq<Charged>, ledger: seq<u64>, now: nat)
    requires HoldsLatest(p, history, ledger, now) && ledger != [] && ledger[0] + p.intervalMs < now
    ensures HoldsLatest(p, history, ledger[1..], now)
  {
    LedgerAt(p, history, ledger, now, 0);
  }

  lemma {:induction false} TrimKeepsTracks(p: Policy, limit: nat, history: seq<Charged>, ledger: seq<u64>, clock: nat,
                                           now: nat)
    requires Tracks(p, limit, history, ledger, clock) && clock <= now
    ensures Tracks(p, limit, history, Trim(ledger, Horizon(p, now)), now)
    ensures forall k :: 0 <= k < |Trim(ledger, Horizon(p, now))| ==>
              Trim(ledger, Horizon(p, now))[k] + p.intervalMs >= now
    decreases |ledger|
  {
    hide Admissible;
    if ledger != [] && ledger[0] < Horizon(p, now) {
      DropFront(p, history, ledger, now);
      TrimKeepsTracks(p, limit, history, ledger[1..], now, now);
    } else {
      forall k | 0 <= k < |ledger| ensures ledger[k] + p.intervalMs >= now {
        LedgerAt(p, history, ledger, clock, 0);
        LedgerAt(p, history, ledger, clock, k);
      }
    }
  }

  /** Everything recent is still in the ledger. */
  lemma {:induction false} RecentAreTracked(p: Policy, limit: nat, history: seq<Charged>, ledger: seq<u64>, now: nat)
    requires Tracks(p, limit, history, ledger, now)
    ensures |Filter(history, Recent(p.intervalMs, now))| <= |ledger|
  {
    hide Admissible;
    var cut, recent := |history| - |ledger|, Recent(p.intervalMs, now);
    forall x | x in history[..cut] ensures !recent(x) {
      var k :| 0 <= k < cut && history[..cut][k] == x;
      assert history[k].at + p.intervalMs < now;
    }
    hide Tracks;
    assert history == history[..cut] + history[cut..];
    FilterConcat(history[..cut], history[cut..], recent);
    FilterNone(history[..cut], recent);
  }

  lemma ChargeKeepsTracks(p: Policy, limit: nat, history: seq<Charged>, ledger: seq<u64>, now: u64, priority: Priority)
    requires Tracks(p, limit, history, ledger, now) && |ledger| < Effective(p, priority, limit)
    ensures Tracks(p, limit, history + [Charged(now, priority)], ledger + [now], now)
  {
    hide Filter;
    var c := Charged(now, priority);
    assert |Filter(history, Recent(p.intervalMs, now))| < Effective(p, priority, limit) by {
      RecentAreTracked(p, limit, history, ledger, now);
    }
    assert Admissible(p, limit, history + [c]) by {
      AdmissibleSnoc(p, limit, history, c);
    }
    assert HoldsLatest(p, history + [c], ledger + [now], now) by {
      assert Times(history + [c]) == Times(history) + [now];
      TailSnoc(Times(history), now, |history| - |ledger|);
    }
  }

  lemma TailSnoc<T>(s: seq<T>, x: T, cut: nat)
    requires cut <= |s|
    ensures (s + [x])[cut..] == s[cut..] + [x]
  {
  }

  lemma AdmissibleSnoc(p: Policy, limit: nat, history: seq<Charged>, c: Charged)
    requires Admissible(p, limit, history)
    requires |Filter(history, Recent(p.intervalMs, c.at))| < Effective(p, c.priority, limit)
    ensures Admissible(p, limit, history + [c])
  {
    forall m | 0 <= m < |history + [c]|
      ensures |Filter((history + [c])[..m], Recent(p.intervalMs, (history + [c])[m].at))|
              < Effective(p, (history + [c])[m].priority, limit)
    {
      assert (history + [c])[..m] == history[..m];
      if m == |history| {
        assert history[..m] == history;
      }
    }
  }

  /** What a run keeps for one enforced call limit. */
  ghost predicate LedgersTrack(p: Policy, st: State, clock: nat) {
    && (p.maxLlmCalls.Some? ==> Tracks(p, p.maxLlmCalls.value, st.history, st.ledgers.llmCalls, clock))
    && (p.maxTtsCalls.Some? ==> Tracks(p, p.maxTtsCalls.value, st.history, st.ledgers.ttsCalls, clock))
  }

  lemma StepKeepsTracking(p: Policy, st: State, op: Op, clock: nat)
    requires LedgersTrack(p, st, clock) && op.Admit? && clock <= op.now
    ensures LedgersTrack(p, Step(p, st, op), op.now)
  {
    var now := op.now;
    if p.maxLlmCalls.Some? {
      LedgerStep(p, p.maxLlmCalls.value, st.history, st.ledgers.llmCalls, clock, op);
    }
    if p.maxTtsCalls.Some? {
      LedgerStep(p, p.maxTtsCalls.value, st.history, st.ledgers.ttsCalls, clock, op);
    }
  }

  lemma LedgerStep(p: Policy, limit: nat, history: seq<Charged>, ledger: seq<u64>, clock: nat, op: Op)
    requires Tracks(p, limit, history, ledger, clock) && op.Admit? && clock <= op.now
    ensures var trimmed := Trim(ledger, Horizon(p, op.now));
            && Tracks(p, limit, history, ledger, op.now)
            && Tracks(p, limit, history, trimmed, op.now)
            && (|trimmed| < Effective(p, op.a.priority, limit) ==>
                  Tracks(p, limit, history + [Charged(op.now, op.a.priority)], trimmed + [op.now], op.now))
  {
    TrimKeepsTracks(p, limit, history, ledger, clock, op.now);
    var trimmed := Trim(ledger, Horizon(p, op.now));
    if |trimmed| < Effective(p, op.a.priority, limit) {
      ChargeKeepsTracks(p, limit, history, trimmed, op.now, op.a.priority);
    }
  }

  lemma {:induction false} RunKeepsTracking(p: Policy, ops: seq<Op>, clock: nat)
    requires InOrder(ops, clock)
    ensures LedgersTrack(p, Run(p, ops), clock)
  {
    if ops != [] {
      var op := Last(ops);
      if op.Admit? {
        RunKeepsTracking(p, Front(ops), op.now);
        StepKeepsTracking(p, Run(p, Front(ops)), op, op.now);
        LaterClock(p, Run(p, ops), op.now, clock);
      } else {
        RunKeepsTracking(p, Front(ops), clock);
      }
    }
  }

  lemma LaterClock(p: Policy, st: State, clock: nat, later: nat)
    requires LedgersTrack(p, st, clock) && clock <= later
    ensures LedgersTrack(p, st, later)
  {
  }

  // ---- The window bounds ---------------------------------------------------

  /** Any closed window of one interval holds at most the limit, and at most the ordinary share of
      ordinary admissions. */
  lemma {:induction false} WindowBound(p: Policy, limit: nat, history: seq<Charged>, start: nat)
    requires Admissible(p, limit, history)
    ensures |Filter(history, Within(start, p.intervalMs))| <= limit
    ensures |Filter(history, OrdinaryWithin(start, p.intervalMs))| <= OrdinaryShare(p, limit)
  {
    if history != [] {
      var before, last := Front(history), Last(history);
      assert Admissible(p, limit, before) by {
        forall m | 0 <= m < |before|
          ensures |Filter(before[..m], Recent(p.intervalMs, before[m].at))| < Effective(p, before[m].priority, limit)
        {
          assert before[..m] == history[..m];
        }
      }
      WindowBound(p, limit, before, start);
      assert history[..|history| - 1] == before;
      if Within(start, p.intervalMs)(last) {
        FilterMonotone(before, Within(start, p.intervalMs), Recent(p.intervalMs, last.at));
        FilterMonotone(before, OrdinaryWithin(start, p.intervalMs), Recent(p.intervalMs, last.at));
      }
    }
  }

  function CallLimit(p: Policy, tts: bool): Option<u32> { if tts then p.maxTtsCalls else p.maxLlmCalls }

  /** Over any run with nondecreasing request times, every closed window of one interval contains at
      most the call limit of charged admissions, and at most the ordinary share of those that are
      not high priority — for either call limit, whatever settlements and slots do meanwhile. */
  lemma CallsFitEveryWindow(p: Policy, ops: seq<Op>, clock: nat, tts: bool, start: nat)
    requires InOrder(ops, clock) && CallLimit(p, tts).Some?
    ensures var history, limit := Run(p, ops).history, CallLimit(p, tts).value;
            && |Filter(history, Within(start, p.intervalMs))| <= limit
            && |Filter(history, OrdinaryWithin(start, p.intervalMs))| <= OrdinaryShare(p, limit)
  {
    RunKeepsTracking(p, ops, clock);
    WindowBound(p, CallLimit(p, tts).value, Run(p, ops).history, start);
  }

  lemma TrackedAreInWindow(p: Policy, limit: nat, history: seq<Charged>, ledger: seq<u64>, now: nat)
    requires Tracks(p, limit, history, ledger, now)
    requires forall k :: 0 <= k < |ledger| ==> ledger[k] + p.intervalMs >= now
    ensures |Filter(history, Within(SatSub(now, p.intervalMs), p.intervalMs))| >= |ledger|
  {
    hide Admissible;
    var cut := |history| - |ledger|;
    var w := Within(SatSub(now, p.intervalMs), p.intervalMs);
    var tail := history[cut..];
    forall c | c in tail ensures w(c) {
      var k :| 0 <= k < |tail| && tail[k] == c;
      LedgerAt(p, history, ledger, now, k);
    }
    FilterAll(tail, w);
    FilterOfTail(history, cut, w);
  }

  lemma FilterOfTail<T>(s: seq<T>, cut: nat, p: T -> bool)
    requires cut <= |s|
    ensures |Filter(s, p)| >= |Filter(s[cut..], p)|
  {
    assert s == s[..cut] + s[cut..];
    FilterConcat(s[..cut], s[cut..], p);
  }

  /** The reserve is reachable: a high-priority request is refused for a call limit only when at least
      the whole reserve was charged to high-priority requests within the last interval. */
  lemma ReserveIsReachable(p: Policy, ops: seq<Op>, clock: nat, now: u64, tts: bool)
    requires ValidPolicy(p) && InOrder(ops, clock) && clock <= now && CallLimit(p, tts).Some?
    requires var l := TrimAll(p, Run(p, ops).ledgers, now);
             |if tts then l.ttsCalls else l.llmCalls| >= CallLimit(p, tts).value
    ensures |Filter(Run(p, ops).history, HighWithin(SatSub(now, p.intervalMs), p.intervalMs))|
            >= ReserveShare(p, CallLimit(p, tts).value)
  {
    var st, limit := Run(p, ops), CallLimit(p, tts).value;
    var ledger := if tts then st.ledgers.ttsCalls else st.ledgers.llmCalls;
    var start := SatSub(now, p.intervalMs);
    RunKeepsTracking(p, ops, clock);
    TrimKeepsTracks(p, limit, st.history, ledger, clock, now);
    TrackedAreInWindow(p, limit, st.history, Trim(ledger, Horizon(p, now)), now);
    WindowBound(p, limit, st.history, start);
    SplitByPriority(st.history, start, p.intervalMs);
    SharesAddUp(p, limit);
  }

  lemma {:induction false} SplitByPriority(history: seq<Charged>, start: nat, length: nat)
    ensures |Filter(history, Within(start, length))|
            == |Filter(history, OrdinaryWithin(start, length))| + |Filter(history, HighWithin(start, length))|
  {
    if history != [] {
      SplitByPriority(Front(history), start, length);
    }
  }

  // ---- The amount ledgers --------------------------------------------------

  // The character and cost ledgers hold amounts, and trimming compares them with a time. Below, `cost`
  // selects between the two.

  function Spent(st: State, cost: bool): seq<Spend> { if cost then st.costs else st.chars }

  function AmountLedger(l: Ledgers, cost: bool): seq<u64> { if cost then l.cost else l.ttsChars }

  function AmountLimit(p: Policy, cost: bool): Option<u64> { if cost then p.maxCost else p.maxTtsChars }

  /** Only the character limit keeps a reserve. */
  function AmountShare(p: Policy, cost: bool, priority: Priority, limit: nat): nat {
    if cost then limit else Effective(p, priority, limit)
  }

  function Asked(a: Admission, cost: bool): u64 { if cost then a.estimatedCost else a.estimatedChars }

  function Amounts(spends: seq<Spend>): seq<u64> { Map(spends, (s: Spend) => s.amount) }

  function Total(spends: seq<Spend>): nat { if spends == [] then 0 else Total(Front(spends)) + Last(spends).amount }

  /** Charged no more than an interval before `now`. */
  predicate IsRecent(p: Policy, s: Spend, now: nat) { s.at + p.intervalMs >= now }

  function RecentSpend(p: Policy, now: nat): Spend -> bool { (s: Spend) => IsRecent(p, s, now) }

  /** What was charged within the interval that ends at `now`. */
  function InWindow(p: Policy, spends: seq<Spend>, now: nat): nat {
    Total(Filter(spends, RecentSpend(p, now)))
  }

  /** The ledger is the tail of what was charged. */
  ghost predicate Ledgered(spends: seq<Spend>, ledger: seq<u64>, clock: nat) {
    && |ledger| <= |spends| && ledger == Amounts(spends)[|spends| - |ledger|..]
    && (forall k :: 0 <= k < |spends| ==> spends[k].amount > 0 && spends[k].at <= clock)
    && (forall i, j :: 0 <= i < j < |spends| ==> spends[i].at <= spends[j].at)
  }

  ghost predicate AmountsTrack(st: State, clock: nat) {
    Ledgered(st.chars, st.ledgers.ttsChars, clock) && Ledgered(st.costs, st.ledgers.cost, clock)
  }

  /** Something charged within the last interval is lost at `now`: every amount from the ledger's front
      up to it is numerically below the time horizon, or it was lost before. */
  ghost predicate Forgets(p: Policy, spends: seq<Spend>, ledger: seq<u64>, now: nat) {
    exists k :: 0 <= k < |spends| && IsRecent(p, spends[k], now)
                && AllBelow(spends, |spends| - |ledger|, k, Horizon(p, now))
  }

  ghost predicate AllBelow(spends: seq<Spend>, from: int, to_: nat, horizon: nat) {
    forall i :: 0 <= i < |spends| && from <= i <= to_ ==> spends[i].amount < horizon
  }

  /** Some recent charge is not among the last `held`. */
  ghost predicate Dropped(p: Policy, spends: seq<Spend>, held: nat, now: nat) {
    exists k :: 0 <= k < |spends| - held && IsRecent(p, spends[k], now)
  }

  lemma {:induction false} TrimDropsBelow(ledger: seq<u64>, horizon: nat)
    ensures var m := |ledger| - |Trim(ledger, horizon)|;
            && 0 <= m && Trim(ledger, horizon) == ledger[m..]
            && (forall i :: 0 <= i < m ==> ledger[i] < horizon)
            && (m < |ledger| ==> ledger[m] >= horizon)
  {
    if ledger != [] && ledger[0] < horizon {
      TrimDropsBelow(ledger[1..], horizon);
      assert forall i :: 1 <= i < |ledger| ==> ledger[i] == ledger[1..][i - 1];
    }
  }

  lemma AmountAt(spends: seq<Spend>, ledger: seq<u64>, clock: nat, k: nat)
    requires Ledgered(spends, ledger, clock) && k < |ledger|
    ensures ledger[k] == spends[|spends| - |ledger| + k].amount
  {
    assert ledger[k] == Amounts(spends)[|spends| - |ledger| + k];
  }

  /** The last `held` of the charges, all but the first `m` of the ledger's. */
  ghost predicate TrimmedAt(spends: seq<Spend>, cut: nat, m: nat, horizon: nat) {
    && cut + m <= |spends|
    && (forall i :: cut <= i < cut + m ==> spends[i].amount < horizon)
    && (cut + m < |spends| ==> spends[cut + m].amount >= horizon)
  }

  lemma TrimmedCharges(spends: seq<Spend>, ledger: seq<u64>, clock: nat, horizon: nat)
    requires Ledgered(spends, ledger, clock)
    ensures |Trim(ledger, horizon)| <= |ledger|
    ensures TrimmedAt(spends, |spends| - |ledger|, |ledger| - |Trim(ledger, horizon)|, horizon)
  {
    var cut, m := |spends| - |ledger|, |ledger| - |Trim(ledger, horizon)|;
    TrimDropsBelow(ledger, horizon);
    hide Trim;
    forall i | cut <= i < cut + m ensures spends[i].amount < horizon {
      AmountAt(spends, ledger, clock, i - cut);
    }
    if m < |ledger| {
      AmountAt(spends, ledger, clock, m);
    }
  }

  lemma ForgottenIsDropped(p: Policy, spends: seq<Spend>, cut: nat, m: nat, k: nat, horizon: nat)
    requires TrimmedAt(spends, cut, m, horizon) && k < |spends|
    ensures AllBelow(spends, cut, k, horizon) <==> k < cut + m
  {
    if k >= cut + m {
      assert !(spends[cut + m].amount < horizon);
    }
  }

  lemma ForgetsWhatIsDropped(p: Policy, spends: seq<Spend>, ledger: seq<u64>, clock: nat, now: nat)
    requires Ledgered(spends, ledger, clock)
    ensures Forgets(p, spends, ledger, now) <==> Dropped(p, spends, |Trim(ledger, Horizon(p, now))|, now)
  {
    var h := Horizon(p, now);
    TrimmedCharges(spends, ledger, clock, h);
    assert |ledger| <= |spends|;
    hide Trim, Ledgered, TrimmedAt, AllBelow, IsRecent, Horizon;
    var cut, m := |spends| - |ledger|, |ledger| - |Trim(ledger, h)|;
    forall k | 0 <= k < |spends| ensures AllBelow(spends, cut, k, h) <==> k < cut + m {
      ForgottenIsDropped(p, spends, cut, m, k, h);
    }
  }

  lemma {:induction false} TotalConcat(s: seq<Spend>, t: seq<Spend>)
    ensures Total(s + t) == Total(s) + Total(t)
  {
    if t == [] {
      assert s + t == s;
    } else {
      assert Front(s + t) == s + Front(t);
      TotalConcat(s, Front(t));
    }
  }

  lemma {:induction false} TotalOfFilter(s: seq<Spend>, q: Spend -> bool)
    ensures Total(Filter(s, q)) <= Total(s)
  {
    if s != [] {
      TotalOfFilter(Front(s), q);
      assert s == Front(s) + [Last(s)];
      TotalSnoc(Front(s), Last(s), q);
    }
  }

  lemma {:induction false} SumIsTotal(s: seq<Spend>)
    ensures Sum(Amounts(s)) == Total(s)
  {
    if s != [] {
      SumIsTotal(Front(s));
      assert Front(Amounts(s)) == Amounts(Front(s));
    }
  }

  function TailTotal(spends: seq<Spend>, cut: nat): nat
    requires cut <= |spends|
  {
    Total(spends[cut..])
  }

  lemma LedgerTotal(spends: seq<Spend>, ledger: seq<u64>, clock: nat)
    requires Ledgered(spends, ledger, clock)
    ensures |ledger| <= |spends| && Sum(ledger) == TailTotal(spends, |spends| - |ledger|)
  {
    var tail := spends[|spends| - |ledger|..];
    SumIsTotal(tail);
    assert Amounts(tail) == ledger;
  }

  lemma TotalSnoc(s: seq<Spend>, x: Spend, q: Spend -> bool)
    ensures Total(Filter(s + [x], q)) == Total(Filter(s, q)) + (if q(x) then x.amount else 0)
  {
    FilterSnoc(s, x, q);
    if q(x) {
      assert Front(Filter(s, q) + [x]) == Filter(s, q);
    } else {
      assert Filter(s + [x], q) == Filter(s, q);
    }
  }

  /** All charges from `k` on are recent, so the window holds at least them. */
  lemma WindowHolds(p: Policy, spends: seq<Spend>, k: nat, now: nat)
    requires k <= |spends| && forall i :: k <= i < |spends| ==> IsRecent(p, spends[i], now)
    ensures InWindow(p, spends, now) >= TailTotal(spends, k)
  {
    var recent := RecentSpend(p, now);
    assert spends == spends[..k] + spends[k..];
    FilterConcat(spends[..k], spends[k..], recent);
    FilterAll(spends[k..], recent);
    TotalConcat(Filter(spends[..k], recent), spends[k..]);
  }

  /** No recent charge is missing from the last `held`, so the window holds at most those. */
  lemma WindowWithin(p: Policy, spends: seq<Spend>, held: nat, now: nat)
    requires held <= |spends| && !Dropped(p, spends, held, now)
    ensures InWindow(p, spends, now) <= TailTotal(spends, |spends| - held)
  {
    var recent, cut := RecentSpend(p, now), |spends| - held;
    forall x | x in spends[..cut] ensures !recent(x) {
      var k :| 0 <= k < cut && spends[..cut][k] == x;
      assert !IsRecent(p, spends[k], now);
    }
    hide Dropped, IsRecent;
    assert spends == spends[..cut] + spends[cut..];
    FilterConcat(spends[..cut], spends[cut..], recent);
    FilterNone(spends[..cut], recent);
    assert [] + Filter(spends[cut..], recent) == Filter(spends[cut..], recent);
    TotalOfFilter(spends[cut..], recent);
  }

  lemma TotalOfTail(spends: seq<Spend>, k: nat, cut: nat)
    requires k < cut <= |spends| && spends[k].amount > 0
    ensures TailTotal(spends, k) > TailTotal(spends, cut)
  {
    assert spends[k..] == [spends[k]] + (spends[k + 1..cut] + spends[cut..]);
    TotalConcat([spends[k]], spends[k + 1..cut] + spends[cut..]);
    TotalConcat(spends[k + 1..cut], spends[cut..]);
    assert Total([spends[k]]) == spends[k].amount;
  }

  lemma RecentOnward(p: Policy, spends: seq<Spend>, ledger: seq<u64>, clock: nat, now: nat, k: nat)
    requires Ledgered(spends, ledger, clock) && k < |spends| && IsRecent(p, spends[k], now)
    ensures spends[k].amount > 0 && forall i :: k <= i < |spends| ==> IsRecent(p, spends[i], now)
  {
  }

  lemma LostShortens(p: Policy, spends: seq<Spend>, ledger: seq<u64>, clock: nat, now: nat)
    requires Ledgered(spends, ledger, clock) && Dropped(p, spends, |ledger|, now)
    ensures InWindow(p, spends, now) > Sum(ledger)
  {
    hide InWindow, TailTotal, Sum, IsRecent, Ledgered, Dropped;
    LedgerTotal(spends, ledger, clock);
    var k := LostCharge(p, spends, |ledger|, now);
    RecentOnward(p, spends, ledger, clock, now, k);
    TotalOfTail(spends, k, |spends| - |ledger|);
    WindowHolds(p, spends, k, now);
  }

  lemma LostCharge(p: Policy, spends: seq<Spend>, held: nat, now: nat) returns (k: nat)
    requires held <= |spends| && Dropped(p, spends, held, now)
    ensures k < |spends| - held && IsRecent(p, spends[k], now)
  {
    hide IsRecent;
    k :| 0 <= k < |spends| - held && IsRecent(p, spends[k], now);
  }

  lemma NothingLost(p: Policy, spends: seq<Spend>, ledger: seq<u64>, clock: nat, now: nat)
    requires Ledgered(spends, ledger, clock) && !Dropped(p, spends, |ledger|, now)
    ensures InWindow(p, spends, now) <= Sum(ledger)
  {
    hide InWindow, TailTotal, Sum, IsRecent, Ledgered, Dropped;
    LedgerTotal(spends, ledger, clock);
    WindowWithin(p, spends, |ledger|, now);
  }

  /** The ledger falls short of the window exactly when it lost something recent. */
  lemma LedgerAgainstWindow(p: Policy, spends: seq<Spend>, ledger: seq<u64>, clock: nat, now: nat)
    requires Ledgered(spends, ledger, clock)
    ensures Sum(ledger) < InWindow(p, spends, now) <==> Dropped(p, spends, |ledger|, now)
  {
    hide *;
    if Dropped(p, spends, |ledger|, now) {
      LostShortens(p, spends, ledger, clock, now);
    } else {
      NothingLost(p, spends, ledger, clock, now);
    }
  }

  lemma TrimKeepsLedgered(spends: seq<Spend>, ledger: seq<u64>, clock: nat, horizon: nat)
    requires Ledgered(spends, ledger, clock)
    ensures Ledgered(spends, Trim(ledger, horizon), clock)
  {
    TrimDropsBelow(ledger, horizon);
  }

  lemma RecordKeepsLedgered(spends: seq<Spend>, ledger: seq<u64>, clock: nat, at: u64, amount: u64,
                            who: Option<Priority>, charged: bool)
    requires Ledgered(spends, ledger, clock) && clock <= at && (charged ==> amount > 0)
    ensures Ledgered(Record(spends, at, amount, who, charged), Push(ledger, amount, charged), at)
  {
    if charged {
      var s := Spend(at, amount, who);
      assert Amounts(spends + [s]) == Amounts(spends) + [amount];
      TailSnoc(Amounts(spends), amount, |spends| - |ledger|);
    }
  }

  lemma StepKeepsAmounts(p: Policy, st: State, op: Op, clock: nat)
    requires AmountsTrack(st, clock) && clock <= op.now
    ensures AmountsTrack(Step(p, st, op), op.now)
  {
    hide Ledgered, Refusal, Trim;
    LedgeredLater(st.chars, st.ledgers.ttsChars, clock, op.now);
    LedgeredLater(st.costs, st.ledgers.cost, clock, op.now);
    var chars, costs := st.ledgers.ttsChars, st.ledgers.cost;
    if op.Admit? {
      var h := Horizon(p, op.now);
      TrimKeepsLedgered(st.chars, chars, op.now, h);
      TrimKeepsLedgered(st.costs, costs, op.now, h);
      RecordKeepsLedgered(st.chars, Trim(chars, h), op.now, op.now, op.a.estimatedChars, Some(op.a.priority),
                          p.maxTtsChars.Some? && op.a.estimatedChars > 0);
      RecordKeepsLedgered(st.costs, Trim(costs, h), op.now, op.now, op.a.estimatedCost, Some(op.a.priority),
                          p.maxCost.Some? && op.a.estimatedCost > 0);
    } else {
      RecordKeepsLedgered(st.chars, chars, op.now, op.now, op.extraChars, None,
                          p.maxTtsChars.Some? && op.extraChars > 0);
      RecordKeepsLedgered(st.costs, costs, op.now, op.now, op.extraCost, None, p.maxCost.Some? && op.extraCost > 0);
    }
  }

  lemma LedgeredLater(spends: seq<Spend>, ledger: seq<u64>, clock: nat, later: nat)
    requires Ledgered(spends, ledger, clock) && clock <= later
    ensures Ledgered(spends, ledger, later)
  {
  }

  lemma {:induction false} RunKeepsAmounts(p: Policy, ops: seq<Op>, clock: nat)
    requires InOrder(ops, clock)
    ensures AmountsTrack(Run(p, ops), clock)
  {
    if ops != [] {
      RunKeepsAmounts(p, Front(ops), Last(ops).now);
      StepKeepsAmounts(p, Run(p, Front(ops)), Last(ops), Last(ops).now);
      LedgeredLater(Run(p, ops).chars, Run(p, ops).ledgers.ttsChars, Last(ops).now, clock);
      LedgeredLater(Run(p, ops).costs, Run(p, ops).ledgers.cost, Last(ops).now, clock);
    }
  }

  // ---- When an amount limit holds ------------------------------------------

  /** A high-priority request for nothing would be admitted: no limit stands in the way. */
  predicate Room(p: Policy, l: Ledgers, inFlight: nat, now: u64) {
    Refusal(p, TrimAll(p, l, now), inFlight, Admission(High, 0, 0)).None?
  }

  /** The request is admitted and takes what was charged within the last interval over the limit. */
  ghost predicate Overruns(p: Policy, cost: bool, st: State, inFlight: nat, a: Admission, now: u64) {
    && AmountLimit(p, cost).Some?
    && Refusal(p, TrimAll(p, st.ledgers, now), inFlight, a).None?
    && InWindow(p, Spent(Step(p, st, Admit(a, now, inFlight)), cost), now) > AmountLimit(p, cost).value
  }

  /** What the trimmed ledger holds does not fit a word, and what is left of it is less than the last
      interval holds. */
  predicate Wraps(p: Policy, cost: bool, st: State, now: u64) {
    var ledger := AmountLedger(TrimAll(p, st.ledgers, now), cost);
    Sum(ledger) > U64_MAX && Held(ledger) < InWindow(p, Spent(st, cost), now)
  }

  /** The guard under which the limit fails: something recent is forgotten, or the ledger's sum wraps. A
      limit of the largest number is no limit: adding a request to the sum saturates. */
  ghost predicate Exposed(p: Policy, cost: bool, st: State, inFlight: nat, now: u64) {
    && AmountLimit(p, cost).Some? && Room(p, st.ledgers, inFlight, now)
    && (Forgets(p, Spent(st, cost), AmountLedger(st.ledgers, cost), now)
        || Wraps(p, cost, st, now)
        || (AmountLimit(p, cost).value == U64_MAX && InWindow(p, Spent(st, cost), now) > 0))
  }

  lemma AdmittedFits(p: Policy, l: Ledgers, inFlight: nat, a: Admission, cost: bool)
    requires AmountLimit(p, cost).Some? && Refusal(p, l, inFlight, a).None?
    ensures SatAdd(Held(AmountLedger(l, cost)), Asked(a, cost))
            <= AmountShare(p, cost, a.priority, AmountLimit(p, cost).value)
    ensures Refusal(p, l, inFlight, Admission(High, 0, 0)).None?
  {
  }

  function Ask(cost: bool, amount: u64): Admission {
    if cost then Admission(High, 0, amount) else Admission(High, amount, 0)
  }

  lemma RoomToAsk(p: Policy, l: Ledgers, inFlight: nat, cost: bool, amount: u64)
    requires AmountLimit(p, cost).Some? && Refusal(p, l, inFlight, Admission(High, 0, 0)).None?
    requires SatAdd(Held(AmountLedger(l, cost)), amount) <= AmountLimit(p, cost).value
    ensures Refusal(p, l, inFlight, Ask(cost, amount)).None?
  {
  }

  lemma SpentAfter(p: Policy, st: State, inFlight: nat, a: Admission, cost: bool, now: u64)
    requires AmountLimit(p, cost).Some? && Billable(p, a.priority)
    requires Refusal(p, TrimAll(p, st.ledgers, now), inFlight, a).None?
    ensures Spent(Step(p, st, Admit(a, now, inFlight)), cost)
            == Record(Spent(st, cost), now, Asked(a, cost), Some(a.priority), Asked(a, cost) > 0)
  {
    hide Refusal, TrimAll, Charge;
  }

  lemma WindowAfter(p: Policy, st: State, inFlight: nat, a: Admission, cost: bool, now: u64)
    requires AmountLimit(p, cost).Some? && Billable(p, a.priority)
    requires Refusal(p, TrimAll(p, st.ledgers, now), inFlight, a).None?
    ensures InWindow(p, Spent(Step(p, st, Admit(a, now, inFlight)), cost), now)
            == InWindow(p, Spent(st, cost), now) + Asked(a, cost)
  {
    SpentAfter(p, st, inFlight, a, cost, now);
    hide Refusal, TrimAll, Step, InWindow;
    ChargedNow(p, Spent(st, cost), Spend(now, Asked(a, cost), Some(a.priority)), now);
  }

  /** What is left after trimming falls short of the window exactly when the trimming forgets. */
  lemma TrimmedAgainstWindow(p: Policy, cost: bool, st: State, clock: nat, now: u64)
    requires AmountsTrack(st, clock)
    ensures Sum(AmountLedger(TrimAll(p, st.ledgers, now), cost)) < InWindow(p, Spent(st, cost), now)
            <==> Forgets(p, Spent(st, cost), AmountLedger(st.ledgers, cost), now)
  {
    hide Ledgered, Sum, InWindow, Trim, Forgets, Dropped;
    var spends, before := Spent(st, cost), AmountLedger(st.ledgers, cost);
    var ledger := Trim(before, Horizon(p, now));
    TrimKeepsLedgered(spends, before, clock, Horizon(p, now));
    ForgetsWhatIsDropped(p, spends, before, clock, now);
    LedgerAgainstWindow(p, spends, ledger, clock, now);
  }

  /** What the program sums falls short of the window exactly when it forgets or wraps. */
  lemma SummedAgainstWindow(p: Policy, cost: bool, st: State, clock: nat, now: u64)
    requires AmountsTrack(st, clock)
    ensures Held(AmountLedger(TrimAll(p, st.ledgers, now), cost)) < InWindow(p, Spent(st, cost), now)
            <==> Forgets(p, Spent(st, cost), AmountLedger(st.ledgers, cost), now) || Wraps(p, cost, st, now)
  {
    hide AmountsTrack, Held, Sum, InWindow, Forgets, TrimAll;
    TrimmedAgainstWindow(p, cost, st, clock, now);
    HeldIsSumInAWord(AmountLedger(TrimAll(p, st.ledgers, now), cost));
  }

  lemma OverrunIsExposed(p: Policy, cost: bool, st: State, inFlight: nat, clock: nat, now: u64, a: Admission)
    requires p.enabled && AmountsTrack(st, clock) && a.priority == High && Overruns(p, cost, st, inFlight, a, now)
    ensures Exposed(p, cost, st, inFlight, now)
  {
    SummedAgainstWindow(p, cost, st, clock, now);
    AdmittedFits(p, TrimAll(p, st.ledgers, now), inFlight, a, cost);
    WindowAfter(p, st, inFlight, a, cost, now);
    hide AmountsTrack, Refusal, TrimAll, Step, InWindow, Forgets, Wraps, Held;
  }

  lemma ExposedCanOverrun(p: Policy, cost: bool, st: State, inFlight: nat, clock: nat, now: u64) returns (a: Admission)
    requires p.enabled && AmountsTrack(st, clock) && Exposed(p, cost, st, inFlight, now)
    ensures a.priority == High && Overruns(p, cost, st, inFlight, a, now)
  {
    SummedAgainstWindow(p, cost, st, clock, now);
    hide AmountsTrack, Refusal, TrimAll, Step, InWindow, Forgets, Wraps, Held;
    var l := TrimAll(p, st.ledgers, now);
    var limit := AmountLimit(p, cost).value;
    AdmittedFits(p, l, inFlight, Admission(High, 0, 0), cost);
    var amount := if limit == U64_MAX then U64_MAX else limit - Held(AmountLedger(l, cost));
    RoomToAsk(p, l, inFlight, cost, amount);
    a := Ask(cost, amount);
    WindowAfter(p, st, inFlight, a, cost, now);
  }

  /** The amount limits, exactly: in a state whose ledgers are tails of what was charged, some
      high-priority request at `now` is admitted past the limit if and only if there is room for a
      request for nothing and either something charged within the last interval is forgotten or the
      program's sum of the ledger wraps below what the interval holds. */
  lemma AmountLimitFailsExactlyWhen(p: Policy, cost: bool, st: State, inFlight: nat, clock: nat, now: u64)
    requires p.enabled && AmountsTrack(st, clock) && AmountLimit(p, cost).Some?
    ensures (exists a: Admission :: a.priority == High && Overruns(p, cost, st, inFlight, a, now))
            <==> Exposed(p, cost, st, inFlight, now)
  {
    hide AmountsTrack, Overruns, Exposed;
    forall a: Admission | a.priority == High && Overruns(p, cost, st, inFlight, a, now)
      ensures Exposed(p, cost, st, inFlight, now)
    {
      OverrunIsExposed(p, cost, st, inFlight, clock, now, a);
    }
    if Exposed(p, cost, st, inFlight, now) {
      var a := ExposedCanOverrun(p, cost, st, inFlight, clock, now);
    }
  }

  /** No request of the run meets an exposed limit. */
  ghost predicate NeverExposed(p: Policy, cost: bool, ops: seq<Op>) {
    forall k :: 0 <= k < |ops| && ops[k].Admit? ==> !Exposed(p, cost, Run(p, ops[..k]), ops[k].inFlight, ops[k].now)
  }

  /** No high-priority request, put in the place of any of the run's requests, would overrun the limit. */
  ghost predicate CannotOverrun(p: Policy, cost: bool, ops: seq<Op>) {
    forall k, a: Admission :: 0 <= k < |ops| && ops[k].Admit? && a.priority == High
      ==> !Overruns(p, cost, Run(p, ops[..k]), ops[k].inFlight, a, ops[k].now)
  }

  /** The same over whole runs in time order, settlements included. */
  lemma AmountLimitHoldsExactlyWhen(p: Policy, cost: bool, ops: seq<Op>, clock: nat)
    requires p.enabled && InOrder(ops, clock) && AmountLimit(p, cost).Some?
    ensures CannotOverrun(p, cost, ops) <==> NeverExposed(p, cost, ops)
  {
    hide Overruns, Exposed, Run;
    forall k | 0 <= k < |ops| && ops[k].Admit?
      ensures (exists a: Admission ::
                 a.priority == High && Overruns(p, cost, Run(p, ops[..k]), ops[k].inFlight, a, ops[k].now))
              <==> Exposed(p, cost, Run(p, ops[..k]), ops[k].inFlight, ops[k].now)
    {
      RunKeepsAmounts(p, ops[..k], ops[k].now);
      AmountLimitFailsExactlyWhen(p, cost, Run(p, ops[..k]), ops[k].inFlight, ops[k].now, ops[k].now);
    }
  }

  // ---- What an unexposed run keeps -----------------------------------------

  /** At each admission, what was charged within the interval before it, itself and top-ups included,
      is within the admission's share. */
  ghost predicate SpendsFit(p: Policy, cost: bool, limit: nat, spends: seq<Spend>) {
    forall m :: 0 <= m < |spends| && spends[m].who.Some? ==>
      InWindow(p, spends[..m + 1], spends[m].at) <= AmountShare(p, cost, spends[m].who.value, limit)
  }

  lemma SpendsFitSnoc(p: Policy, cost: bool, limit: nat, spends: seq<Spend>, s: Spend)
    requires SpendsFit(p, cost, limit, spends)
    requires s.who.Some? ==> InWindow(p, spends, s.at) + s.amount <= AmountShare(p, cost, s.who.value, limit)
    ensures SpendsFit(p, cost, limit, spends + [s])
  {
    var all := spends + [s];
    forall m | 0 <= m < |all| && all[m].who.Some?
      ensures InWindow(p, all[..m + 1], all[m].at) <= AmountShare(p, cost, all[m].who.value, limit)
    {
      if m < |spends| {
        assert all[..m + 1] == spends[..m + 1];
      } else {
        assert all[..m + 1] == all;
        ChargedNow(p, spends, s, s.at);
      }
    }
  }

  lemma UnexposedStepFits(p: Policy, cost: bool, st: State, op: Op, clock: nat)
    requires AmountsTrack(st, clock) && clock <= op.now
    requires AmountLimit(p, cost).Some? && AmountLimit(p, cost).value < U64_MAX
    requires SpendsFit(p, cost, AmountLimit(p, cost).value, Spent(st, cost))
    requires op.Admit? ==> !Exposed(p, cost, st, op.inFlight, op.now)
    ensures SpendsFit(p, cost, AmountLimit(p, cost).value, Spent(Step(p, st, op), cost))
  {
    hide Refusal, Ledgered, SpendsFit, InWindow, Forgets, Wraps, Held, Trim;
    var spends, limit := Spent(st, cost), AmountLimit(p, cost).value;
    if op.Settle? {
      SpendsFitSnoc(p, cost, limit, spends, Spend(op.now, if cost then op.extraCost else op.extraChars, None));
    } else if Billable(p, op.a.priority) && Refusal(p, TrimAll(p, st.ledgers, op.now), op.inFlight, op.a).None? {
      AdmittedFits(p, TrimAll(p, st.ledgers, op.now), op.inFlight, op.a, cost);
      SummedAgainstWindow(p, cost, st, clock, op.now);
      ShareWithin(p, cost, op.a.priority, limit);
      SpendsFitSnoc(p, cost, limit, spends, Spend(op.now, Asked(op.a, cost), Some(op.a.priority)));
    }
  }

  lemma ShareWithin(p: Policy, cost: bool, priority: Priority, limit: nat)
    ensures AmountShare(p, cost, priority, limit) <= limit
  {
  }

  lemma {:induction false} UnexposedRunFits(p: Policy, cost: bool, ops: seq<Op>, clock: nat)
    requires InOrder(ops, clock) && NeverExposed(p, cost, ops)
    requires AmountLimit(p, cost).Some? && AmountLimit(p, cost).value < U64_MAX
    ensures SpendsFit(p, cost, AmountLimit(p, cost).value, Spent(Run(p, ops), cost))
  {
    hide Exposed, Step;
    if ops != [] {
      var before, op := Front(ops), Last(ops);
      assert ops[..|before|] == before && op == ops[|before|];
      forall k | 0 <= k < |before| && before[k].Admit?
        ensures !Exposed(p, cost, Run(p, before[..k]), before[k].inFlight, before[k].now)
      {
        assert before[..k] == ops[..k];
      }
      UnexposedRunFits(p, cost, before, op.now);
      RunKeepsAmounts(p, before, op.now);
      UnexposedStepFits(p, cost, Run(p, before), op, op.now);
    } else {
      assert Run(p, ops) == INITIAL;
    }
  }

  function AdmittedWithin(start: nat, length: nat): Spend -> bool {
    (s: Spend) => start <= s.at <= start + length && s.who.Some?
  }

  function OrdinarySpent(start: nat, length: nat): Spend -> bool {
    (s: Spend) => start <= s.at <= start + length && s.who.Some? && s.who != Some(High)
  }

  lemma {:induction false} TotalMonotone(s: seq<Spend>, q: Spend -> bool, r: Spend -> bool)
    requires forall x :: x in s && q(x) ==> r(x)
    ensures Total(Filter(s, q)) <= Total(Filter(s, r))
  {
    if s != [] {
      var x := Last(s);
      assert s == Front(s) + [x] && x in s;
      TotalMonotone(Front(s), q, r);
      TotalSnoc(Front(s), x, q);
      TotalSnoc(Front(s), x, r);
    } else {
      assert Filter(s, q) == Filter(s, r);
    }
  }

  lemma FrontFits(p: Policy, cost: bool, limit: nat, spends: seq<Spend>)
    requires spends != [] && SpendsFit(p, cost, limit, spends)
    ensures SpendsFit(p, cost, limit, Front(spends))
    ensures Last(spends).who.Some? ==>
              InWindow(p, spends, Last(spends).at) <= AmountShare(p, cost, Last(spends).who.value, limit)
  {
    hide InWindow, AmountShare;
    var before, n := Front(spends), |spends| - 1;
    assert spends[..n + 1] == spends && spends[n] == Last(spends);
    forall m | 0 <= m < |before| && before[m].who.Some?
      ensures InWindow(p, before[..m + 1], before[m].at) <= AmountShare(p, cost, before[m].who.value, limit)
    {
      assert before[..m + 1] == spends[..m + 1] && before[m] == spends[m];
    }
  }

  lemma {:induction false} SpendWindowBound(p: Policy, cost: bool, limit: nat, spends: seq<Spend>, start: nat)
    requires SpendsFit(p, cost, limit, spends)
    ensures Total(Filter(spends, AdmittedWithin(start, p.intervalMs))) <= limit
    ensures Total(Filter(spends, OrdinarySpent(start, p.intervalMs))) <= AmountShare(p, cost, Ordinary, limit)
  {
    hide SpendsFit, Total, Filter;
    var admitted, ordinary := AdmittedWithin(start, p.intervalMs), OrdinarySpent(start, p.intervalMs);
    if spends != [] {
      var before, last := Front(spends), Last(spends);
      FrontFits(p, cost, limit, spends);
      SpendWindowBound(p, cost, limit, before, start);
      assert spends == before + [last];
      TotalSnoc(before, last, admitted);
      TotalSnoc(before, last, ordinary);
      if admitted(last) {
        ShareWithin(p, cost, last.who.value, limit);
        TotalMonotone(spends, admitted, RecentSpend(p, last.at));
        TotalMonotone(spends, ordinary, RecentSpend(p, last.at));
      }
    } else {
      NothingFiltered(admitted);
      NothingFiltered(ordinary);
    }
  }

  lemma NothingFiltered(q: Spend -> bool)
    ensures Total(Filter([], q)) == 0
  {
  }

  /** A run that is never exposed keeps its amount limits: every closed window of one interval holds at
      most the limit of admitted amounts, and at most the ordinary share of those not of high priority;
      and no admission was made while top-ups had left no room for it. */
  lemma AmountsFitEveryWindow(p: Policy, cost: bool, ops: seq<Op>, clock: nat, start: nat)
    requires InOrder(ops, clock) && NeverExposed(p, cost, ops)
    requires AmountLimit(p, cost).Some? && AmountLimit(p, cost).value < U64_MAX
    ensures var spends, limit := Spent(Run(p, ops), cost), AmountLimit(p, cost).value;
            && SpendsFit(p, cost, limit, spends)
            && Total(Filter(spends, AdmittedWithin(start, p.intervalMs))) <= limit
            && Total(Filter(spends, OrdinarySpent(start, p.intervalMs))) <= AmountShare(p, cost, Ordinary, limit)
  {
    UnexposedRunFits(p, cost, ops, clock);
    SpendWindowBound(p, cost, AmountLimit(p, cost).value, Spent(Run(p, ops), cost), start);
  }

  /** Settlements check nothing: a top-up is charged in full, whatever the window already holds. */
  lemma TopUpsAreUnchecked(p: Policy, cost: bool, st: State, extraChars: u64, extraCost: u64, now: u64)
    requires AmountLimit(p, cost).Some?
    ensures InWindow(p, Spent(Step(p, st, Settle(extraChars, extraCost, now)), cost), now)
            == InWindow(p, Spent(st, cost), now) + (if cost then extraCost else extraChars)
  {
    hide InWindow, Settled;
    var amount := if cost then extraCost else extraChars;
    assert Spent(Step(p, st, Settle(extraChars, extraCost, now)), cost)
           == Record(Spent(st, cost), now, amount, None, amount > 0);
    ChargedNow(p, Spent(st, cost), Spend(now, amount, None), now);
  }

  lemma ChargedNow(p: Policy, spends: seq<Spend>, s: Spend, now: nat)
    requires s.at == now
    ensures InWindow(p, spends + [s], now) == InWindow(p, spends, now) + s.amount
  {
    TotalSnoc(spends, s, RecentSpend(p, now));
  }

  /** Once the horizon is past every amount held, the ledger is emptied at each request, so the limit is
      one on single requests only. */
  lemma LateClockForgetsAll(ledger: seq<u64>, horizon: nat)
    ensures Trim(ledger, horizon) == [] <==> forall i :: 0 <= i < |ledger| ==> ledger[i] < horizon
  {
    TrimDropsBelow(ledger, horizon);
  }

  /** With 100 characters an interval, two requests of 60 at the same late instant are both admitted:
      120 characters are charged in that instant. */
  lemma CharacterLimitCanBeOverrun(p: Policy, ops: seq<Op>, request: Op)
    requires p == Policy(true, None, None, None, None, Some(100), None, 1000, 0, false)
    requires request == Admit(Admission(High, 60, 0), 1000000, 0) && ops == [request, request]
    ensures InWindow(p, Run(p, ops).chars, 1000000) == 120 > p.maxTtsChars.value
    ensures Exposed(p, false, Run(p, Front(ops)), 0, 1000000)
  {
    var s := Spend(1000000, 60, Some(High));
    OneRequest(p, request, s);
    assert Front(ops) == [request];
    assert Run(p, ops).chars == [s] + [s];
    hide Run;
    FilterAll([s] + [s], RecentSpend(p, 1000000));
    TotalConcat([s], [s]);
  }

  lemma OneRequest(p: Policy, request: Op, s: Spend)
    requires p == Policy(true, None, None, None, None, Some(100), None, 1000, 0, false)
    requires request == Admit(Admission(High, 60, 0), 1000000, 0) && s == Spend(1000000, 60, Some(High))
    ensures Run(p, [request]) == State(EMPTY.(ttsChars := [60]), [Charged(1000000, High)], [s], [])
    ensures Trim([60], Horizon(p, 1000000)) == []
    ensures Exposed(p, false, Run(p, [request]), 0, 1000000)
  {
    assert Front([request]) == [];
    LateClockForgetsAll([60], Horizon(p, 1000000));
    assert IsRecent(p, [s][0], 1000000) && AllBelow([s], 0, 0, Horizon(p, 1000000));
    assert Forgets(p, [s], [60], 1000000);
  }

  /** The sum wraps: under a limit of 100, with settlements of the largest number and of one more charged at
      time 0, a request for 100 is admitted on top of them, though nothing was forgotten. */
  lemma WrappedSumOverruns(p: Policy, st: State)
    requires p == Policy(true, None, None, None, None, Some(100), None, 1000, 0, false)
    requires st == Run(p, [Settle(U64_MAX, 0, 0), Settle(1, 0, 0)])
    ensures Exposed(p, false, st, 0, 0) && !Forgets(p, st.chars, st.ledgers.ttsChars, 0)
    ensures Overruns(p, false, st, 0, Admission(High, 100, 0), 0)
  {
    TwoTopUps(p, st);
    var ledger := st.ledgers.ttsChars;
    assert Front(ledger) == [U64_MAX] && Front([U64_MAX]) == [];
    assert Sum(ledger) == U64_MAX + 1 && Held(ledger) == 0;
    assert TrimAll(p, st.ledgers, 0) == st.ledgers;
    TotalConcat([Spend(0, U64_MAX, None)], [Spend(0, 1, None)]);
    FilterAll(st.chars, RecentSpend(p, 0));
    assert InWindow(p, st.chars, 0) == U64_MAX + 1;
    WindowAfter(p, st, 0, Admission(High, 100, 0), false, 0);
  }

  lemma TwoTopUps(p: Policy, st: State)
    requires p == Policy(true, None, None, None, None, Some(100), None, 1000, 0, false)
    requires st == Run(p, [Settle(U64_MAX, 0, 0), Settle(1, 0, 0)])
    ensures st.ledgers == EMPTY.(ttsChars := [U64_MAX, 1])
    ensures st.chars == [Spend(0, U64_MAX, None)] + [Spend(0, 1, None)]
  {
    var a, b := Settle(U64_MAX, 0, 0), Settle(1, 0, 0);
    assert Front([a, b]) == [a] && Front([a]) == [];
    assert Run(p, [a]) == Step(p, INITIAL, a);
  }

  // ---- What is never charged, and what is charged all the same --------------

  /** Neither admissions nor settlements charge units: the unit ledger stays empty over every run. */
  lemma {:induction false} UnitsAreNeverCharged(p: Policy, ops: seq<Op>)
    ensures Run(p, ops).ledgers.llmUnits == []
  {
    if ops != [] {
      UnitsAreNeverCharged(p, Front(ops));
    }
  }

  /** So a valid unit limit never refuses anything. */
  lemma UnitLimitNeverRefuses(p: Policy, ops: seq<Op>, inFlight: nat, a: Admission, now: u64)
    requires ValidPolicy(p)
    ensures Refusal(p, TrimAll(p, Run(p, ops).ledgers, now), inFlight, a) != Some(LlmUnitsExhausted)
  {
    hide Run;
    UnitsAreNeverCharged(p, ops);
  }

  /** What a reservation remembers of its charge: the estimate, where it was billed against a limit. */
  function ChargedAtAdmission(p: Policy, a: Admission, cost: bool): u64 {
    if Billable(p, a.priority) && AmountLimit(p, cost).Some? then Asked(a, cost) else 0
  }

  /** What settling a reservation for `a` leaves of the ledgers. */
  function SettledFor(p: Policy, l: Ledgers, a: Admission, chars: u64, cost: u64): Ledgers {
    Settled(p, l, SatSub(chars, ChargedAtAdmission(p, a, false)), SatSub(cost, ChargedAtAdmission(p, a, true)))
  }

  /** Settling charges even what was not billed at admission, a shadow request or one of a disabled
      governor: in full, exactly where use is positive and the limit is set. */
  lemma UnbilledUseIsCharged(p: Policy, l: Ledgers, a: Admission, chars: u64, cost: u64)
    requires !Billable(p, a.priority)
    ensures SettledFor(p, l, a, chars, cost)
            == l.(ttsChars := Push(l.ttsChars, chars, p.maxTtsChars.Some? && chars > 0),
                  cost := Push(l.cost, cost, p.maxCost.Some? && cost > 0))
    ensures SettledFor(p, l, a, chars, cost) != l
            <==> (p.maxTtsChars.Some? && chars > 0) || (p.maxCost.Some? && cost > 0)
  {
    var after := SettledFor(p, l, a, chars, cost);
    assert p.maxTtsChars.Some? && chars > 0 ==> |after.ttsChars| == |l.ttsChars| + 1;
    assert p.maxCost.Some? && cost > 0 ==> |after.cost| == |l.cost| + 1;
  }

  // ---- The objects ---------------------------------------------------------

  /** The in-flight counter the governor shares with its reservations; it wraps like the machine's. */
  class Slots {
    var count: u32

    constructor ()
      ensures count == 0
    {
      count := 0;
    }

    method FetchAdd()
      modifies this
      ensures count == (old(count) + 1) % U32_WRAP
    {
      count := if count == U32_WRAP - 1 then 0 else count + 1;
    }

    method FetchSub()
      modifies this
      ensures count == (old(count) - 1) % U32_WRAP
    {
      count := if count == 0 then U32_WRAP - 1 else count - 1;
    }
  }

  class Reservation {
    const grantedAt: u64
    const chargedChars: u64
    const chargedCost: u64
    var slot: Slots?
    var finished: bool

    constructor (grantedAt: u64, chargedChars: u64, chargedCost: u64, slot: Slots?)
      ensures this.grantedAt == grantedAt && this.chargedChars == chargedChars && this.chargedCost == chargedCost
      ensures this.slot == slot && !finished
    {
      this.grantedAt, this.chargedChars, this.chargedCost := grantedAt, chargedChars, chargedCost;
      this.slot, finished := slot, false;
    }
  }

  /** The counter shows the number of slots held, and an enforced limit is not exceeded. */
  ghost predicate Agrees(p: Policy, count: u32, held: nat) {
    count == held % U32_WRAP && (p.maxConcurrent.Some? ==> held <= p.maxConcurrent.value)
  }

  lemma GrantAgrees(p: Policy, count: u32, held: nat)
    requires Agrees(p, count, held) && (p.maxConcurrent.Some? ==> count < p.maxConcurrent.value)
    ensures Agrees(p, (count + 1) % U32_WRAP, held + 1)
  {
  }

  lemma OneMoreHeld(before: set<Reservation>, after: set<Reservation>, r: Reservation)
    requires r !in before && after == before + {r}
    ensures |after| == |before| + 1
  {
  }

  lemma WrapPred(n: nat)
    requires n > 0
    ensures (n % U32_WRAP - 1) % U32_WRAP == (n - 1) % U32_WRAP
  {
  }

  lemma NotRefusedMeansRoom(refusal: Option<Denial>, p: Policy, l: Ledgers, inFlight: nat, a: Admission)
    requires refusal == Refusal(p, l, inFlight, a) && refusal.None?
    ensures p.maxConcurrent.Some? ==> inFlight < p.maxConcurrent.value
  {
  }

  class Governor {
    const policy: Policy
    const inFlight: Slots
    var ledgers: Ledgers
    var highWater: u32
    var deniedTotal: u64
    var rejectedDegraded: u64
    /** Every reservation handed out, charged or not. */
    ghost var granted: set<Reservation>

    /** The reservations that hold a slot now. */
    ghost function Holding(): set<Reservation>
      reads this, granted
    {
      set r | r in granted && r.slot != null
    }

    /** Every slot is this counter's, and a finished reservation holds none. */
    ghost predicate Shared()
      reads this, granted
    {
      forall r :: r in granted ==> (r.slot == null || r.slot == inFlight) && (r.finished ==> r.slot == null)
    }

    /** The counter is the number of slots held, and an enforced limit is never exceeded. */
    ghost predicate Valid()
      reads this, inFlight, granted
    {
      && Shared()
      && Agrees(policy, inFlight.count, |Holding()|)
    }

    constructor (policy: Policy)
      ensures Valid() && this.policy == policy && ledgers == EMPTY && granted == {}
      ensures fresh(inFlight)
    {
      this.policy := policy;
      inFlight := new Slots();
      ledgers, highWater, deniedTotal, rejectedDegraded := EMPTY, 0, 0, 0;
      granted := {};
    }

    static method TrimLedger(ledger: seq<u64>, horizon: nat) returns (r: seq<u64>)
      ensures r == Trim(ledger, horizon)
    {
      r := ledger;
      while r != [] && r[0] < horizon
        invariant Trim(r, horizon) == Trim(ledger, horizon)
        decreases |r|
      {
        r := r[1..];
      }
    }

    method TrimWindows(now: u64)
      modifies this`ledgers
      ensures ledgers == TrimAll(policy, old(ledgers), now)
    {
      var horizon := SatSub(now, policy.intervalMs);
      var llm := TrimLedger(ledgers.llmCalls, horizon);
      var tts := TrimLedger(ledgers.ttsCalls, horizon);
      var units := TrimLedger(ledgers.llmUnits, horizon);
      var chars := TrimLedger(ledgers.ttsChars, horizon);
      var cost := TrimLedger(ledgers.cost, horizon);
      ledgers := Ledgers(llm, tts, units, chars, cost);
    }

    /** Admit one request, or say which budget refuses it. */
    method TryAdmit(a: Admission, now: u64) returns (r: Result<Reservation, Denial>)
      requires Valid()
      modifies this, inFlight
      ensures Valid()
      ensures ledgers == Step(policy, State(old(ledgers), [], [], []), Admit(a, now, old(inFlight.count))).ledgers
      ensures var refusal := Refusal(policy, TrimAll(policy, old(ledgers), now), old(inFlight.count), a);
              r.Err? <==> Billable(policy, a.priority) && refusal.Some?
      ensures r.Err? ==> granted == old(granted) && inFlight.count == old(inFlight.count)
                         && Some(r.error) == Refusal(policy, TrimAll(policy, old(ledgers), now), old(inFlight.count), a)
      ensures r.Ok? ==> fresh(r.value) && granted == old(granted) + {r.value} && !r.value.finished
                        && r.value.grantedAt == now
                        && (r.value.slot != null <==> Billable(policy, a.priority))
      ensures r.Ok? ==> |Holding()| == old(|Holding()|) + (if Billable(policy, a.priority) then 1 else 0)
      ensures r.Ok? ==> r.value.chargedChars == ChargedAtAdmission(policy, a, false)
      ensures r.Ok? ==> r.value.chargedCost == ChargedAtAdmission(policy, a, true)
    {
      hide Refusal, Charge, TrimAll;
      if !Billable(policy, a.priority) {
        var free := new Reservation(now, 0, 0, null);
        granted := granted + {free};
        assert Holding() == old(Holding());
        return Ok(free);
      }
      TrimWindows(now);
      var refusal := Refusal(policy, ledgers, inFlight.count, a);
      if refusal.Some? {
        deniedTotal := SatAdd(deniedTotal, 1);
        assert Holding() == old(Holding());
        return Err(refusal.value);
      }
      assert policy.maxConcurrent.Some? ==> inFlight.count < policy.maxConcurrent.value by {
        NotRefusedMeansRoom(refusal, policy, ledgers, inFlight.count, a);
      }
      assert Holding() == old(Holding());
      var chars := if policy.maxTtsChars.Some? then a.estimatedChars else 0;
      var cost := if policy.maxCost.Some? then a.estimatedCost else 0;
      ledgers := Charge(policy, ledgers, a, now);
      assert Holding() == old(Holding());
      var charged := Grant(now, chars, cost);
      r := Ok(charged);
    }

    /** Take a slot for a new reservation. */
    method Grant(now: u64, chars: u64, cost: u64) returns (r: Reservation)
      requires Valid() && (policy.maxConcurrent.Some? ==> inFlight.count < policy.maxConcurrent.value)
      modifies this`highWater, this`granted, inFlight
      ensures Valid()
      ensures fresh(r) && granted == old(granted) + {r} && !r.finished && r.grantedAt == now && r.slot != null
      ensures |Holding()| == old(|Holding()|) + 1 && r.chargedChars == chars && r.chargedCost == cost
    {
      hide Agrees, Shared;
      ghost var before := Holding();
      GrantAgrees(policy, inFlight.count, |before|);
      r := Issue(now, chars, cost);
      OneMoreHeld(before, Holding(), r);
      CountUp();
    }

    /** A new reservation for a slot not counted yet. */
    method Issue(now: u64, chars: u64, cost: u64) returns (r: Reservation)
      requires Shared()
      modifies this`granted
      ensures Shared() && fresh(r) && granted == old(granted) + {r} && !r.finished && r.grantedAt == now
              && r.slot != null
      ensures Holding() == old(Holding()) + {r} && r !in old(Holding())
      ensures r.chargedChars == chars && r.chargedCost == cost
    {
      r := new Reservation(now, chars, cost, inFlight);
      granted := granted + {r};
    }

    method CountUp()
      modifies this`highWater, inFlight
      ensures inFlight.count == (old(inFlight.count) + 1) % U32_WRAP
      ensures Holding() == old(Holding()) && (old(Shared()) ==> Shared())
    {
      inFlight.FetchAdd();
      highWater := if inFlight.count > highWater then inFlight.count else highWater;
    }

    /** Give back the slot a reservation still holds. */
    method ReturnSlot(r: Reservation)
      requires Valid() && r in granted
      modifies inFlight, r`slot
      ensures Valid() && r.slot == null && Holding() == old(Holding()) - {r}
      ensures |Holding()| == old(|Holding()|) - (if old(r.slot) != null then 1 else 0)
    {
      if r.slot != null {
        assert r in Holding();
        WrapPred(|Holding()|);
        r.slot.FetchSub();
        r.slot := null;
        assert Holding() == old(Holding()) - {r};
      }
    }

    /** Record actual use once; a finished reservation is left alone. */
    method Settle(r: Reservation, chars: u64, cost: u64)
      requires Valid() && r in granted
      modifies this`ledgers, inFlight, r
      ensures Valid() && r.finished && r.slot == null
      ensures |Holding()| == old(|Holding()|) - (if old(r.slot) != null then 1 else 0)
      ensures ledgers == if old(r.finished) then old(ledgers)
                         else Settled(policy, old(ledgers), SatSub(chars, r.chargedChars), SatSub(cost, r.chargedCost))
    {
      if !r.finished {
        ReturnSlot(r);
        ghost var holding := Holding();
        r.finished := true;
        ledgers := Settled(policy, ledgers, SatSub(chars, r.chargedChars), SatSub(cost, r.chargedCost));
        assert Holding() == holding;
      }
    }

    /** Return the slot without charging; counted as rejected or degraded once. */
    method Release(r: Reservation)
      requires Valid() && r in granted
      modifies this`rejectedDegraded, inFlight, r
      ensures Valid() && r.finished && r.slot == null && ledgers == old(ledgers)
      ensures |Holding()| == old(|Holding()|) - (if old(r.slot) != null then 1 else 0)
      ensures rejectedDegraded == if old(r.finished) then old(rejectedDegraded) else SatAdd(old(rejectedDegraded), 1)
    {
      if !r.finished {
        ReturnSlot(r);
        ghost var holding := Holding();
        r.finished := true;
        rejectedDegraded := SatAdd(rejectedDegraded, 1);
        assert Holding() == holding;
      }
    }

    /** A reservation going out of scope returns a slot it still holds, and nothing else. */
    method Drop(r: Reservation)
      requires Valid() && r in granted
      modifies inFlight, r`slot
      ensures Valid() && r.slot == null
      ensures |Holding()| == old(|Holding()|) - (if old(r.slot) != null then 1 else 0)
    {
      ReturnSlot(r);
    }

    /** With a concurrency limit the counter is exactly the number of slots held: it has not wrapped,
        never exceeds the limit, and a slot being returned is always there to return. */
    lemma CounterIsExact()
      requires Valid() && policy.maxConcurrent.Some?
      ensures inFlight.count == |Holding()| <= policy.maxConcurrent.value
      ensures forall r :: r in granted && r.slot != null ==> inFlight.count > 0
    {
      forall r | r in granted && r.slot != null ensures |Holding()| > 0 {
        assert r in Holding();
      }
    }
  }
}
