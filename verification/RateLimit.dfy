/** The per-source token bucket, over real time and real tokens. */
module RateLimit {
  import opened Seqs

  /** `rate` tokens a second, up to `burst`; larger payloads are refused before any bucket is touched. */
  datatype Options = Options(rate: real, burst: real, maxPayloadBytes: nat)

  predicate ValidOptions(opts: Options) { opts.rate >= 0.0 && opts.burst >= 0.0 }

  datatype Bucket = Bucket(tokens: real, lastRefill: real)

  datatype Decision = Admitted | DroppedRate | DroppedSize

  const CONTROL_DEPTH: nat := 64

  datatype Op =
    | Content(source: string, payloadBytes: nat, at: real)
    | ControlPlane
    | ReleaseControl

  // ---- One bucket ----------------------------------------------------------

  /** Time a refill counts: a clock that went back counts as no time. */
  function Elapsed(b: Bucket, t: real): (r: real)
    ensures r >= 0.0
  {
    if t - b.lastRefill > 0.0 then t - b.lastRefill else 0.0
  }

  /** Tokens paid in over `ms` milliseconds. */
  function Credit(opts: Options, ms: real): real { (ms / 1000.0) * opts.rate }

  function Refilled(opts: Options, b: Bucket, t: real): Bucket {
    var tokens := b.tokens + Credit(opts, Elapsed(b, t));
    Bucket(if tokens < opts.burst then tokens else opts.burst, t)
  }

  /** The bucket an event at `t` is charged to: a new source starts full. */
  function Charged(opts: Options, b: Option<Bucket>, t: real): Bucket {
    Refilled(opts, if b.Some? then b.value else Bucket(opts.burst, t), t)
  }

  predicate Admits(opts: Options, b: Option<Bucket>, t: real) { Charged(opts, b, t).tokens >= 1.0 }

  function Served(opts: Options, b: Option<Bucket>, t: real): Bucket {
    var c := Charged(opts, b, t);
    if c.tokens >= 1.0 then c.(tokens := c.tokens - 1.0) else c
  }

  /** A source's bucket after it was asked at `times`. */
  function BucketAfter(opts: Options, times: seq<real>): Option<Bucket> {
    if times == [] then None else Some(Served(opts, BucketAfter(opts, Front(times)), Last(times)))
  }

  /** How many of the requests `lo..hi` are admitted. */
  function AdmittedIn(opts: Options, times: seq<real>, lo: nat, hi: nat): nat
    requires lo <= hi <= |times|
  {
    if lo == hi then 0
    else AdmittedIn(opts, times, lo, hi - 1)
         + (if Admits(opts, BucketAfter(opts, times[..hi - 1]), times[hi - 1]) then 1 else 0)
  }

  /** How far the clock moved forward between the requests `lo..hi`. */
  function Rise(times: seq<real>, lo: nat, hi: nat): (r: real)
    requires lo < hi <= |times|
    ensures r >= 0.0
  {
    if hi == lo + 1 then 0.0
    else
      var step := times[hi - 1] - times[hi - 2];
      Rise(times, lo, hi - 1) + (if step > 0.0 then step else 0.0)
  }

  lemma BucketSnoc(opts: Options, times: seq<real>, k: nat)
    requires k < |times|
    ensures BucketAfter(opts, times[..k + 1]) == Some(Served(opts, BucketAfter(opts, times[..k]), times[k]))
  {
    assert Front(times[..k + 1]) == times[..k];
  }

  lemma {:induction false} BucketStaysInRange(opts: Options, times: seq<real>)
    requires ValidOptions(opts)
    ensures var b := BucketAfter(opts, times);
            b.Some? ==> 0.0 <= b.value.tokens <= opts.burst && b.value.lastRefill == Last(times)
  {
    if times != [] {
      BucketStaysInRange(opts, Front(times));
      if |times| > 1 {
        CreditNonNegative(opts, Elapsed(BucketAfter(opts, Front(times)).value, Last(times)));
      }
    }
  }

  lemma CreditNonNegative(opts: Options, ms: real)
    requires ms >= 0.0 && opts.rate >= 0.0
    ensures Credit(opts, ms) >= 0.0
  {
  }

  lemma CreditAdds(opts: Options, a: real, b: real)
    ensures Credit(opts, a + b) == Credit(opts, a) + Credit(opts, b)
  {
    assert (a + b) / 1000.0 == a / 1000.0 + b / 1000.0;
  }

  /** Tokens paid in, refill by refill, between the requests `lo..hi`. */
  function PaidIn(opts: Options, times: seq<real>, lo: nat, hi: nat): real
    requires lo < hi <= |times|
  {
    if hi == lo + 1 then 0.0
    else
      var step := times[hi - 1] - times[hi - 2];
      PaidIn(opts, times, lo, hi - 1) + Credit(opts, if step > 0.0 then step else 0.0)
  }

  lemma {:induction false} PaidIsRise(opts: Options, times: seq<real>, lo: nat, hi: nat)
    requires lo < hi <= |times|
    ensures PaidIn(opts, times, lo, hi) == Credit(opts, Rise(times, lo, hi))
    decreases hi
  {
    if hi > lo + 1 {
      PaidIsRise(opts, times, lo, hi - 1);
      var step := times[hi - 1] - times[hi - 2];
      CreditAdds(opts, Rise(times, lo, hi - 1), if step > 0.0 then step else 0.0);
    }
  }

  /** One request: what it costs is covered by what was there and what was paid in. */
  lemma ServingIsPaid(opts: Options, b: Bucket, t: real, admitted: nat, budget: real)
    requires b.tokens + admitted as real <= budget
    ensures Served(opts, Some(b), t).tokens + (admitted + (if Admits(opts, Some(b), t) then 1 else 0)) as real
            <= budget + Credit(opts, Elapsed(b, t))
  {
  }

  /** Tokens left plus requests admitted never exceed the burst plus what was paid in. */
  lemma {:induction false} TokensPayForAdmissions(opts: Options, times: seq<real>, lo: nat, hi: nat)
    requires ValidOptions(opts) && lo < hi <= |times|
    ensures BucketAfter(opts, times[..hi]).Some?
    ensures BucketAfter(opts, times[..hi]).value.tokens + AdmittedIn(opts, times, lo, hi) as real
            <= opts.burst + PaidIn(opts, times, lo, hi)
    decreases hi
  {
    BucketSnoc(opts, times, hi - 1);
    BucketStaysInRange(opts, times[..hi - 1]);
    if hi == lo + 1 {
      assert AdmittedIn(opts, times, lo, lo) == 0;
    } else {
      TokensPayForAdmissions(opts, times, lo, hi - 1);
      var b := BucketAfter(opts, times[..hi - 1]).value;
      assert b.lastRefill == times[hi - 2];
      ServingIsPaid(opts, b, times[hi - 1], AdmittedIn(opts, times, lo, hi - 1),
                    opts.burst + PaidIn(opts, times, lo, hi - 1));
    }
  }

  /** Whatever the clock does, admissions over any stretch of requests are bounded by the burst plus
      the rate times the clock's forward movement. */
  lemma {:induction false} AdmissionsBounded(opts: Options, times: seq<real>, lo: nat, hi: nat)
    requires ValidOptions(opts) && lo < hi <= |times|
    ensures AdmittedIn(opts, times, lo, hi) as real <= opts.burst + Credit(opts, Rise(times, lo, hi))
  {
    TokensPayForAdmissions(opts, times, lo, hi);
    BucketStaysInRange(opts, times[..hi]);
    PaidIsRise(opts, times, lo, hi);
  }

  ghost predicate NonDecreasing(times: seq<real>) {
    forall i, j :: 0 <= i < j < |times| ==> times[i] <= times[j]
  }

  lemma {:induction false} MonotoneRise(times: seq<real>, lo: nat, hi: nat)
    requires NonDecreasing(times) && lo < hi <= |times|
    ensures Rise(times, lo, hi) == times[hi - 1] - times[lo]
    decreases hi
  {
    if hi > lo + 1 {
      MonotoneRise(times, lo, hi - 1);
    }
  }

  /** With a clock that never goes back, requests from t1 to t2 admit at most
      burst + rate * (t2 - t1) seconds' worth. */
  lemma {:induction false} AdmissionsBoundedByElapsedTime(opts: Options, times: seq<real>, lo: nat, hi: nat)
    requires ValidOptions(opts) && NonDecreasing(times) && lo < hi <= |times|
    ensures AdmittedIn(opts, times, lo, hi) as real <= opts.burst + Credit(opts, times[hi - 1] - times[lo])
  {
    AdmissionsBounded(opts, times, lo, hi);
    MonotoneRise(times, lo, hi);
  }

  /** Admissions between two requests stay within the burst and the time elapsed between them. */
  ghost predicate FitsElapsed(opts: Options, times: seq<real>, lo: nat, hi: nat) {
    lo < hi <= |times| ==>
      AdmittedIn(opts, times, lo, hi) as real <= opts.burst + Credit(opts, times[hi - 1] - times[lo])
  }

  /** A burst larger than the whole trace refuses nothing. */
  lemma {:induction false} LargeBurstLasts(opts: Options, times: seq<real>, k: nat)
    requires ValidOptions(opts) && k < |times| && opts.burst >= |times| as real
    ensures Admits(opts, BucketAfter(opts, times[..k]), times[k])
    ensures Served(opts, BucketAfter(opts, times[..k]), times[k]).tokens >= opts.burst - (k + 1) as real
  {
    if k > 0 {
      LargeBurstLasts(opts, times, k - 1);
      BucketSnoc(opts, times, k - 1);
      CreditNonNegative(opts, Elapsed(BucketAfter(opts, times[..k]).value, times[k]));
    }
  }

  /** Options under which one step back of the clock costs as many tokens as the bucket holds. */
  function Punishing(times: seq<real>, k: nat): Options
    requires k + 1 < |times| && times[k] > times[k + 1]
  {
    Options(1000.0 * |times| as real / (times[k] - times[k + 1]), |times| as real, 0)
  }

  /** Every step back of the clock breaks the elapsed-time bound under some options: both requests
      around it are admitted where the bound allows none. */
  lemma ClockGoingBackBreaksTheBound(times: seq<real>, k: nat)
    requires k + 1 < |times| && times[k] > times[k + 1]
    ensures var opts := Punishing(times, k);
            && ValidOptions(opts)
            && AdmittedIn(opts, times, k, k + 2) == 2
            && opts.burst + Credit(opts, times[k + 1] - times[k]) == 0.0
  {
    var opts := Punishing(times, k);
    var n, drop := |times| as real, times[k] - times[k + 1];
    assert ValidOptions(opts) by { RatioNonNegative(1000.0 * n, drop); }
    LargeBurstLasts(opts, times, k);
    LargeBurstLasts(opts, times, k + 1);
    assert AdmittedIn(opts, times, k, k + 1) == 1 by { assert AdmittedIn(opts, times, k, k) == 0; }
    CreditOfDrop(opts, n, drop);
  }

  lemma RatioNonNegative(a: real, b: real)
    requires a >= 0.0 && b > 0.0
    ensures a / b >= 0.0
  {
  }

  lemma CreditOfDrop(opts: Options, n: real, drop: real)
    requires drop > 0.0 && opts.rate == 1000.0 * n / drop
    ensures Credit(opts, -drop) == -n
  {
    assert drop * opts.rate == 1000.0 * n;
    assert (-drop / 1000.0) * opts.rate == -(drop * opts.rate) / 1000.0;
  }

  lemma {:induction false} StepBack(times: seq<real>, i: nat, j: nat) returns (k: nat)
    requires i < j < |times| && times[i] > times[j]
    ensures k + 1 < |times| && times[k] > times[k + 1]
    decreases j - i
  {
    if times[i] > times[i + 1] {
      k := i;
    } else {
      k := StepBack(times, i + 1, j);
    }
  }

  /** The elapsed-time bound, exactly: it holds for all options and all stretches of requests if and
      only if the clock never goes back. */
  lemma ElapsedBoundExactlyWhenMonotone(times: seq<real>)
    ensures NonDecreasing(times) <==>
            forall opts, lo: nat, hi: nat :: ValidOptions(opts) ==> FitsElapsed(opts, times, lo, hi)
  {
    if NonDecreasing(times) {
      forall opts, lo: nat, hi: nat | ValidOptions(opts) ensures FitsElapsed(opts, times, lo, hi) {
        if lo < hi <= |times| {
          AdmissionsBoundedByElapsedTime(opts, times, lo, hi);
        }
      }
    } else {
      var i, j :| 0 <= i < j < |times| && times[i] > times[j];
      var k := StepBack(times, i, j);
      ClockGoingBackBreaksTheBound(times, k);
      assert !FitsElapsed(Punishing(times, k), times, k, k + 2);
    }
  }

  // ---- The whole limiter ---------------------------------------------------

  datatype State = State(buckets: map<string, Bucket>, controlDepth: nat)

  const INITIAL: State := State(map[], 0)

  function Lookup(buckets: map<string, Bucket>, source: string): Option<Bucket> {
    if source in buckets then Some(buckets[source]) else None
  }

  function Decide(opts: Options, st: State, op: Op): Option<Decision> {
    match op
    case Content(source, bytes, at) =>
      if bytes > opts.maxPayloadBytes then Some(DroppedSize)
      else if Admits(opts, Lookup(st.buckets, source), at) then Some(Admitted) else Some(DroppedRate)
    case ControlPlane => if st.controlDepth >= CONTROL_DEPTH then Some(DroppedRate) else Some(Admitted)
    case ReleaseControl => None
  }

  function Step(opts: Options, st: State, op: Op): State {
    match op
    case Content(source, bytes, at) =>
      if bytes > opts.maxPayloadBytes then st
      else st.(buckets := st.buckets[source := Served(opts, Lookup(st.buckets, source), at)])
    case ControlPlane => if st.controlDepth >= CONTROL_DEPTH then st else st.(controlDepth := st.controlDepth + 1)
    case ReleaseControl => st.(controlDepth := SatSub(st.controlDepth, 1))
  }

  function Run(opts: Options, ops: seq<Op>): State {
    if ops == [] then INITIAL else Step(opts, Run(opts, Front(ops)), Last(ops))
  }

  /** When a source's bucket is asked. */
  function TimesOf(opts: Options, source: string, ops: seq<Op>): seq<real> {
    if ops == [] then []
    else
      var before := TimesOf(opts, source, Front(ops));
      var op := Last(ops);
      if op.Content? && op.source == source && op.payloadBytes <= opts.maxPayloadBytes then before + [op.at] else before
  }

  predicate ControlOp(op: Op) { !op.Content? }

  /** Sources are independent: a source's bucket after any run is determined by the times at which
      its own size-checked events arrived, and the control plane's depth by control operations. */
  lemma {:induction false} SourcesAreIndependent(opts: Options, ops: seq<Op>, source: string)
    ensures Lookup(Run(opts, ops).buckets, source) == BucketAfter(opts, TimesOf(opts, source, ops))
    ensures Run(opts, ops).controlDepth == Run(opts, Filter(ops, ControlOp)).controlDepth <= CONTROL_DEPTH
  {
    if ops != [] {
      SourcesAreIndependent(opts, Front(ops), source);
      var before := Filter(Front(ops), ControlOp);
      if ControlOp(Last(ops)) {
        assert Front(before + [Last(ops)]) == before;
      } else {
        assert Filter(ops, ControlOp) == before;
        var t := TimesOf(opts, source, Front(ops));
        assert Front(t + [Last(ops).at]) == t;
      }
    }
  }

  /** One source's flood never changes another source's decision, and no content ever delays a
      control command: runs that agree on the own operations decide alike. */
  lemma OthersNeverMatter(opts: Options, a: seq<Op>, b: seq<Op>, op: Op)
    requires op.Content? ==> TimesOf(opts, op.source, a) == TimesOf(opts, op.source, b)
    requires !op.Content? ==> Filter(a, ControlOp) == Filter(b, ControlOp)
    ensures Decide(opts, Run(opts, a), op) == Decide(opts, Run(opts, b), op)
  {
    var source := if op.Content? then op.source else "";
    SourcesAreIndependent(opts, a, source);
    SourcesAreIndependent(opts, b, source);
  }

  /** In a run of the whole limiter, the decision for a source is the single-bucket decision, so the
      admission bounds above hold for every source whatever the others do. */
  lemma {:induction false} RunsDecideBySource(opts: Options, ops: seq<Op>, source: string, bytes: nat, at: real)
    requires bytes <= opts.maxPayloadBytes
    ensures Decide(opts, Run(opts, ops), Content(source, bytes, at)) == Some(Admitted)
            <==> Admits(opts, BucketAfter(opts, TimesOf(opts, source, ops)), at)
  {
    SourcesAreIndependent(opts, ops, source);
  }

  // ---- The object ----------------------------------------------------------

  class SourceRateLimiter {
    const opts: Options
    var buckets: map<string, Bucket>
    var controlDepth: nat

    ghost function Value(): State
      reads this
    {
      State(buckets, controlDepth)
    }

    constructor (opts: Options)
      ensures this.opts == opts && Value() == INITIAL
    {
      this.opts := opts;
      buckets, controlDepth := map[], 0;
    }

    method Admit(source: string, payloadBytes: nat, controlPlane: bool, now: real) returns (r: Decision)
      modifies this
      ensures var op := if controlPlane then ControlPlane else Content(source, payloadBytes, now);
              Value() == Step(opts, old(Value()), op) && Some(r) == Decide(opts, old(Value()), op)
    {
      if controlPlane {
        if controlDepth >= CONTROL_DEPTH {
          return DroppedRate;
        }
        controlDepth := controlDepth + 1;
        return Admitted;
      }
      if payloadBytes > opts.maxPayloadBytes {
        return DroppedSize;
      }
      if source !in buckets {
        buckets := buckets[source := Bucket(opts.burst, now)];
      }
      var bucket := buckets[source];
      var elapsed := if now - bucket.lastRefill > 0.0 then now - bucket.lastRefill else 0.0;
      var tokens := bucket.tokens + Credit(opts, elapsed);
      tokens := if tokens < opts.burst then tokens else opts.burst;
      r := DroppedRate;
      if tokens >= 1.0 {
        tokens := tokens - 1.0;
        r := Admitted;
      }
      buckets := buckets[source := Bucket(tokens, now)];
    }

    method ReleaseControl()
      modifies this
      ensures Value() == Step(opts, old(Value()), Op.ReleaseControl)
    {
      controlDepth := SatSub(controlDepth, 1);
    }
  }
}
